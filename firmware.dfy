/** The firmware's mutable state as one object: count's statics, the global
    activity counter and the three output ports, with the routines that
    update them in place. Each routine is proved against the functions of
    Counter, Display and MainLoop. */
module Firmware {
  import opened Pins
  import opened Display
  import opened Counter
  import opened MainLoop

  class Controller {
    // count's static variables
    var debounce: int
    var lastReading: bv8
    var countVal: int
    var validCount: bool
    // the global _activityCount
    var activityCount: nat
    // the output registers
    var portB: bv8
    var portC: bv8
    var portD: bv8

    function State(): CounterState
      reads this
    {
      CounterState(debounce, lastReading, countVal, validCount, activityCount)
    }

    function PortState(): Ports
      reads this
    {
      Ports(portB, portC, portD)
    }

    ghost predicate Valid()
      reads this
    {
      Counter.Valid(State())
    }

    /** Power-on: the statics' initial values and main's initial port values
        (segments off, pull-ups on the two inputs). */
    constructor ()
      ensures Valid() && State() == INIT
      ensures PortState() == Ports(0, 0, COUNT_MASK)
    {
      debounce, lastReading, countVal, validCount := DEBOUNCE_COUNT, 0xFF, 0, false;
      activityCount := 0;
      portB, portC, portD := 0, 0, COUNT_MASK;
    }

    /** displayOff, without the sleep: the activity count restarts and every
        cathode is switched off. */
    method DisplayOff()
      modifies this`activityCount, this`portD
      ensures activityCount == 0 && portD == old(portD) & COLOR_MASK
    {
      activityCount := 0;
      portD := portD & COLOR_MASK;
    }

    /** count(input). */
    method Count(input: bv8) returns (value: int, off: bool)
      requires Valid()
      modifies this
      ensures Valid()
      ensures Counted(State(), value, off) == CountStep(old(State()), input)
      ensures portB == old(portB) && portC == old(portC)
      ensures portD == if off then old(portD) & COLOR_MASK else old(portD)
    {
      ghost var s0 := State();
      off := false;
      if input == COUNT_MASK {
        if countVal == 0 && validCount {
          DisplayOff();
          off := true;
        }
        debounce := DEBOUNCE_COUNT;
        validCount := false;
      } else {
        if lastReading == input && !validCount {
          debounce := debounce - 1;
          if debounce == 0 {
            activityCount := 0;
            debounce := DEBOUNCE_COUNT;
            if input == COUNT_UP {
              validCount := true;
              if countVal >= 1 {
                countVal := countVal - 1;
              }
            } else if input == COUNT_DN {
              if countVal < 99 {
                countVal := countVal + 1;
              }
              validCount := true;
            }
          }
        } else {
          debounce := DEBOUNCE_COUNT;
        }
        assert !off;
      }
      lastReading := input;
      value := countVal;
      assert State() == CountStep(s0, input).next;
    }

    /** enableDigit(d): overwrite PORTC and PORTB with the digit's pattern. */
    method EnableDigit(d: int)
      modifies this`portC, this`portB
      ensures (portC, portB) == DigitPorts(d, old(portC), old(portB))
    {
      var r := DigitPorts(d, portC, portB);
      portC := r.0;
      portB := r.1;
    }

    /** showValue(val, color, intensity): the port writes happen in place and
        `events` records them, with the busy waits, in order. */
    method ShowValue(val: nat, color: int, intensity: int) returns (events: seq<Event>)
      modifies this`portB, this`portC, this`portD
      ensures events == Display.ShowValue(val, color, intensity)
      ensures PortState() == Run(old(PortState()), events)
    {
      ghost var start := PortState();
      var v := if val < 99 then val else 99;
      var units := v % 10;
      var tens := v / 10;

      events := DrawDigit(start, [], units, if color != 0 then UNITS_GRN else UNITS_RED);
      if intensity == 0 {
        events := Wait(start, events, DIM_OFF_TIME);
      }
      ghost var first := events;
      assert first == Slot(units, if color != 0 then UNITS_GRN else UNITS_RED) + DimGap(intensity);
      if v < 10 {
        // Compensate for the dark tens digit.
        events := Wait(start, events, ON_TIME);
        if intensity == 0 {
          events := Wait(start, events, DIM_OFF_TIME);
        }
        assert events == first + ([Delay(ON_TIME)] + DimGap(intensity));
        return;
      }
      events := DrawDigit(start, events, tens, if color != 0 then TENS_GRN else TENS_RED);
      if intensity == 0 {
        events := Wait(start, events, DIM_OFF_TIME);
      }
      assert events == first + (Slot(tens, if color != 0 then TENS_GRN else TENS_RED) + DimGap(intensity));
    }

    /** One digit slot of showValue: the digit's pattern, its cathode on for
        the on-time, then every cathode off. `log` and `start` record what
        happened since the ports were `start`. */
    method DrawDigit(ghost start: Ports, log: seq<Event>, d: int, line: bv8) returns (log': seq<Event>)
      requires PortState() == Run(start, log)
      modifies this`portB, this`portC, this`portD
      ensures log' == log + Slot(d, line)
      ensures PortState() == Run(start, log')
    {
      ghost var before := PortState();
      EnableDigit(d);
      portD := (portD & COLOR_MASK) | line;
      portD := portD & COLOR_MASK;
      log' := log + Slot(d, line);
      SlotRun(before, d, line);
      Display.RunAppend(start, log, Slot(d, line));
    }

    /** A busy wait of `us` microseconds: no port changes. */
    method Wait(ghost start: Ports, log: seq<Event>, us: nat) returns (log': seq<Event>)
      requires PortState() == Run(start, log)
      ensures log' == log + [Delay(us)]
      ensures PortState() == Run(start, log')
    {
      log' := log + [Delay(us)];
      Display.RunAppend(start, log, [Delay(us)]);
      assert [Delay(us)][1..] == [];
    }

    /** One pass of the main loop, with port D reading `pind`. */
    method Iterate(pind: bv8) returns (power: Power, events: seq<Event>)
      requires Valid()
      modifies this
      ensures Valid()
      ensures IterationStep(old(State()), pind) == Iteration(State(), countVal, power, events)
      ensures PortState() == Run(old(PortState()), events)
    {
      ghost var p0 := PortState();
      var value, off := Count(Reading(pind));
      BlankRun(p0);
      power, events := Finish(p0, value, off);
    }

    /** The loop body after count has returned `value`, having called
        displayOff iff `off`; the ports were `p0` before count. */
    method Finish(ghost p0: Ports, value: int, off: bool) returns (power: Power, events: seq<Event>)
      requires Valid() && value == countVal
      requires PortState() == Run(p0, if off then BLANK else [])
      modifies this
      ensures Valid()
      ensures AfterCount(Counted(old(State()), value, off)) == Iteration(State(), countVal, power, events)
      ensures PortState() == Run(p0, events)
    {
      ghost var r := Counted(State(), value, off);
      ghost var a := (activityCount + 1) % UINT32_LIMIT;
      assert a == (r.next.activity + 1) % UINT32_LIMIT;
      var wake := if off then BLANK else [];
      var frame;
      power, frame := Refresh(value);
      assert power == PowerFor(a);
      Display.RunAppend(p0, wake, frame);
      events := wake + frame;
      AfterCountParts(r, power, frame);
    }

    /** The rest of a loop pass after count: colour, activity count, power
        state, then draw the count or switch the display off. */
    method Refresh(value: nat) returns (power: Power, events: seq<Event>)
      modifies this`activityCount, this`portB, this`portC, this`portD
      ensures var a := (old(activityCount) + 1) % UINT32_LIMIT;
        && power == PowerFor(a)
        && activityCount == (if power == Off then 0 else a)
        && events == Frame(value, power)
      ensures PortState() == Run(old(PortState()), events)
    {
      var color := ColorFor(value);
      activityCount := (activityCount + 1) % UINT32_LIMIT;
      if activityCount >= SHUTOFF_TIMEOUT {
        power := Off;
        DisplayOff();
        events := BLANK;
        BlankRun(old(PortState()));
      } else if activityCount >= DIM_TIMEOUT {
        power := Dim;
        events := ShowValue(value, color, 0);
      } else {
        power := Normal;
        events := ShowValue(value, color, 1);
      }
    }
  }

  /** The port effect of one slot, unfolded. */
  lemma SlotRun(p: Ports, d: int, line: bv8)
    ensures var r := DigitPorts(d, p.c, p.b);
      Run(p, Slot(d, line)) == Ports(r.1, r.0, (((p.d & COLOR_MASK) | line) & COLOR_MASK))
  {
    var s := Slot(d, line);
    var p1 := Apply(p, s[0]);
    var p2 := Apply(p1, s[1]);
    var p3 := Apply(p2, s[2]);
    var t1, t2, t3 := s[1..], s[1..][1..], s[1..][1..][1..];
    assert t3[1..] == [];
    assert Run(p, s) == Run(p1, t1) == Run(p2, t2) == Run(p3, t3) == Apply(p3, s[3]);
  }

  /** The port effect of displayOff, and of doing nothing. */
  lemma BlankRun(p: Ports)
    ensures Run(p, BLANK) == p.(d := p.d & COLOR_MASK)
    ensures Run(p, []) == p
  {
    assert BLANK[1..] == [];
  }
}
