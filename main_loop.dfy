/** One pass of the firmware's main loop: read the buttons, count, choose the
    colour and the power state from the activity counter, then draw or blank. */
module MainLoop {
  import opened Pins
  import opened Display
  import opened Counter

  datatype Power = Normal | Dim | Off

  /** The power state for an activity count, checked against the two timeouts. */
  function PowerFor(activity: int): Power {
    if activity >= SHUTOFF_TIMEOUT then Off
    else if activity >= DIM_TIMEOUT then Dim
    else Normal
  }

  /** Green (1) only when the count is exactly 1, red (0) otherwise. */
  function ColorFor(value: int): int {
    if value == 1 then 1 else 0
  }

  /** The input pins as count sees them: one of four readings. */
  function Reading(pind: bv8): (r: bv8)
    ensures r == 0x00 || r == COUNT_DN || r == COUNT_UP || r == COUNT_MASK
    ensures IsReading(r)
  {
    pind & COUNT_MASK
  }

  /** The port writes of displayOff (the sleep itself is not modelled). */
  const BLANK: seq<Event> := [ClearLines]

  datatype Iteration = Iteration(next: CounterState, value: int, power: Power, events: seq<Event>)

  /** What the loop draws for a count in a power state: blank (displayOff)
      when off, otherwise the count dimmed or at full intensity. */
  function Frame(value: nat, power: Power): seq<Event> {
    match power
    case Off => BLANK
    case Dim => ShowValue(value, ColorFor(value), 0)
    case Normal => ShowValue(value, ColorFor(value), 1)
  }

  /** One iteration of the main loop with port D reading `pind`. */
  function IterationStep(s: CounterState, pind: bv8): Iteration
    requires Valid(s)
  {
    AfterCount(CountStep(s, Reading(pind)))
  }

  /** The rest of an iteration once count has returned `r`: blank if count
      called displayOff, advance the activity count, choose the power state
      and draw the frame. */
  function AfterCount(r: Counted): Iteration
    requires Valid(r.next) && r.value == r.next.countVal
  {
    var wake := if r.off then BLANK else [];
    var a := (r.next.activity + 1) % UINT32_LIMIT;
    var power := PowerFor(a);
    Iteration(r.next.(activity := if power == Off then 0 else a), r.value, power, wake + Frame(r.value, power))
  }

  /** AfterCount, component by component. */
  lemma AfterCountParts(r: Counted, power: Power, frame: seq<Event>)
    requires Valid(r.next) && r.value == r.next.countVal
    requires power == PowerFor((r.next.activity + 1) % UINT32_LIMIT)
    requires frame == Frame(r.value, power)
    ensures var a := (r.next.activity + 1) % UINT32_LIMIT;
      AfterCount(r) == Iteration(r.next.(activity := if power == Off then 0 else a), r.value, power,
                                 (if r.off then BLANK else []) + frame)
  {
  }

  /** What holds at the head of the loop. */
  predicate LoopInvariant(s: CounterState) {
    Valid(s) && s.activity < SHUTOFF_TIMEOUT
  }

  /** The state after one loop iteration per port D reading. */
  function RunLoop(s: CounterState, pinds: seq<bv8>): CounterState
    requires LoopInvariant(s)
    decreases |pinds|
  {
    if pinds == [] then s
    else
      IterationKeepsInvariant(s, pinds[0]);
      RunLoop(IterationStep(s, pinds[0]).next, pinds[1..])
  }

  function Rank(p: Power): nat {
    match p
    case Normal => 0
    case Dim => 1
    case Off => 2
  }

  /** Off exactly from SHUTOFF_TIMEOUT on, Dim exactly between the two
      timeouts, Normal below DIM_TIMEOUT; a longer idle time never gives a
      brighter state. */
  lemma PowerThresholds(a: int, b: int)
    ensures PowerFor(a) == Off <==> a >= SHUTOFF_TIMEOUT
    ensures PowerFor(a) == Dim <==> DIM_TIMEOUT <= a < SHUTOFF_TIMEOUT
    ensures PowerFor(a) == Normal <==> a < DIM_TIMEOUT
    ensures a <= b ==> Rank(PowerFor(a)) <= Rank(PowerFor(b))
  {
  }

  /** The increment never wraps: at the loop head the count is below
      SHUTOFF_TIMEOUT, and the iteration restores that; the new count is the
      old one (or 0 after a reset by count) plus one, or 0 when switched off. */
  lemma IterationKeepsInvariant(s: CounterState, pind: bv8)
    requires LoopInvariant(s)
    ensures var it := IterationStep(s, pind);
      var r := CountStep(s, Reading(pind));
      && LoopInvariant(it.next)
      && it.next.activity == (if it.power == Off then 0 else r.next.activity + 1)
      && (it.power == Off <==> r.next.activity + 1 >= SHUTOFF_TIMEOUT)
      && it.value == it.next.countVal
  {
  }

  /** A completed debounce, or a release at zero, leaves the activity count at
      1 and the display at full brightness. */
  lemma ActivityAfterPress(s: CounterState, pind: bv8)
    requires LoopInvariant(s)
    requires Fires(s, Reading(pind)) || CountStep(s, Reading(pind)).off
    ensures IterationStep(s, pind).next.activity == 1 && IterationStep(s, pind).power == Normal
  {
    FireRule(s, Reading(pind));
    IdleReading(s);
  }

  /** What a frame shows, how long it takes, and that it ends dark. */
  lemma FrameDisplay(p: Ports, value: nat, power: Power)
    ensures Run(p, Frame(value, power)).d == p.d & COLOR_MASK
    ensures power == Off ==> Shown(p, Frame(value, power)) == [] && TotalDelay(Frame(value, power)) == 0
    ensures power != Off ==>
      && Shown(p, Frame(value, power)) == Expected(value, value == 1)
      && TotalDelay(Frame(value, power)) == (if power == Dim then 500 else 100)
  {
    if power == Off {
      assert BLANK[1..] == [];
    } else {
      var intensity := if power == Dim then 0 else 1;
      assert Frame(value, power) == ShowValue(value, ColorFor(value), intensity);
      ShowValueDisplaysDigits(p, value, ColorFor(value), intensity);
      ShowValueCycleTime(value, ColorFor(value), intensity);
    }
  }

  /** Unless switched off, an iteration draws the count's units digit and,
      from 10 on, its tens digit, green exactly when the count is 1, spending
      100 µs at full brightness and 500 µs when dimmed; it always ends with
      every cathode off and port D's input bits unchanged. */
  lemma IterationDisplay(s: CounterState, pind: bv8, p: Ports)
    requires LoopInvariant(s)
    ensures var it := IterationStep(s, pind);
      && Run(p, it.events).d == p.d & COLOR_MASK
      && (it.power == Off ==> Shown(p, it.events) == [] && TotalDelay(it.events) == 0)
      && (it.power != Off ==>
            && Shown(p, it.events) == Expected(it.value, it.value == 1)
            && TotalDelay(it.events) == (if it.power == Dim then 500 else 100))
  {
    var it := IterationStep(s, pind);
    var r := CountStep(s, Reading(pind));
    var wake := if r.off then BLANK else [];
    var frame := Frame(r.value, it.power);
    assert it.events == wake + frame && it.value == r.value;
    var q := Run(p, wake);
    Display.RunAppend(p, wake, frame);
    ShownAppend(p, wake, frame);
    TotalDelayAppend(wake, frame);
    assert q.d & COLOR_MASK == p.d & COLOR_MASK && Shown(p, wake) == [] && TotalDelay(wake) == 0 by {
      if r.off {
        assert wake[1..] == [];
      }
    }
    FrameDisplay(q, r.value, it.power);
  }

  /** For every sequence of port D readings the loop invariant holds at each
      loop head: the count stays in 0..99 and the activity counter stays
      below SHUTOFF_TIMEOUT, so it never wraps. */
  lemma {:induction false} LoopInvariantAlways(s: CounterState, pinds: seq<bv8>)
    requires LoopInvariant(s)
    ensures LoopInvariant(RunLoop(s, pinds))
    decreases |pinds|
  {
    if pinds != [] {
      IterationKeepsInvariant(s, pinds[0]);
      LoopInvariantAlways(IterationStep(s, pinds[0]).next, pinds[1..]);
    }
  }
}
