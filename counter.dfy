/** The debounced push-button counter `count`: its four static variables and
    the global activity counter it resets, as a state, and one call as a
    function of that state and the masked input reading. */
module Counter {
  import opened Pins

  /** count's statics (`debounce`, `lastReading`, `countVal`, `validCount`)
      and the global `_activityCount`. */
  datatype CounterState = CounterState(
    debounce: int,
    lastReading: bv8,
    countVal: int,
    validCount: bool,
    activity: nat)

  /** The values at power-on. */
  const INIT := CounterState(DEBOUNCE_COUNT, 0xFF, 0, false, 0)

  /** What holds between calls: the countdown is running, the count is a
      two-digit value and the activity counter fits its uint32_t. */
  predicate Valid(s: CounterState) {
    1 <= s.debounce <= DEBOUNCE_COUNT && 0 <= s.countVal <= 99 && s.activity < UINT32_LIMIT
  }

  /** A reading the main loop can pass: port D masked with COUNT_MASK. */
  predicate IsReading(input: bv8) {
    input & COUNT_MASK == input
  }

  /** The result of one call: the new state, the returned count, and whether
      displayOff was called (released at zero after a counted press). */
  datatype Counted = Counted(next: CounterState, value: int, off: bool)

  /** True when this call completes a debounce: a non-idle reading equal to the
      previous one, no count pending release, and the countdown at its last step. */
  predicate Fires(s: CounterState, input: bv8) {
    input != COUNT_MASK && s.lastReading == input && !s.validCount && s.debounce == 1
  }

  function Min(a: int, b: int): int { if a < b then a else b }
  function Max(a: int, b: int): int { if a < b then b else a }

  /** The effect of one counted press on the count: the "down" pin adds one
      up to 99, the "up" pin takes one away down to 0 (the pin names are
      swapped with respect to what they do). */
  function Pressed(c: int, button: bv8): int {
    if button == COUNT_DN then Min(c + 1, 99) else Max(c - 1, 0)
  }

  /** One call of count(input). */
  function CountStep(s: CounterState, input: bv8): (r: Counted)
    ensures Valid(s) ==> Valid(r.next)
    ensures r.value == r.next.countVal && r.next.lastReading == input
    ensures Valid(s) ==> s.countVal - 1 <= r.value <= s.countVal + 1
  {
    if input == COUNT_MASK then
      // Both buttons released.
      var off := s.countVal == 0 && s.validCount;
      var t := s.(debounce := DEBOUNCE_COUNT, validCount := false, lastReading := input,
                  activity := if off then 0 else s.activity);
      Counted(t, t.countVal, off)
    else if s.lastReading == input && !s.validCount then
      if s.debounce - 1 == 0 then
        var t := s.(activity := 0, debounce := DEBOUNCE_COUNT, lastReading := input);
        var u :=
          if input == COUNT_UP then
            t.(validCount := true, countVal := if s.countVal >= 1 then s.countVal - 1 else s.countVal)
          else if input == COUNT_DN then
            t.(countVal := if s.countVal < 99 then s.countVal + 1 else s.countVal, validCount := true)
          else t;
        Counted(u, u.countVal, false)
      else
        var t := s.(debounce := s.debounce - 1, lastReading := input);
        Counted(t, t.countVal, false)
    else
      var t := s.(debounce := DEBOUNCE_COUNT, lastReading := input);
      Counted(t, t.countVal, false)
  }

  /** The state after calling count on each input in turn. */
  function RunCounter(s: CounterState, inputs: seq<bv8>): CounterState
    decreases |inputs|
  {
    if inputs == [] then s else RunCounter(CountStep(s, inputs[0]).next, inputs[1..])
  }

  /** The values count returns for each input in turn. */
  function Values(s: CounterState, inputs: seq<bv8>): (vs: seq<int>)
    ensures |vs| == |inputs|
    decreases |inputs|
  {
    if inputs == [] then []
    else [CountStep(s, inputs[0]).value] + Values(CountStep(s, inputs[0]).next, inputs[1..])
  }

  function Repeat(x: bv8, n: nat): (r: seq<bv8>)
    ensures |r| == n && forall i :: 0 <= i < n ==> r[i] == x
  {
    seq(n, _ => x)
  }

  // ---- one call ----

  /** An idle reading keeps the count, restarts the countdown and clears the
      pending release; it calls displayOff exactly when the count is 0 and a
      press was counted before this release. */
  lemma IdleReading(s: CounterState)
    ensures var r := CountStep(s, COUNT_MASK);
      && r.value == s.countVal
      && r.next.debounce == DEBOUNCE_COUNT && !r.next.validCount
      && (r.off <==> s.countVal == 0 && s.validCount)
      && r.next.activity == (if r.off then 0 else s.activity)
  {
  }

  /** A non-idle reading that differs from the previous one only restarts the
      countdown (and is remembered as the previous reading). */
  lemma BounceRestarts(s: CounterState, input: bv8)
    requires input != COUNT_MASK && input != s.lastReading
    ensures CountStep(s, input) == Counted(s.(debounce := DEBOUNCE_COUNT, lastReading := input), s.countVal, false)
  {
  }

  /** When the countdown completes, the activity counter is reset and the
      countdown restarts; a single button changes the count by one press
      (saturating at 0 and 99) and waits for release, both buttons change
      nothing and do not wait. Otherwise a non-idle reading never changes the
      count, the pending release or the activity counter. */
  lemma FireRule(s: CounterState, input: bv8)
    requires Valid(s)
    ensures var r := CountStep(s, input);
      && (Fires(s, input) ==>
            && r.next.activity == 0 && r.next.debounce == DEBOUNCE_COUNT && !r.off
            && r.value == (if input == COUNT_UP || input == COUNT_DN then Pressed(s.countVal, input) else s.countVal)
            && r.next.validCount == (input == COUNT_UP || input == COUNT_DN))
      && (input != COUNT_MASK && !Fires(s, input) ==>
            && r.value == s.countVal && r.next.validCount == s.validCount
            && r.next.activity == s.activity && !r.off)
  {
  }

  /** No auto-repeat: while a counted press waits for release, non-idle
      readings change nothing but the countdown; only an idle reading clears
      the pending release. */
  lemma NoAutoRepeat(s: CounterState, input: bv8)
    requires s.validCount
    ensures var r := CountStep(s, input);
      && (input != COUNT_MASK ==> r.value == s.countVal && r.next.validCount && r.next.activity == s.activity)
      && (!r.next.validCount <==> input == COUNT_MASK)
  {
  }

  // ---- sequences of calls ----

  lemma {:induction false} RunAppend(s: CounterState, a: seq<bv8>, b: seq<bv8>)
    ensures RunCounter(s, a + b) == RunCounter(RunCounter(s, a), b)
    decreases |a|
  {
    if a == [] {
      assert a + b == b;
    } else {
      assert (a + b)[0] == a[0] && (a + b)[1..] == a[1..] + b;
      RunAppend(CountStep(s, a[0]).next, a[1..], b);
    }
  }

  /** For every sequence of inputs the state stays valid: every returned count
      is in 0..99 and successive counts differ by at most one. */
  lemma {:induction false} RunStaysValid(s: CounterState, inputs: seq<bv8>)
    requires Valid(s)
    ensures Valid(RunCounter(s, inputs))
    ensures forall i :: 0 <= i < |inputs| ==> 0 <= Values(s, inputs)[i] <= 99
    ensures forall i :: 0 < i < |inputs| ==>
      Values(s, inputs)[i - 1] - 1 <= Values(s, inputs)[i] <= Values(s, inputs)[i - 1] + 1
    ensures inputs != [] ==> s.countVal - 1 <= Values(s, inputs)[0] <= s.countVal + 1
    decreases |inputs|
  {
    if inputs != [] {
      var t := CountStep(s, inputs[0]).next;
      RunStaysValid(t, inputs[1..]);
      var vs := Values(s, inputs);
      assert vs == [t.countVal] + Values(t, inputs[1..]);
      forall i | 0 < i < |inputs|
        ensures vs[i - 1] - 1 <= vs[i] <= vs[i - 1] + 1
      {
        if i > 1 {
          assert vs[i - 1] == Values(t, inputs[1..])[i - 2];
        }
      }
    }
  }

  /** While the same non-idle reading repeats with no press pending and the
      countdown not yet complete, only the countdown moves. */
  lemma {:induction false} Countdown(s: CounterState, x: bv8, m: nat)
    requires Valid(s) && x != COUNT_MASK && s.lastReading == x && !s.validCount
    requires m < s.debounce
    ensures RunCounter(s, Repeat(x, m)) == s.(debounce := s.debounce - m)
    decreases m
  {
    if m > 0 {
      var t := CountStep(s, x).next;
      assert t == s.(debounce := s.debounce - 1);
      assert Repeat(x, m)[0] == x && Repeat(x, m)[1..] == Repeat(x, m - 1);
      Countdown(t, x, m - 1);
    }
  }

  /** Holding a button after its press was counted changes nothing. */
  lemma {:induction false} HeldAfterCount(s: CounterState, x: bv8, m: nat)
    requires x != COUNT_MASK && s.lastReading == x && s.validCount
    ensures var t := RunCounter(s, Repeat(x, m));
      t.countVal == s.countVal && t.validCount && t.lastReading == x && t.activity == s.activity
      && (m > 0 ==> t.debounce == DEBOUNCE_COUNT)
    decreases m
  {
    if m > 0 {
      var t := CountStep(s, x).next;
      assert Repeat(x, m)[0] == x && Repeat(x, m)[1..] == Repeat(x, m - 1);
      HeldAfterCount(t, x, m - 1);
    }
  }

  lemma RepeatSplit(x: bv8, a: nat, b: nat)
    ensures Repeat(x, a + b) == Repeat(x, a) + Repeat(x, b)
  {
  }

  /** Holding one button for n readings after it was released: the count
      moves by one press exactly when n exceeds DEBOUNCE_COUNT, however long
      the button is held, and the press is then pending release. */
  lemma Hold(s: CounterState, x: bv8, n: nat)
    requires Valid(s) && !s.validCount
    requires (x == COUNT_UP || x == COUNT_DN) && s.lastReading != x
    ensures var t := RunCounter(s, Repeat(x, n));
      && Valid(t)
      && t.countVal == (if n > DEBOUNCE_COUNT then Pressed(s.countVal, x) else s.countVal)
      && t.validCount == (n > DEBOUNCE_COUNT)
  {
    if n > 0 {
      var s1 := CountStep(s, x).next;
      assert s1 == s.(debounce := DEBOUNCE_COUNT, lastReading := x);
      RepeatSplit(x, 1, n - 1);
      RunAppend(s, [x], Repeat(x, n - 1));
      assert RunCounter(s, [x]) == s1;
      HoldStable(s1, x, n - 1);
    }
  }

  /** The same, from the first of the held readings on: the press counts
      after DEBOUNCE_COUNT further equal readings. */
  lemma HoldStable(s: CounterState, x: bv8, m: nat)
    requires Valid(s) && !s.validCount && s.debounce == DEBOUNCE_COUNT
    requires (x == COUNT_UP || x == COUNT_DN) && s.lastReading == x
    ensures var t := RunCounter(s, Repeat(x, m));
      && Valid(t)
      && t.countVal == (if m >= DEBOUNCE_COUNT then Pressed(s.countVal, x) else s.countVal)
      && t.validCount == (m >= DEBOUNCE_COUNT)
  {
    if m < DEBOUNCE_COUNT {
      Countdown(s, x, m);
    } else {
      RepeatSplit(x, DEBOUNCE_COUNT - 1, m - DEBOUNCE_COUNT + 1);
      RunAppend(s, Repeat(x, DEBOUNCE_COUNT - 1), Repeat(x, m - DEBOUNCE_COUNT + 1));
      Countdown(s, x, DEBOUNCE_COUNT - 1);
      HoldFires(s.(debounce := 1), x, m - DEBOUNCE_COUNT);
    }
  }

  /** The reading that completes the countdown counts the press; holding on
      afterwards changes nothing. */
  lemma HoldFires(s: CounterState, x: bv8, k: nat)
    requires Valid(s) && !s.validCount && s.debounce == 1
    requires (x == COUNT_UP || x == COUNT_DN) && s.lastReading == x
    ensures var t := RunCounter(s, Repeat(x, k + 1));
      Valid(t) && t.countVal == Pressed(s.countVal, x) && t.validCount
  {
    RepeatSplit(x, 1, k);
    RunAppend(s, [x], Repeat(x, k));
    var s1 := CountStep(s, x).next;
    assert RunCounter(s, [x]) == s1;
    FireRule(s, x);
    HeldAfterCount(s1, x, k);
  }

  /** A press of n readings followed by a release: the count moves by one
      press when n exceeds DEBOUNCE_COUNT and not at all for a shorter press,
      and the release calls displayOff exactly when a counted press has left
      the count at 0. */
  lemma PressAndRelease(s: CounterState, x: bv8, n: nat)
    requires Valid(s) && !s.validCount
    requires (x == COUNT_UP || x == COUNT_DN) && s.lastReading != x
    ensures var r := CountStep(RunCounter(s, Repeat(x, n)), COUNT_MASK);
      && r.value == (if n > DEBOUNCE_COUNT then Pressed(s.countVal, x) else s.countVal)
      && (r.off <==> n > DEBOUNCE_COUNT && r.value == 0)
      && !r.next.validCount && r.next.debounce == DEBOUNCE_COUNT
  {
    Hold(s, x, n);
  }

  /** Both buttons held: the count never changes and no press is ever
      pending, however long the reading stays stable. */
  lemma {:induction false} BothPressedNeverCounts(s: CounterState, n: nat)
    requires Valid(s) && !s.validCount
    ensures var t := RunCounter(s, Repeat(0x00, n));
      Valid(t) && t.countVal == s.countVal && !t.validCount
    decreases n
  {
    if n > 0 {
      var t := CountStep(s, 0x00).next;
      FireRule(s, 0x00);
      assert Repeat(0x00, n)[0] == 0x00 && Repeat(0x00, n)[1..] == Repeat(0x00, n - 1);
      BothPressedNeverCounts(t, n - 1);
    }
  }

  /** What the run from power-on remembers about its recent inputs: the
      previous reading is the last input, and a countdown that has moved m
      steps was preceded by m + 1 equal readings. */
  lemma {:induction false} History(inputs: seq<bv8>, n: nat)
    requires n <= |inputs|
    requires forall i :: 0 <= i < |inputs| ==> IsReading(inputs[i])
    ensures var t := RunCounter(INIT, inputs[..n]);
      && Valid(t)
      && (n == 0 ==> t == INIT)
      && (n > 0 ==> t.lastReading == inputs[n - 1])
      && (t.debounce < DEBOUNCE_COUNT ==>
            && n >= DEBOUNCE_COUNT + 1 - t.debounce
            && forall j :: n - (DEBOUNCE_COUNT + 1 - t.debounce) <= j < n ==> inputs[j] == t.lastReading)
    decreases n
  {
    if n > 0 {
      History(inputs, n - 1);
      var s := RunCounter(INIT, inputs[..n - 1]);
      var x := inputs[n - 1];
      assert inputs[..n] == inputs[..n - 1] + [x];
      RunAppend(INIT, inputs[..n - 1], [x]);
      assert RunCounter(s, [x]) == CountStep(s, x).next;
      assert IsReading(x);
      assert x != 0xFF;
    } else {
      assert inputs[..0] == [];
    }
  }

  /** Bounce rejection: in a run from power-on over masked readings, a call
      that completes a debounce, and so any call that changes the count, is
      the last of DEBOUNCE_COUNT + 1 equal readings in a row. */
  lemma FireNeedsStableReadings(inputs: seq<bv8>, k: nat)
    requires k < |inputs|
    requires forall i :: 0 <= i < |inputs| ==> IsReading(inputs[i])
    ensures var t := RunCounter(INIT, inputs[..k]);
      (Fires(t, inputs[k]) || CountStep(t, inputs[k]).value != t.countVal) ==>
        && k >= DEBOUNCE_COUNT
        && forall j :: k - DEBOUNCE_COUNT <= j <= k ==> inputs[j] == inputs[k]
  {
    History(inputs, k);
    var t := RunCounter(INIT, inputs[..k]);
    FireRule(t, inputs[k]);
    IdleReading(t);
  }
}
