/** The multiplexed two-digit display: the digit-to-segment lookup of
    enableDigit, the port-write sequence of showValue, and what a viewer sees. */
module Display {
  import opened Pins

  datatype Segment = A | B | C | D | E | F | G

  /** The usual seven-segment shape of each decimal digit; nothing for other values. */
  function Glyph(d: int): set<Segment> {
    match d
    case 0 => {A, B, C, D, E, F}
    case 1 => {B, C}
    case 2 => {A, B, D, E, G}
    case 3 => {A, B, C, D, G}
    case 4 => {B, C, F, G}
    case 5 => {A, C, D, F, G}
    case 6 => {A, C, D, E, F, G}
    case 7 => {A, B, C}
    case 8 => {A, B, C, D, E, F, G}
    case 9 => {A, B, C, D, F, G}
    case _ => {}
  }

  /** The segments that given PORTC and PORTB values drive under the pin map. */
  function LitSegments(portC: bv8, portB: bv8): set<Segment> {
    (if portB & SEG_A != 0 then {A} else {}) +
    (if portC & SEG_B != 0 then {B} else {}) +
    (if portC & SEG_C != 0 then {C} else {}) +
    (if portC & SEG_D != 0 then {D} else {}) +
    (if portC & SEG_E != 0 then {E} else {}) +
    (if portC & SEG_F != 0 then {F} else {}) +
    (if portB & SEG_G != 0 then {G} else {})
  }

  /** The segment bits enableDigit sets for digit `d`: (port C bits, port B bits). */
  function SegmentMasks(d: int): (m: (bv8, bv8))
    ensures m.0 & (KEPT_C | DP) == 0 && m.1 & KEPT_B == 0
  {
    match d
    case 0 => (SEG_B | SEG_C | SEG_D | SEG_E | SEG_F, SEG_A)
    case 1 => (SEG_B | SEG_C, 0)
    case 2 => (SEG_B | SEG_D | SEG_E, SEG_A | SEG_G)
    case 3 => (SEG_B | SEG_C | SEG_D, SEG_A | SEG_G)
    case 4 => (SEG_B | SEG_C | SEG_F, SEG_G)
    case 5 => (SEG_C | SEG_D | SEG_F, SEG_A | SEG_G)
    case 6 => (SEG_F | SEG_C | SEG_D | SEG_E, SEG_A | SEG_G)
    case 7 => (SEG_B | SEG_C, SEG_A)
    case 8 => (SEG_B | SEG_C | SEG_D | SEG_E | SEG_F, SEG_A | SEG_G)
    case 9 => (SEG_B | SEG_C | SEG_D | SEG_F, SEG_A | SEG_G)
    case _ => (0, 0)
  }

  /** Under the board's pin map, the masks of a digit drive exactly the
      segments of its shape, and none for a value outside 0..9. */
  lemma SegmentMasksShowGlyph(d: int)
    ensures LitSegments(SegmentMasks(d).0, SegmentMasks(d).1) == Glyph(d)
  {
    var m := SegmentMasks(d);
    match d
    case 0 => assert LitSegments(m.0, m.1) == {A, B, C, D, E, F};
    case 1 => assert LitSegments(m.0, m.1) == {B, C};
    case 2 => assert LitSegments(m.0, m.1) == {A, B, D, E, G};
    case 3 => assert LitSegments(m.0, m.1) == {A, B, C, D, G};
    case 4 => assert LitSegments(m.0, m.1) == {B, C, F, G};
    case 5 => assert LitSegments(m.0, m.1) == {A, C, D, F, G};
    case 6 => assert LitSegments(m.0, m.1) == {A, C, D, E, F, G};
    case 7 => assert LitSegments(m.0, m.1) == {A, B, C};
    case 8 => assert LitSegments(m.0, m.1) == {A, B, C, D, E, F, G};
    case 9 => assert LitSegments(m.0, m.1) == {A, B, C, D, F, G};
    case _ => assert LitSegments(m.0, m.1) == {};
  }

  /** enableDigit: the new (PORTC, PORTB) drive exactly the segments of digit
      `d`, clear the decimal point, and keep PC6 and PB2..PB7. */
  function DigitPorts(d: int, portC: bv8, portB: bv8): (r: (bv8, bv8))
    ensures LitSegments(r.0, r.1) == Glyph(d)
    ensures r.0 & KEPT_C == portC & KEPT_C && r.0 & DP == 0
    ensures r.1 & KEPT_B == portB & KEPT_B
  {
    var m := SegmentMasks(d);
    SegmentMasksShowGlyph(d);
    var r := ((portC & KEPT_C) | m.0, (portB & KEPT_B) | m.1);
    assert LitSegments(r.0, r.1) == LitSegments(m.0, m.1);
    r
  }

  /** One step of the display code: a digit pattern written to PORTC/PORTB,
      a cathode switched on, all cathodes switched off, or a busy wait. */
  datatype Event = ShowDigit(digit: int) | LightLine(line: bv8) | ClearLines | Delay(us: nat)

  datatype Ports = Ports(b: bv8, c: bv8, d: bv8)

  function Apply(p: Ports, e: Event): Ports {
    match e
    case ShowDigit(digit) =>
      var r := DigitPorts(digit, p.c, p.b);
      p.(c := r.0, b := r.1)
    case LightLine(line) => p.(d := (p.d & COLOR_MASK) | line)
    case ClearLines => p.(d := p.d & COLOR_MASK)
    case Delay(_) => p
  }

  /** The port values after the events of `t`, in order. */
  function Run(p: Ports, t: seq<Event>): Ports
    decreases |t|
  {
    if t == [] then p else Run(Apply(p, t[0]), t[1..])
  }

  /** What a viewer sees: for each cathode switched on, the segments driven at that moment. */
  function Shown(p: Ports, t: seq<Event>): seq<(set<Segment>, bv8)>
    decreases |t|
  {
    if t == [] then []
    else
      (if t[0].LightLine? then [(LitSegments(p.c, p.b), t[0].line)] else []) +
      Shown(Apply(p, t[0]), t[1..])
  }

  /** Microseconds spent busy-waiting by the events of `t`. */
  function TotalDelay(t: seq<Event>): nat
    decreases |t|
  {
    if t == [] then 0 else (if t[0].Delay? then t[0].us else 0) + TotalDelay(t[1..])
  }

  /** One digit's time slot: pattern, cathode on, on-time, cathodes off. */
  function Slot(d: int, line: bv8): seq<Event> {
    [ShowDigit(d), LightLine(line), Delay(ON_TIME), ClearLines]
  }

  /** The extra off-time after each digit slot when the display is dimmed. */
  function DimGap(intensity: int): seq<Event> {
    if intensity == 0 then [Delay(DIM_OFF_TIME)] else []
  }

  /** showValue: the units digit, then the tens digit, or an equally long
      blank wait when the clamped value has one digit. */
  function ShowValue(val: nat, color: int, intensity: int): seq<Event> {
    var v := if val < 99 then val else 99;
    Slot(v % 10, if color != 0 then UNITS_GRN else UNITS_RED) + DimGap(intensity) +
    if v < 10 then [Delay(ON_TIME)] + DimGap(intensity)
    else Slot(v / 10, if color != 0 then TENS_GRN else TENS_RED) + DimGap(intensity)
  }

  /** The two digits of the display and their cathode lines, for a reference. */
  function Expected(val: nat, green: bool): seq<(set<Segment>, bv8)> {
    var v := if val < 99 then val else 99;
    [(Glyph(v % 10), if green then UNITS_GRN else UNITS_RED)] +
    (if v >= 10 then [(Glyph(v / 10), if green then TENS_GRN else TENS_RED)] else [])
  }

  lemma {:induction false} RunAppend(p: Ports, a: seq<Event>, b: seq<Event>)
    ensures Run(p, a + b) == Run(Run(p, a), b)
    decreases |a|
  {
    if a == [] {
      assert a + b == b;
    } else {
      assert (a + b)[0] == a[0] && (a + b)[1..] == a[1..] + b;
      RunAppend(Apply(p, a[0]), a[1..], b);
    }
  }

  lemma {:induction false} ShownAppend(p: Ports, a: seq<Event>, b: seq<Event>)
    ensures Shown(p, a + b) == Shown(p, a) + Shown(Run(p, a), b)
    decreases |a|
  {
    if a == [] {
      assert a + b == b;
    } else {
      assert (a + b)[0] == a[0] && (a + b)[1..] == a[1..] + b;
      ShownAppend(Apply(p, a[0]), a[1..], b);
    }
  }

  lemma {:induction false} TotalDelayAppend(a: seq<Event>, b: seq<Event>)
    ensures TotalDelay(a + b) == TotalDelay(a) + TotalDelay(b)
    decreases |a|
  {
    if a == [] {
      assert a + b == b;
    } else {
      assert (a + b)[0] == a[0] && (a + b)[1..] == a[1..] + b;
      TotalDelayAppend(a[1..], b);
    }
  }

  /** A slot shows exactly its digit on its line and leaves every cathode off. */
  lemma SlotShowsDigit(p: Ports, d: int, line: bv8)
    requires line & COLOR_MASK == 0
    ensures Shown(p, Slot(d, line)) == [(Glyph(d), line)]
    ensures Run(p, Slot(d, line)).d == p.d & COLOR_MASK
    ensures TotalDelay(Slot(d, line)) == ON_TIME
  {
    var s := Slot(d, line);
    var p1 := Apply(p, s[0]);
    var p2 := Apply(p1, s[1]);
    var p3 := Apply(p2, s[2]);
    var t1, t2, t3 := s[1..], s[1..][1..], s[1..][1..][1..];
    assert t3[1..] == [];
    assert Run(p, s) == Run(p1, t1) == Run(p2, t2) == Run(p3, t3) == Apply(p3, s[3]);
    assert TotalDelay(s) == TotalDelay(t1) == TotalDelay(t2) == ON_TIME + TotalDelay(t3);
    assert Shown(p3, t3) == [];
    assert Shown(p1, t1) == [(LitSegments(p1.c, p1.b), line)];
  }

  /** The dimming gap shows nothing and changes no port. */
  lemma DimGapIsBlank(p: Ports, intensity: int)
    ensures Shown(p, DimGap(intensity)) == [] && Run(p, DimGap(intensity)) == p
    ensures TotalDelay(DimGap(intensity)) == if intensity == 0 then DIM_OFF_TIME else 0
  {
  }

  /** A digit slot followed by the dimming gap: the digit is seen once, the
      slot ends dark, and it takes the on-time plus the gap. */
  lemma DigitSlot(p: Ports, d: int, line: bv8, intensity: int)
    requires line & COLOR_MASK == 0
    ensures Shown(p, Slot(d, line) + DimGap(intensity)) == [(Glyph(d), line)]
    ensures Run(p, Slot(d, line) + DimGap(intensity)).d == p.d & COLOR_MASK
    ensures TotalDelay(Slot(d, line) + DimGap(intensity)) ==
      ON_TIME + if intensity == 0 then DIM_OFF_TIME else 0
  {
    SlotShowsDigit(p, d, line);
    ShownAppend(p, Slot(d, line), DimGap(intensity));
    RunAppend(p, Slot(d, line), DimGap(intensity));
    TotalDelayAppend(Slot(d, line), DimGap(intensity));
    DimGapIsBlank(Run(p, Slot(d, line)), intensity);
  }

  /** The wait that stands in for a dark tens digit: nothing seen, no port
      changed, as long as a digit slot. */
  lemma BlankSlot(p: Ports, intensity: int)
    ensures Shown(p, [Delay(ON_TIME)] + DimGap(intensity)) == []
    ensures Run(p, [Delay(ON_TIME)] + DimGap(intensity)) == p
    ensures TotalDelay([Delay(ON_TIME)] + DimGap(intensity)) ==
      ON_TIME + if intensity == 0 then DIM_OFF_TIME else 0
  {
    var w := [Delay(ON_TIME)] + DimGap(intensity);
    assert w[0] == Delay(ON_TIME) && w[1..] == DimGap(intensity);
    DimGapIsBlank(p, intensity);
  }

  /** showValue lights the units digit of the clamped value, then the tens
      digit only when it is at least 10, on the green lines iff `color != 0`,
      and leaves all cathodes off and port D's input bits untouched. */
  lemma ShowValueDisplaysDigits(p: Ports, val: nat, color: int, intensity: int)
    ensures Shown(p, ShowValue(val, color, intensity)) == Expected(val, color != 0)
    ensures Run(p, ShowValue(val, color, intensity)).d == p.d & COLOR_MASK
  {
    var v := if val < 99 then val else 99;
    var first := Slot(v % 10, if color != 0 then UNITS_GRN else UNITS_RED) + DimGap(intensity);
    var rest := if v < 10 then [Delay(ON_TIME)] + DimGap(intensity)
                else Slot(v / 10, if color != 0 then TENS_GRN else TENS_RED) + DimGap(intensity);
    assert ShowValue(val, color, intensity) == first + rest;
    DigitSlot(p, v % 10, if color != 0 then UNITS_GRN else UNITS_RED, intensity);
    ShownAppend(p, first, rest);
    RunAppend(p, first, rest);
    var q := Run(p, first);
    if v < 10 {
      BlankSlot(q, intensity);
    } else {
      DigitSlot(q, v / 10, if color != 0 then TENS_GRN else TENS_RED, intensity);
    }
  }

  /** The time spent is the same with or without the tens digit:
      100 µs at full intensity, 500 µs when dimmed. */
  lemma ShowValueCycleTime(val: nat, color: int, intensity: int)
    ensures TotalDelay(ShowValue(val, color, intensity)) == if intensity == 0 then 500 else 100
  {
    var v := if val < 99 then val else 99;
    var first := Slot(v % 10, if color != 0 then UNITS_GRN else UNITS_RED) + DimGap(intensity);
    var rest := if v < 10 then [Delay(ON_TIME)] + DimGap(intensity)
                else Slot(v / 10, if color != 0 then TENS_GRN else TENS_RED) + DimGap(intensity);
    assert ShowValue(val, color, intensity) == first + rest;
    var p := Ports(0, 0, 0);
    DigitSlot(p, v % 10, if color != 0 then UNITS_GRN else UNITS_RED, intensity);
    TotalDelayAppend(first, rest);
    if v < 10 {
      BlankSlot(p, intensity);
    } else {
      DigitSlot(p, v / 10, if color != 0 then TENS_GRN else TENS_RED, intensity);
    }
  }
}
