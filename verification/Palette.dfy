/**
 The twenty-colour palette of display.c, the power adjustment that maps any colour
 to it, and the scaling between stored colours and 7-bit SysEx colours.
 */
module Palette {
  import opened Bytes

  datatype Rgb = Rgb(r: byte, g: byte, b: byte)

  const OFF := Rgb(0, 0, 0)
  const RED := Rgb(48, 0, 0)
  const RED_DIM := Rgb(24, 0, 0)
  const ORANGE := Rgb(40, 12, 0)
  const ORANGE_DIM := Rgb(20, 6, 0)
  const YELLOW := Rgb(32, 25, 0)
  const YELLOW_DIM := Rgb(16, 12, 0)
  const CHARTREUSE := Rgb(25, 32, 0)
  const CHARTREUSE_DIM := Rgb(12, 16, 0)
  const GREEN := Rgb(0, 48, 0)
  const GREEN_DIM := Rgb(0, 24, 0)
  const CYAN := Rgb(0, 30, 30)
  const CYAN_DIM := Rgb(0, 15, 15)
  const BLUE := Rgb(0, 0, 48)
  const BLUE_DIM := Rgb(0, 0, 24)
  const LAVENDER := Rgb(25, 7, 32)
  const LAVENDER_DIM := Rgb(13, 3, 17)
  const PINK := Rgb(36, 0, 18)
  const PINK_DIM := Rgb(18, 0, 9)
  const WHITE := Rgb(24, 24, 24)

  const PALETTE: set<Rgb> := {
    OFF, RED, RED_DIM, ORANGE, ORANGE_DIM, YELLOW, YELLOW_DIM, CHARTREUSE, CHARTREUSE_DIM, GREEN,
    GREEN_DIM, CYAN, CYAN_DIM, BLUE, BLUE_DIM, LAVENDER, LAVENDER_DIM, PINK, PINK_DIM, WHITE
  }

  const BRIGHT_LIMIT := 0x80
  const LAVENDER_GREEN_LIMIT := 0x24

  /** The bright or the dim member of a family, unless the colour is already a palette colour. */
  function Pick(c: Rgb, keep: bool, level: byte, bright: Rgb, dim: Rgb): Rgb {
    if keep then c else if level > BRIGHT_LIMIT then bright else dim
  }

  /** One triple of `adjust_inactive_bank_leds_for_power` and `adjust_active_bank_leds_for_power`. */
  function Adjusted(c: Rgb): Rgb {
    if c.r == 0 then
      if c.g == 0 then
        if c.b == 0 then OFF else Pick(c, c.b == BLUE.b, c.b, BLUE, BLUE_DIM)
      else if c.b == 0 then Pick(c, c.g == GREEN.g, c.g, GREEN, GREEN_DIM)
      else Pick(c, c.g == CYAN.g, c.g, CYAN, CYAN_DIM)
    else if c.g == 0 then
      if c.b == 0 then Pick(c, c.r == RED.r, c.r, RED, RED_DIM)
      else Pick(c, c.r == PINK.r, c.r, PINK, PINK_DIM)
    else if c.b == 0 then
      if c.r < c.g then Pick(c, c.g == CHARTREUSE.g, c.g, CHARTREUSE, CHARTREUSE_DIM)
      else if c.r / 2 >= c.g then Pick(c, c.r == ORANGE.r, c.r, ORANGE, ORANGE_DIM)
      else Pick(c, c.r == YELLOW.r, c.r, YELLOW, YELLOW_DIM)
    else if c.g > LAVENDER_GREEN_LIMIT then WHITE
    else Pick(c, c.b == LAVENDER.b, c.r, LAVENDER, LAVENDER_DIM)
  }

  /** A stored colour byte as it is sent: 0..48 becomes 0..127, in 16-bit arithmetic, kept as a byte. */
  function ToSysEx(v: byte): byte {
    Low8(v * 127 % 65536 / 48)
  }

  /** A received colour byte as it is stored before the power adjustment. */
  function FromSysEx(v: byte): byte {
    Low8(v * 2)
  }

  function Rescaled(v: byte): byte {
    FromSysEx(ToSysEx(v))
  }

  function RescaledColour(c: Rgb): Rgb {
    Rgb(Rescaled(c.r), Rescaled(c.g), Rescaled(c.b))
  }

  /** What pulling a colour and pushing it back stores. */
  function Echoed(c: Rgb): Rgb {
    Adjusted(RescaledColour(c))
  }

  /** The adjustment yields a palette colour, or leaves alone a colour with a bright component. */
  lemma AdjustedOrBright(c: Rgb)
    ensures Adjusted(c) in PALETTE || (Adjusted(c) == c && (IsBright(c.r) || IsBright(c.g) || IsBright(c.b)))
  {
  }

  predicate IsBright(v: byte) {
    v == 30 || v == 32 || v == 36 || v == 40 || v == 48
  }

  lemma RescalingMovesBright(v: byte)
    ensures IsBright(v) ==> Rescaled(v) != v
  {
  }

  /** Pulling and pushing back keeps a colour exactly when it is one of the twenty. */
  lemma EchoKeepsExactlyThePalette(c: Rgb)
    ensures Echoed(c) == c <==> c in PALETTE
  {
    if c in PALETTE {
      EchoKeepsPalette(c);
    } else {
      AdjustedOrBright(RescaledColour(c));
      RescalingMovesBright(c.r);
      RescalingMovesBright(c.g);
      RescalingMovesBright(c.b);
    }
  }

  lemma RescaledIs(v: byte, quotient: byte)
    requires 48 * quotient <= 127 * v < 48 * (quotient + 1) && quotient < 128
    ensures Rescaled(v) == 2 * quotient
  {
    Low8Is(v * 127 / 48, 0, quotient);
    Low8Is(quotient * 2, 0, quotient * 2);
  }

  /** The echo of a colour from the quotients of its scaled components. */
  lemma EchoOf(c: Rgb, r: byte, g: byte, b: byte)
    requires 48 * r <= 127 * c.r < 48 * (r + 1) && r < 128
    requires 48 * g <= 127 * c.g < 48 * (g + 1) && g < 128
    requires 48 * b <= 127 * c.b < 48 * (b + 1) && b < 128
    requires Adjusted(Rgb(2 * r, 2 * g, 2 * b)) == c
    ensures Echoed(c) == c
  {
    RescaledIs(c.r, r);
    RescaledIs(c.g, g);
    RescaledIs(c.b, b);
  }

  const WARM: set<Rgb> := {
    OFF, RED, RED_DIM, ORANGE, ORANGE_DIM, YELLOW, YELLOW_DIM, CHARTREUSE, CHARTREUSE_DIM, WHITE}

  const COOL: set<Rgb> := {
    GREEN, GREEN_DIM, CYAN, CYAN_DIM, BLUE, BLUE_DIM, LAVENDER, LAVENDER_DIM, PINK, PINK_DIM}

  lemma EchoKeepsWarm()
    ensures forall c | c in WARM :: Echoed(c) == c
  {
    EchoOf(OFF, 0, 0, 0);
    EchoOf(RED, 127, 0, 0);
    EchoOf(RED_DIM, 63, 0, 0);
    EchoOf(ORANGE, 105, 31, 0);
    EchoOf(ORANGE_DIM, 52, 15, 0);
    EchoOf(YELLOW, 84, 66, 0);
    EchoOf(YELLOW_DIM, 42, 31, 0);
    EchoOf(CHARTREUSE, 66, 84, 0);
    EchoOf(CHARTREUSE_DIM, 31, 42, 0);
    EchoOf(WHITE, 63, 63, 63);
  }

  lemma EchoKeepsCool()
    ensures forall c | c in COOL :: Echoed(c) == c
  {
    EchoOf(GREEN, 0, 127, 0);
    EchoOf(GREEN_DIM, 0, 63, 0);
    EchoOf(CYAN, 0, 79, 79);
    EchoOf(CYAN_DIM, 0, 39, 39);
    EchoOf(BLUE, 0, 0, 127);
    EchoOf(BLUE_DIM, 0, 0, 63);
    EchoOf(LAVENDER, 66, 18, 84);
    EchoOf(LAVENDER_DIM, 34, 7, 44);
    EchoOf(PINK, 95, 0, 47);
    EchoOf(PINK_DIM, 47, 0, 23);
  }

  lemma EchoKeepsPalette(c: Rgb)
    requires c in PALETTE
    ensures Echoed(c) == c
  {
    assert c in WARM || c in COOL;
    EchoKeepsWarm();
    EchoKeepsCool();
  }

  // ----- What a host may send

  predicate IsSent(c: Rgb) {
    c.r < 128 && c.g < 128 && c.b < 128
  }

  /** The shades that a pushed hue is stored in: `keep` is the sent level whose double is the bright one. */
  function Shade(c: Rgb, level: byte, keep: byte, bright: Rgb, dim: Rgb): Rgb
    requires IsSent(c)
  {
    if level == keep then Rgb(2 * c.r, 2 * c.g, 2 * c.b) else if level > 64 then bright else dim
  }

  function AsStored(c: Rgb): Rgb {
    Adjusted(Rgb(FromSysEx(c.r), FromSysEx(c.g), FromSysEx(c.b)))
  }

  /** The hues of one component: a level above 64 is bright, any other one dim; 24 is stored as it is. */
  lemma PureHues(v: byte)
    requires 0 < v < 128
    ensures AsStored(Rgb(v, 0, 0)) == if v == 24 then RED else if v > 64 then RED else RED_DIM
    ensures AsStored(Rgb(0, v, 0)) == if v == 24 then GREEN else if v > 64 then GREEN else GREEN_DIM
    ensures AsStored(Rgb(0, 0, v)) == if v == 24 then BLUE else if v > 64 then BLUE else BLUE_DIM
    ensures AsStored(Rgb(0, 0, 0)) == OFF
  {
  }

  /** Two components: cyan, pink, and the three hues between red and green, by the ratio of the two. */
  lemma MixedHues(x: byte, y: byte)
    requires 0 < x < 128 && 0 < y < 128
    ensures AsStored(Rgb(0, x, y)) == Shade(Rgb(0, x, y), x, 15, CYAN, CYAN_DIM)
    ensures AsStored(Rgb(x, 0, y)) == Shade(Rgb(x, 0, y), x, 18, PINK, PINK_DIM)
    ensures AsStored(Rgb(x, y, 0)) ==
            if x < y then Shade(Rgb(x, y, 0), y, 16, CHARTREUSE, CHARTREUSE_DIM)
            else if x < 2 * y then Shade(Rgb(x, y, 0), x, 16, YELLOW, YELLOW_DIM)
            else Shade(Rgb(x, y, 0), x, 20, ORANGE, ORANGE_DIM)
  {
  }

  /** Three components: white from green 19 on, lavender below. */
  lemma PaleHues(c: Rgb)
    requires IsSent(c) && c.r > 0 && c.g > 0 && c.b > 0
    ensures AsStored(c) ==
            if c.g >= 19 then WHITE
            else if c.b == 16 then Rgb(2 * c.r, 2 * c.g, 32)
            else if c.r > 64 then LAVENDER else LAVENDER_DIM
  {
  }

  // ----- Colour tables

  /** The triple of a table that starts at index `i`. */
  function At(t: seq<byte>, i: nat): Rgb
    requires i + 2 < |t|
  {
    Rgb(t[i], t[i + 1], t[i + 2])
  }

  function Component(c: Rgb, k: int): byte {
    if k == 0 then c.r else if k == 1 then c.g else c.b
  }

  /** A length rounded up to whole triples. */
  function WholeTriples(n: nat): nat {
    (n + 2) / 3 * 3
  }

  /** The table with the triple at `i` replaced. */
  function Painted(t: seq<byte>, i: nat, c: Rgb): seq<byte>
    requires i + 2 < |t|
  {
    t[i := c.r][i + 1 := c.g][i + 2 := c.b]
  }

  /** The table with `f` applied to the triples that the bytes `from..limit` touch. */
  function Mapped(t: seq<byte>, from: nat, limit: nat, f: Rgb -> Rgb): (r: seq<byte>)
    requires from <= limit && from + WholeTriples(limit - from) <= |t|
    ensures |r| == |t|
    ensures forall i :: 0 <= i < from ==> r[i] == t[i]
    ensures forall i :: from + WholeTriples(limit - from) <= i < |t| ==> r[i] == t[i]
    decreases |t|, limit - from
  {
    if from >= limit then t
    else
      var c := f(At(t, from));
      var t' := Painted(t, from, c);
      if from + 3 >= limit then t' else Mapped(t', from + 3, limit, f)
  }

  /** Every triple in the range is the image of the triple that was there. */
  lemma {:induction false} MappedTriple(t: seq<byte>, from: nat, limit: nat, f: Rgb -> Rgb, q: nat)
    requires from + 3 * q < limit && from + WholeTriples(limit - from) <= |t|
    ensures At(Mapped(t, from, limit, f), from + 3 * q) == f(At(t, from + 3 * q))
    decreases q
  {
    var c := f(At(t, from));
    var t' := Painted(t, from, c);
    if q == 0 {
    } else {
      MappedTriple(t', from + 3, limit, f, q - 1);
    }
  }

  lemma MappedNext(t: seq<byte>, at: nat, limit: nat, f: Rgb -> Rgb)
    requires at < limit && at + WholeTriples(limit - at) <= |t|
    ensures var t' := Painted(t, at, f(At(t, at)));
            Mapped(t, at, limit, f) == if at + 3 < limit then Mapped(t', at + 3, limit, f) else t'
  {
  }

  method Paint(table: array<byte>, at: nat, c: Rgb)
    requires at + 3 <= table.Length
    modifies table
    ensures table[..] == Painted(old(table[..]), at, c)
  {
    table[at], table[at + 1], table[at + 2] := c.r, c.g, c.b;
  }

  /** The loop of `adjust_*_bank_leds_for_power`, in place, with `f` for the colour classification in its body. */
  method MapTriples(table: array<byte>, from: nat, size: nat, f: Rgb -> Rgb)
    requires from + WholeTriples(size) <= table.Length
    modifies table
    ensures table[..] == Mapped(old(table[..]), from, from + size, f)
  {
    ghost var limit := from + size;
    var at := from;
    while at < from + size
      invariant at < limit ==> at + WholeTriples(limit - at) <= table.Length
      invariant Mapped(old(table[..]), from, limit, f) ==
                if at < limit then Mapped(table[..], at, limit, f) else table[..]
    {
      MappedNext(table[..], at, limit, f);
      Paint(table, at, f(Rgb(table[at], table[at + 1], table[at + 2])));
      at := at + 3;
    }
  }
}
