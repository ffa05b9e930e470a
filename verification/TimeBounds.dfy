/** Time intervals in signed 128-bit nanoseconds: the partition planner, and
    the decimal form of an instant with its parser. */
module TimeBounds {
  import opened Bytes
  import opened Decimal

  const I128_MAX: int := 0x7FFF_FFFF_FFFF_FFFF_FFFF_FFFF_FFFF_FFFF
  const I128_MIN: int := -0x8000_0000_0000_0000_0000_0000_0000_0000
  const USIZE_MAX: nat := 0xFFFF_FFFF_FFFF_FFFF

  predicate I128(x: int) { I128_MIN <= x <= I128_MAX }

  // ---- Partitions ------------------------------------------------------------------

  datatype Interval = Interval(start: int, end: int)

  datatype Plan = Planned(parts: seq<Interval>) | WidthOverflow

  /** Consecutive non-empty half-open intervals from `start` to `end`. */
  predicate Tiles(parts: seq<Interval>, start: int, end: int) {
    if parts == [] then start == end
    else
      var n := |parts| - 1;
      Tiles(parts[..n], start, parts[n].start) && parts[n].start < parts[n].end == end
  }

  predicate Inside(i: Interval, t: int) { i.start <= t < i.end }

  /** `try_half_open_partitions`. The asserted range is what the source's
      `expect` relies on at every step. */
  method TryPartitions(start: int, end: int, requested: nat) returns (plan: Plan)
    requires I128(start) && I128(end) && requested <= USIZE_MAX
    ensures plan.WidthOverflow? <==> start < end && requested > 0 && end - start > I128_MAX
    ensures plan.Planned? && (start >= end || requested == 0) ==> plan.parts == []
    ensures plan.Planned? && start < end && requested > 0 ==>
      Tiles(plan.parts, start, end) && |plan.parts| == (if requested < end - start then requested else end - start) &&
      forall i, j :: 0 <= i < |plan.parts| && 0 <= j < |plan.parts| ==> Width(plan.parts[i]) <= Width(plan.parts[j]) + 1
  {
    if start >= end || requested == 0 { return Planned([]); }
    var width := end - start;
    if width > I128_MAX { return WidthOverflow; }
    var count := if requested < width then requested else width;
    var base, remainder := width / count, width % count;
    var cursor := start;
    var parts: seq<Interval> := [];
    hide Cursor;
    CursorEnds(start, end, count);
    for i := 0 to count
      invariant |parts| == i && Tiles(parts, start, cursor)
      invariant cursor == Cursor(start, base, remainder, i)
      invariant forall k :: 0 <= k < i ==> base <= Width(parts[k]) <= base + 1
    {
      CursorSteps(start, base, remainder, i, count);
      assert I128(cursor + base);
      var next := cursor + base + if i < remainder then 1 else 0;
      assert I128(next);
      var interval := Interval(cursor, next);
      assert (parts + [interval])[..i] == parts;
      parts := parts + [interval];
      cursor := next;
    }
    plan := Planned(parts);
  }

  function Width(i: Interval): int { i.end - i.start }

  /** Where the first `i` partitions end. */
  function Cursor(start: int, base: int, remainder: int, i: nat): int {
    if i == 0 then start else Cursor(start, base, remainder, i - 1) + base + if i - 1 < remainder then 1 else 0
  }

  lemma {:induction false} CursorClosed(start: int, base: int, remainder: int, i: nat)
    requires remainder >= 0
    ensures Cursor(start, base, remainder, i) == start + i * base + if i < remainder then i else remainder
  {
    if i > 0 {
      CursorClosed(start, base, remainder, i - 1);
      assert i * base == (i - 1) * base + base;
    }
  }

  lemma CursorEnds(start: int, end: int, count: int)
    requires 0 < count <= end - start
    ensures var base, remainder := (end - start) / count, (end - start) % count;
      base >= 1 && 0 <= remainder && Cursor(start, base, remainder, 0) == start &&
      Cursor(start, base, remainder, count) == end
  {
    var width := end - start;
    assert width == count * (width / count) + width % count;
    assert width / count >= 1;
    CursorClosed(start, width / count, width % count, count);
  }

  /** One step forward, never past where the last partition ends. */
  lemma {:induction false} CursorSteps(start: int, base: int, remainder: int, i: nat, count: nat)
    requires base >= 0 && i < count
    ensures Cursor(start, base, remainder, i + 1) ==
      Cursor(start, base, remainder, i) + base + if i < remainder then 1 else 0
    ensures start <= Cursor(start, base, remainder, i)
    ensures Cursor(start, base, remainder, i + 1) <= Cursor(start, base, remainder, count)
    decreases count
  {
    if i + 1 < count {
      CursorSteps(start, base, remainder, i, count - 1);
    } else if i > 0 {
      CursorSteps(start, base, remainder, i - 1, i);
    }
  }

  /** Every instant of the interval lies in exactly one partition, and no
      instant outside it lies in any. */
  lemma {:induction false} EachInstantOnce(parts: seq<Interval>, start: int, end: int, t: int)
    requires Tiles(parts, start, end)
    ensures start <= end
    ensures start <= t < end ==> exists i :: 0 <= i < |parts| && Inside(parts[i], t)
    ensures forall i :: 0 <= i < |parts| && Inside(parts[i], t) ==> start <= t < end
    ensures forall i, j :: 0 <= i < |parts| && 0 <= j < |parts| && Inside(parts[i], t) && Inside(parts[j], t) ==> i == j
    decreases |parts|
  {
    if parts != [] {
      var n := |parts| - 1;
      EachInstantOnce(parts[..n], start, parts[n].start, t);
      assert forall i :: 0 <= i < n ==> parts[..n][i] == parts[i];
      if parts[n].start <= t < end { assert Inside(parts[n], t); }
      if start <= t < parts[n].start {
        var i :| 0 <= i < n && Inside(parts[..n][i], t);
        assert Inside(parts[i], t);
      }
    }
  }

  // ---- Instants as decimal seconds ----------------------------------------------------

  const MINUS: byte := 45
  const DOT: byte := 46
  const NANOS: nat := 1_000_000_000

  lemma NanosPower()
    ensures Pow10(9) == NANOS
  {
    Pow10Add(3, 3);
    Pow10Add(6, 3);
    assert Pow10(3) == 1000;
  }

  lemma Scaled(v: nat, a: nat, b: nat)
    requires v < a && b >= 1
    ensures v * b < a * b
  {
  }

  /** `splunk_epoch_seconds`. */
  function Print(ns: int): Bytes {
    var magnitude := if ns < 0 then -ns else ns;
    (if ns < 0 then [MINUS] else []) + Digits(magnitude / NANOS) + [DOT] + Padded(magnitude % NANOS, 9)
  }

  function FindDot(s: Bytes): (i: nat)
    ensures i <= |s| && DOT !in s[..i] && (i < |s| ==> s[i] == DOT)
  {
    if s == [] || s[0] == DOT then 0
    else
      var rest := FindDot(s[1..]);
      assert s[..1 + rest] == [s[0]] + s[1..][..rest];
      1 + rest
  }

  function TrimMinus(s: Bytes): Bytes {
    if s != [] && s[0] == MINUS then TrimMinus(s[1..]) else s
  }

  /** `str::parse::<i128>` on text made of minus signs and digits. */
  function ParseI128(s: Bytes): Option<int> {
    var negative := s != [] && s[0] == MINUS;
    var digits := if negative then s[1..] else s;
    if digits == [] || !AllDigits(digits) then None
    else
      Checked(Signed(negative, Value(digits)))
  }

  function Signed(negative: bool, magnitude: nat): int { if negative then -(magnitude as int) else magnitude }

  function Checked(x: int): Option<int> { if I128(x) then Some(x) else None }

  /** The numeric branch of `parse_splunk_bound_ns`. */
  function ParseNumeric(s: Bytes): Option<int> {
    var dot := FindDot(s);
    var whole := s[..dot];
    var fraction := if dot < |s| then s[dot + 1..] else [];
    if whole == [] || |fraction| > 9 || !AllDigits(TrimMinus(whole)) || !AllDigits(fraction) then None
    else
      match ParseI128(whole)
      case None => None
      case Some(seconds) =>
        var nanos := if fraction == [] then 0 else Value(fraction) * Pow10(9 - |fraction|);
        (match Checked(seconds * NANOS)
         case None => None
         case Some(product) => Checked(product + if s[0] == MINUS then -nanos else nanos))
  }

  /** The text of a sign, whole seconds and up to nine fraction digits. */
  function Text(negative: bool, whole: Bytes, fraction: Bytes): Bytes {
    (if negative then [MINUS] else []) + whole + [DOT] + fraction
  }

  /** The instant that text denotes. */
  function Denoted(negative: bool, whole: Bytes, fraction: Bytes): int
    requires AllDigits(whole) && AllDigits(fraction) && |fraction| <= 9
  {
    Signed(negative, Value(whole) * NANOS + Value(fraction) * Pow10(9 - |fraction|))
  }

  lemma {:induction false} DotFoundAt(s: Bytes, i: nat)
    requires i < |s| && s[i] == DOT && DOT !in s[..i]
    ensures FindDot(s) == i
    decreases i
  {
    if i > 0 {
      assert s[0] == s[..i][0];
      assert s[1..][..i - 1] == s[..i][1..];
      DotFoundAt(s[1..], i - 1);
    }
  }

  lemma {:induction false} ValueBelow(s: Bytes)
    requires AllDigits(s)
    ensures Value(s) < Pow10(|s|)
  {
    if s != [] { ValueBelow(s[..|s| - 1]); }
  }

  lemma FractionBelow(fraction: Bytes)
    requires AllDigits(fraction) && |fraction| <= 9
    ensures 0 <= Value(fraction) * Pow10(9 - |fraction|) < NANOS
  {
    hide Value;
    ValueBelow(fraction);
    Pow10Add(|fraction|, 9 - |fraction|);
    NanosPower();
    hide Pow10;
    Scaled(Value(fraction), Pow10(|fraction|), Pow10(9 - |fraction|));
  }

  /** The parser cuts a well-formed text where it was put together. */
  lemma TextCut(negative: bool, whole: Bytes, fraction: Bytes)
    requires whole != [] && AllDigits(whole) && AllDigits(fraction)
    ensures var s := Text(negative, whole, fraction); var dot := FindDot(s);
      dot < |s| && s[..dot] == (if negative then [MINUS] else []) + whole && s[dot + 1..] == fraction &&
      TrimMinus(s[..dot]) == whole && (s[0] == MINUS <==> negative)
  {
    var s := Text(negative, whole, fraction);
    var signed := (if negative then [MINUS] else []) + whole;
    assert s == signed + [DOT] + fraction;
    assert s[..|signed|] == signed;
    DotFoundAt(s, |signed|);
    assert TrimMinus(whole) == whole;
    if negative { assert signed[1..] == whole && TrimMinus(signed) == TrimMinus(whole); }
    assert IsDigit(whole[0]);
  }

  lemma ParseWhole(negative: bool, whole: Bytes)
    requires whole != [] && AllDigits(whole)
    ensures ParseI128((if negative then [MINUS] else []) + whole) ==
      Checked(Signed(negative, Value(whole)))
  {
    var signed := (if negative then [MINUS] else []) + whole;
    assert IsDigit(whole[0]);
    if negative {
      assert signed[1..] == whole;
    } else {
      assert signed == whole;
    }
  }

  /** The parser is exact on every sign, whole part and fraction of at most
      nine digits: it returns the denoted instant when that fits 128 bits, and
      refuses it otherwise; no intermediate step overflows first. */
  lemma ParseIsExact(negative: bool, whole: Bytes, fraction: Bytes)
    requires whole != [] && AllDigits(whole) && AllDigits(fraction) && |fraction| <= 9
    ensures ParseNumeric(Text(negative, whole, fraction)) == Checked(Denoted(negative, whole, fraction))
  {
    hide FindDot, TrimMinus, ParseI128, Value, Pow10, Text;
    TextCut(negative, whole, fraction);
    ParseWhole(negative, whole);
    FractionBelow(fraction);
    EmptyValue(fraction);
    var nanos := Value(fraction) * Pow10(9 - |fraction|);
    ChecksAgree(negative, Value(whole), nanos);
  }

  function SignedText(negative: bool, whole: Bytes): Bytes { (if negative then [MINUS] else []) + whole }

  /** The parser takes a text without a dot as its whole part. */
  lemma WholeCut(negative: bool, whole: Bytes)
    requires whole != [] && AllDigits(whole)
    ensures var s := SignedText(negative, whole);
      FindDot(s) == |s| && s[..|s|] == s && s != [] && TrimMinus(s) == whole && (s[0] == MINUS <==> negative)
  {
    var s := SignedText(negative, whole);
    assert IsDigit(whole[0]) && DOT !in s;
    NoDotFound(s);
    assert TrimMinus(whole) == whole;
    if negative { assert s[1..] == whole && TrimMinus(s) == TrimMinus(whole); }
  }

  /** The same for texts without a dot. */
  lemma ParseWholeIsExact(negative: bool, whole: Bytes)
    requires whole != [] && AllDigits(whole)
    ensures ParseNumeric(SignedText(negative, whole)) == Checked(Signed(negative, Value(whole) * NANOS))
  {
    hide FindDot, TrimMinus, ParseI128, Value;
    WholeCut(negative, whole);
    ParseWhole(negative, whole);
    ChecksAgree(negative, Value(whole), 0);
  }

  lemma {:induction false} NoDotFound(s: Bytes)
    requires DOT !in s
    ensures FindDot(s) == |s|
  {
    if s != [] { NoDotFound(s[1..]); }
  }

  function FractionAfter(s: Bytes, dot: nat): Bytes
    requires dot <= |s|
  {
    if dot < |s| then s[dot + 1..] else []
  }

  lemma AcceptedParts(s: Bytes)
    requires ParseNumeric(s).Some?
    ensures var dot := FindDot(s);
      s[..dot] != [] && ParseI128(s[..dot]).Some? && AllDigits(FractionAfter(s, dot)) && |FractionAfter(s, dot)| <= 9
  {
    hide FindDot, Value, TrimMinus, ParseI128, Checked;
  }

  /** And these are all: whatever the parser accepts is one of those texts. */
  lemma ParseAcceptsNothingElse(s: Bytes) returns (negative: bool, whole: Bytes, fraction: Bytes)
    requires ParseNumeric(s).Some?
    ensures whole != [] && AllDigits(whole) && AllDigits(fraction) && |fraction| <= 9
    ensures s == Text(negative, whole, fraction) || (fraction == [] && s == SignedText(negative, whole))
  {
    AcceptedParts(s);
    hide ParseNumeric, FindDot, Value, Checked;
    var dot := FindDot(s);
    var signed := s[..dot];
    fraction := FractionAfter(s, dot);
    negative := signed[0] == MINUS;
    whole := if negative then signed[1..] else signed;
    assert signed == SignedText(negative, whole);
    if dot < |s| { assert s == signed + [DOT] + fraction; } else { assert s == signed; }
  }

  lemma EmptyValue(fraction: Bytes)
    requires AllDigits(fraction)
    ensures fraction == [] ==> Value(fraction) == 0
  {
  }

  /** Checking the seconds, the product and the sum is checking the sum. */
  lemma ChecksAgree(negative: bool, whole: nat, nanos: nat)
    requires nanos < NANOS
    ensures I128(Signed(negative, whole * NANOS + nanos)) ==>
      I128(Signed(negative, whole)) && I128(Signed(negative, whole) * NANOS)
    ensures Signed(negative, whole) * NANOS + (if negative then -(nanos as int) else nanos) ==
      Signed(negative, whole * NANOS + nanos)
  {
  }

  /** Printing an instant and parsing it back returns it, for every signed
      128-bit value. */
  lemma RoundTrip(ns: int)
    requires I128(ns)
    ensures ParseNumeric(Print(ns)) == Some(ns)
  {
    var magnitude := if ns < 0 then -ns else ns;
    var whole, nanos := magnitude / NANOS, magnitude % NANOS;
    PrintIsText(ns, whole, nanos);
    DigitsShape(whole);
    DigitsValue(whole);
    PaddedShape(nanos, 9);
    NanosPower();
    hide Digits, Padded, Value, ParseNumeric, Print, Text, Denoted, Pow10;
    ParseIsExact(ns < 0, Digits(whole), Padded(nanos, 9));
    DenotesBack(ns, Digits(whole), Padded(nanos, 9));
  }

  lemma DenotesBack(ns: int, whole: Bytes, fraction: Bytes)
    requires AllDigits(whole) && AllDigits(fraction) && |fraction| == 9
    requires var magnitude := if ns < 0 then -ns else ns;
      Value(whole) == magnitude / NANOS && Value(fraction) == magnitude % NANOS
    ensures Denoted(ns < 0, whole, fraction) == ns
  {
    hide Value;
    assert Pow10(0) == 1;
  }

  lemma PrintIsText(ns: int, whole: nat, nanos: nat)
    requires var magnitude := if ns < 0 then -ns else ns; whole == magnitude / NANOS && nanos == magnitude % NANOS
    ensures Print(ns) == Text(ns < 0, Digits(whole), Padded(nanos, 9))
  {
    hide Digits, Padded;
  }
}
