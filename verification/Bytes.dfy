/** Bytes, optional values, and the cut of a byte string into complete lines
    and a partial last line, which is how the journal is read back. */
module Bytes {

  datatype Option<+T> = None | Some(value: T)

  newtype byte = x: int | 0 <= x < 256

  type Bytes = seq<byte>

  const NL: byte := 10
  const U64_MAX: nat := 0xFFFF_FFFF_FFFF_FFFF

  /** One complete line: a newline at the end and nowhere else. */
  predicate IsLine(line: Bytes) {
    |line| > 0 && line[|line| - 1] == NL && NL !in line[..|line| - 1]
  }

  predicate AllLines(lines: seq<Bytes>) {
    forall i :: 0 <= i < |lines| ==> IsLine(lines[i])
  }

  function Flat(lines: seq<Bytes>): Bytes {
    if lines == [] then [] else Flat(lines[..|lines| - 1]) + lines[|lines| - 1]
  }

  /** `bytes` is the lines of `lines` followed by a newline-free `tail`. */
  ghost predicate Cut(bytes: Bytes, lines: seq<Bytes>, tail: Bytes) {
    bytes == Flat(lines) + tail && AllLines(lines) && NL !in tail
  }

  /** How many bytes one `read_until(b'\n')` consumes. */
  function LineEnd(bytes: Bytes): (n: nat)
    ensures n <= |bytes| && (n == 0 <==> bytes == [])
    ensures n > 0 ==> NL !in bytes[..n - 1]
    ensures n > 0 && bytes[n - 1] == NL ==> IsLine(bytes[..n])
    ensures n > 0 && bytes[n - 1] != NL ==> n == |bytes| && NL !in bytes
  {
    if bytes == [] then 0
    else if bytes[0] == NL then 1
    else
      var rest := LineEnd(bytes[1..]);
      assert forall i :: 0 < i < |bytes| ==> bytes[i] == bytes[1..][i - 1];
      1 + rest
  }

  /** The complete lines of a byte string, and what follows the last newline. */
  function Lines(bytes: Bytes): seq<Bytes>
    decreases |bytes|
  {
    var n := LineEnd(bytes);
    if n == 0 || bytes[n - 1] != NL then [] else [bytes[..n]] + Lines(bytes[n..])
  }

  function Tail(bytes: Bytes): Bytes
    decreases |bytes|
  {
    var n := LineEnd(bytes);
    if n == 0 || bytes[n - 1] != NL then bytes else Tail(bytes[n..])
  }

  lemma Associative<T>(a: seq<T>, b: seq<T>, c: seq<T>)
    ensures a + (b + c) == a + b + c
  {
  }

  lemma {:induction false} FlatConcat(a: seq<Bytes>, b: seq<Bytes>)
    ensures Flat(a + b) == Flat(a) + Flat(b)
    decreases |b|
  {
    if b == [] {
      assert a + b == a;
    } else {
      var init, last := b[..|b| - 1], b[|b| - 1];
      FlatConcat(a, init);
      assert (a + b)[..|a + b| - 1] == a + init;
      assert Flat(a) + (Flat(init) + last) == Flat(a) + Flat(init) + last;
    }
  }

  lemma FlatPush(lines: seq<Bytes>, line: Bytes)
    ensures Flat(lines + [line]) == Flat(lines) + line
  {
    assert (lines + [line])[..|lines|] == lines;
  }

  lemma FlatOne(line: Bytes)
    ensures Flat([line]) == line
  {
    FlatPush([], line);
    assert [] + [line] == [line] && [] + line == line;
  }

  lemma FlatCons(line: Bytes, lines: seq<Bytes>)
    ensures Flat([line] + lines) == line + Flat(lines)
  {
    FlatConcat([line], lines);
    FlatOne(line);
  }

  lemma FlatSplit(lines: seq<Bytes>, k: nat)
    requires k <= |lines|
    ensures Flat(lines) == Flat(lines[..k]) + Flat(lines[k..])
  {
    assert lines == lines[..k] + lines[k..];
    FlatConcat(lines[..k], lines[k..]);
  }

  lemma CutCons(line: Bytes, rest: Bytes, lines: seq<Bytes>, tail: Bytes)
    requires IsLine(line)
    requires Cut(rest, lines, tail)
    ensures Cut(line + rest, [line] + lines, tail)
  {
    hide IsLine, Flat;
    FlatCons(line, lines);
    assert line + (Flat(lines) + tail) == line + Flat(lines) + tail;
  }

  /** Reading a line that is there reads exactly it. */
  lemma {:induction false} LineEndAt(line: Bytes, rest: Bytes)
    requires IsLine(line)
    ensures LineEnd(line + rest) == |line|
    decreases |line|
  {
    var all := line + rest;
    if |line| > 1 {
      assert line[0] == line[..|line| - 1][0];
      assert line[1..][..|line| - 2] == line[..|line| - 1][1..];
      LineEndAt(line[1..], rest);
      assert all[1..] == line[1..] + rest;
    }
  }

  /** Every byte string has a cut: `Lines` and `Tail` give it. */
  lemma {:induction false} LinesCut(bytes: Bytes)
    ensures Cut(bytes, Lines(bytes), Tail(bytes))
    decreases |bytes|
  {
    hide LineEnd, IsLine;
    var n := LineEnd(bytes);
    if n != 0 && bytes[n - 1] == NL {
      LinesCut(bytes[n..]);
      CutCons(bytes[..n], bytes[n..], Lines(bytes[n..]), Tail(bytes[n..]));
      assert bytes == bytes[..n] + bytes[n..];
    }
  }

  /** ... and only one. */
  lemma {:induction false} CutUnique(bytes: Bytes, lines: seq<Bytes>, tail: Bytes)
    requires Cut(bytes, lines, tail)
    ensures lines == Lines(bytes) && tail == Tail(bytes)
    decreases |lines|
  {
    hide LineEnd, IsLine;
    if lines == [] {
      assert bytes == tail;
    } else {
      var first, rest := lines[0], lines[1..];
      var after := Flat(rest) + tail;
      assert lines == [first] + rest;
      FlatCons(first, rest);
      assert bytes == first + after;
      LineEndAt(first, after);
      assert bytes[..|first|] == first && bytes[|first|..] == after;
      LineEnds(bytes, first);
      CutUnique(after, rest, tail);
      assert Lines(bytes) == [first] + Lines(after) && Tail(bytes) == Tail(after);
    }
  }

  lemma LineEnds(bytes: Bytes, line: Bytes)
    requires IsLine(line) && line <= bytes
    ensures |line| > 0 && bytes[|line| - 1] == NL
  {
  }

  /** Keeping any prefix of a cut byte string keeps whole lines plus a
      newline-free rest, which is itself a prefix of the next line. */
  lemma {:induction false} CutPrefix(lines: seq<Bytes>, tail: Bytes, k: nat) returns (j: nat, rest: Bytes)
    requires AllLines(lines) && NL !in tail && k <= |Flat(lines) + tail|
    ensures j <= |lines| && Cut((Flat(lines) + tail)[..k], lines[..j], rest)
    ensures j < |lines| ==> rest < lines[j]
    ensures j == |lines| ==> rest <= tail
    ensures forall m :: 0 <= m <= |lines| && |Flat(lines[..m])| <= k ==> m <= j
    decreases |lines|
  {
    var all := Flat(lines) + tail;
    assert lines[..|lines|] == lines;
    if k >= |Flat(lines)| {
      j, rest := |lines|, tail[..k - |Flat(lines)|];
    } else {
      var init, last := lines[..|lines| - 1], lines[|lines| - 1];
      assert Flat(lines) == Flat(init) + last;
      if k >= |Flat(init)| {
        j, rest := |init|, last[..k - |Flat(init)|];
        assert rest == last[..|last| - 1][..|rest|];
        assert all[..k] == Flat(init) + rest;
      } else {
        assert init[..|init|] == init;
        j, rest := CutPrefix(init, [], k);
        assert (Flat(init) + [])[..k] == all[..k];
        assert init[..j] == lines[..j];
        assert forall m :: 0 <= m <= |init| ==> init[..m] == lines[..m];
      }
    }
  }
}
