/** Reading a journal back one record at a time, from the start or from a
    saved position, with sequence and chain recomputed on the way. */
module Reader {
  import opened Bytes
  import opened Checkpoints
  import opened Journal

  datatype Record = Record(at: nat, kind: Bytes, json: Json, line: Bytes, chainBefore: Digest) {
    predicate IsCheckpoint() { kind == CHECKPOINT_KIND }
  }

  datatype ReadError = Unparseable(at: nat) | Gap(expected: nat, found: nat) | TornTail(after: nat, bytes: nat)

  /** What one `next` returns: nothing more, a record, or a final error. */
  datatype Item = End | Got(record: Record) | Broken(error: ReadError)

  datatype Position = Position(nextSeq: nat, offset: nat, chain: Digest)

  /** Where a reader stands after the first `i` lines. */
  function PositionAt(env: Env, lines: seq<Bytes>, i: nat): Position
    requires i <= |lines|
  {
    Position(i + 1, |Flat(lines[..i])|, ChainOf(env.sha, lines[..i]))
  }

  /** What the reader makes of line `i`. */
  function Judge(env: Env, lines: seq<Bytes>, i: nat): (item: Item)
    requires i < |lines|
    ensures !item.End?
  {
    match env.parse(Text(lines[i]))
    case None => Broken(Unparseable(i + 1))
    case Some(json) =>
      if json.at.None? || json.kind.None? then Broken(Unparseable(i + 1))
      else if json.at.value != i + 1 then Broken(Gap(i + 1, json.at.value))
      else Got(Record(i + 1, json.kind.value, json, lines[i], ChainOf(env.sha, lines[..i])))
  }

  /** The item after the first `i` lines of a file: a judged line, then the
      end of the file or the torn tail. */
  function ItemAt(env: Env, contents: Bytes, i: nat): Item
    requires i <= |Lines(contents)|
  {
    if i < |Lines(contents)| then Judge(env, Lines(contents), i)
    else if Tail(contents) == [] then End
    else Broken(TornTail(i, |Tail(contents)|))
  }

  /** The bytes from the i-th line boundary on start with line `i`, or are the tail. */
  lemma AtBoundary(contents: Bytes, i: nat)
    requires i <= |Lines(contents)|
    ensures var lines := Lines(contents); var offset := |Flat(lines[..i])|;
      && offset <= |contents|
      && (i < |lines| ==>
           var n := LineEnd(contents[offset..]);
           n == |lines[i]| > 0 && contents[offset..][..n] == lines[i] && lines[i][n - 1] == NL &&
           |Flat(lines[..i + 1])| == offset + n)
      && (i == |lines| ==> contents[offset..] == Tail(contents) && NL !in Tail(contents))
  {
    LinesCut(contents);
    var lines, tail := Lines(contents), Tail(contents);
    hide Lines, Tail, Flat, LineEnd;
    FlatSplit(lines, i);
    var offset, rest := |Flat(lines[..i])|, Flat(lines[i..]) + tail;
    assert contents == Flat(lines[..i]) + rest;
    assert contents[offset..] == rest;
    if i < |lines| {
      FlatCons(lines[i], lines[i + 1..]);
      assert lines[i..] == [lines[i]] + lines[i + 1..];
      var after := Flat(lines[i + 1..]) + tail;
      assert rest == lines[i] + after;
      LineEndAt(lines[i], after);
      FlatPush(lines[..i], lines[i]);
      assert lines[..i + 1] == lines[..i] + [lines[i]];
    } else {
      NoLines(lines[i..]);
    }
  }

  lemma NoLines(lines: seq<Bytes>)
    requires lines == []
    ensures Flat(lines) == []
  {
  }

  lemma ChainStep(sha: Hash, lines: seq<Bytes>, i: nat)
    requires i < |lines|
    ensures ChainOf(sha, lines[..i + 1]) == Extend(sha, ChainOf(sha, lines[..i]), lines[i])
  {
    assert lines[..i + 1][..i] == lines[..i];
  }

  /** What the reader says of a line: the record is that line, under its number and
      with the chain before it, exactly if it carries a kind and that number; a gap
      names the number that was due and the one that is there; and a line without a
      number or a kind is unreadable. */
  lemma JudgeMeans(env: Env, lines: seq<Bytes>, i: nat)
    requires i < |lines|
    ensures var item, json := Judge(env, lines, i), env.parse(Text(lines[i]));
      var plain := json.Some? && json.value.at.Some? && json.value.kind.Some?;
      && (item.Got? <==> plain && json.value.at == Some(i + 1))
      && (item.Got? ==> item.record.at == i + 1 && Some(item.record.kind) == json.value.kind)
      && (item.Got? ==> item.record.line == lines[i] && item.record.chainBefore == ChainOf(env.sha, lines[..i]))
      && (forall due, found :: item == Broken(Gap(due, found)) <==>
           plain && due == i + 1 != found && json.value.at == Some(found))
      && (forall at :: item == Broken(Unparseable(at)) <==> at == i + 1 && !plain)
  {
    hide ChainOf, Text;
  }

  /** A reader is at the end exactly if its lines are the whole file; a torn tail
      names the last number and what is left of the file. */
  lemma {:induction false} EndMeans(env: Env, contents: Bytes, i: nat)
    requires i <= |Lines(contents)|
    ensures var lines, item := Lines(contents), ItemAt(env, contents, i);
      && (item.End? <==> contents == Flat(lines[..i]))
      && (item.Broken? && item.error.TornTail? <==> i == |lines| && |contents| > |Flat(lines)|)
      && (item.Broken? && item.error.TornTail? ==>
           item.error.after == |lines| && item.error.bytes == |contents| - |Flat(lines)|)
  {
    LinesCut(contents);
    AtBoundary(contents, i);
    hide Lines, Tail, Flat, LineEnd, ChainOf, Text;
    assert Lines(contents)[..|Lines(contents)|] == Lines(contents);
  }

  class JournalReader {
    const env: Env
    const contents: Bytes
    var expected: nat
    var offset: nat
    var chain: Digest
    var done: bool
    /** How many lines of the file lie before the reader. */
    ghost var read: nat

    function Here(): Position reads this { Position(expected, offset, chain) }

    ghost predicate Valid() reads this {
      read <= |Lines(contents)| && Here() == PositionAt(env, Lines(contents), read)
    }

    constructor Open(env: Env, contents: Bytes)
      ensures Valid() && this.env == env && this.contents == contents && read == 0 && !done
    {
      this.env, this.contents := env, contents;
      expected, offset, chain, done := 1, 0, Genesis(env.sha), false;
      read := 0;
    }

    constructor At(env: Env, contents: Bytes, position: Position, ghost after: nat)
      ensures this.env == env && this.contents == contents && Here() == position && read == after && !done
    {
      this.env, this.contents := env, contents;
      expected, offset, chain, done := position.nextSeq, position.offset, position.chain, false;
      read := after;
    }

    /** `resume`: refused (null) exactly if the file is shorter than the offset;
        at a position some reader of this file stood at, it stands there again. */
    static method Resume(env: Env, contents: Bytes, position: Position, ghost after: nat)
      returns (reader: JournalReader?)
      ensures reader == null <==> |contents| < position.offset
      ensures reader != null ==>
        fresh(reader) && reader.env == env && reader.contents == contents && reader.Here() == position &&
        reader.read == after && !reader.done
      ensures after <= |Lines(contents)| && position == PositionAt(env, Lines(contents), after) ==>
        reader != null && reader.Valid()
    {
      if after <= |Lines(contents)| { AtBoundary(contents, after); }
      if |contents| < position.offset { return null; }
      reader := new JournalReader.At(env, contents, position, after);
    }

    /** `next`: the item the file holds here; every error is final. */
    method Next() returns (item: Item)
      requires Valid()
      modifies this
      ensures Valid()
      ensures item == if old(done) then End else ItemAt(env, contents, old(read))
      ensures read == (if item.Got? then old(read) + 1 else old(read)) && done == !item.Got?
    {
      hide Lines, Tail, Flat, LineEnd, Text, ChainOf, IsLine;
      if done { return End; }
      AtBoundary(contents, read);
      var rest := contents[offset..];
      var n := LineEnd(rest);
      if n == 0 {
        done := true;
        return End;
      }
      var line := rest[..n];
      if line[n - 1] != NL {
        done := true;
        return Broken(TornTail(expected - 1, n));
      }
      var parsed := env.parse(Text(line));
      if parsed.None? || parsed.value.at.None? || parsed.value.kind.None? {
        done := true;
        return Broken(Unparseable(expected));
      }
      if parsed.value.at.value != expected {
        done := true;
        return Broken(Gap(expected, parsed.value.at.value));
      }
      item := Got(Record(expected, parsed.value.kind.value, parsed.value, line, chain));
      ChainStep(env.sha, Lines(contents), read);
      chain := Extend(env.sha, chain, line);
      expected, offset := expected + 1, offset + n;
      read := read + 1;
    }
  }

  // ---- Reading in pieces -----------------------------------------------------------

  /** How many of the lines from `i` on a reader accepts before it stops. */
  function GoodFrom(env: Env, contents: Bytes, i: nat): (j: nat)
    requires i <= |Lines(contents)|
    ensures i <= j <= |Lines(contents)| && !ItemAt(env, contents, j).Got?
    ensures forall k :: i <= k < j ==> Judge(env, Lines(contents), k).Got?
    decreases |Lines(contents)| - i
  {
    if ItemAt(env, contents, i).Got? then GoodFrom(env, contents, i + 1) else i
  }

  /** A file that has only grown since looks the same to a reader of its
      first whole lines: same positions, same records. */
  lemma GrownFile(env: Env, contents: Bytes, grown: Bytes, i: nat)
    requires contents <= grown && i <= |Lines(contents)|
    ensures Lines(contents) <= Lines(grown)
    ensures PositionAt(env, Lines(grown), i) == PositionAt(env, Lines(contents), i)
    ensures i < |Lines(contents)| ==> ItemAt(env, grown, i) == ItemAt(env, contents, i)
  {
    LinesPrefix(contents, grown);
    hide Lines, Tail, Flat;
    var a, b := Lines(contents), Lines(grown);
    assert b[..i] == a[..i];
  }

  lemma LinesPrefix(contents: Bytes, grown: Bytes)
    requires contents <= grown
    ensures Lines(contents) <= Lines(grown)
  {
    LinesCut(contents);
    LinesCut(grown);
    var b, tail := Lines(grown), Tail(grown);
    hide Lines, Tail, LineEnd;
    var j, rest := CutPrefix(b, tail, |contents|);
    assert (Flat(b) + tail)[..|contents|] == contents;
    CutUnique(contents, b[..j], rest);
  }
}
