/** The size-rotated audit log: a current file and numbered archives, the
    highest number oldest. */
module Rotation {
  import opened Bytes

  /** File contents by archive number; 0 is the current file. */
  type Directory<T> = map<nat, seq<T>>

  function FileAt<T>(files: Directory<T>, i: nat): seq<T> { if i in files then files[i] else [] }

  /** The first `n` files, oldest first, as one log. */
  function History<T>(files: Directory<T>, n: nat): seq<T> {
    if n == 0 then [] else FileAt(files, n - 1) + History(files, n - 1)
  }

  /** What one write left: a prefix of a record, all of it and counted in the
      size if the write worked. */
  datatype Piece = Piece(bytes: Bytes, record: Bytes, counted: bool)

  function Joined(pieces: seq<Piece>): Bytes {
    if pieces == [] then [] else Joined(pieces[..|pieces| - 1]) + pieces[|pieces| - 1].bytes
  }

  /** The bytes of a file that its size counter knows of. */
  function Counted(pieces: seq<Piece>): nat {
    if pieces == [] then 0
    else
      var last := pieces[|pieces| - 1];
      Counted(pieces[..|pieces| - 1]) + if last.counted then |last.bytes| else 0
  }

  function Saturated(n: nat): nat { if n > U64_MAX then U64_MAX else n }

  ghost predicate IsSuffix<T>(s: seq<T>, t: seq<T>) { |s| <= |t| && t[|t| - |s|..] == s }

  /** Where a write may fail: in the rotation before it, or after `landed` bytes. */
  datatype Fault = NoFault | Flush | Remove(at: nat) | Rename(at: nat) | Reopen | Write(landed: nat)

  /** The archive a rotation over `n` files gives up: the last, if another moves there. */
  function Evicted<T>(files: Directory<T>, n: nat): set<nat> {
    if n <= 1 then {0} else if n - 2 in files then {n - 1} else {}
  }

  // ---- Histories -----------------------------------------------------------------------

  lemma {:induction false} HistoryFrame<T>(files: Directory<T>, other: Directory<T>, n: nat)
    requires forall i :: 0 <= i < n ==> FileAt(files, i) == FileAt(other, i)
    ensures History(files, n) == History(other, n)
  {
    if n > 0 {
      assert FileAt(files, n - 1) == FileAt(other, n - 1);
      HistoryFrame(files, other, n - 1);
    }
  }

  /** The file below `index` renamed to `index`, over what was there. */
  function Moved<T>(files: Directory<T>, index: nat): Directory<T>
    requires index > 0
  {
    if index - 1 in files then (files - {index - 1})[index := files[index - 1]] else files
  }

  /** Moving a file up into a free number changes no history. */
  lemma {:induction false} HistoryShift<T>(files: Directory<T>, n: nat, i: nat)
    requires 0 < i < n && i - 1 in files && i !in files
    ensures History(Moved(files, i), n) == History(files, n)
    decreases n
  {
    var moved := Moved(files, i);
    assert forall k :: 0 <= k && k != i && k != i - 1 ==> FileAt(moved, k) == FileAt(files, k);
    if i < n - 1 {
      HistoryShift(files, n - 1, i);
    } else {
      assert FileAt(files, i) == [] && FileAt(moved, i) == FileAt(files, i - 1) && FileAt(moved, i - 1) == [];
      hide Moved, FileAt;
      HistoryFrame(files, moved, n - 2);
      HistoryOfTwo(files, n);
      HistoryOfTwo(moved, n);
    }
  }

  lemma HistoryOfTwo<T>(files: Directory<T>, n: nat)
    requires n >= 2
    ensures History(files, n) == FileAt(files, n - 1) + FileAt(files, n - 2) + History(files, n - 2)
  {
    hide FileAt;
    assert History(files, n - 1) == FileAt(files, n - 2) + History(files, n - 2);
    Associative(FileAt(files, n - 1), FileAt(files, n - 2), History(files, n - 2));
  }

  /** The oldest file is the front of the history. */
  lemma {:induction false} HistoryWithoutOldest<T>(files: Directory<T>, n: nat)
    requires n > 0
    ensures History(files, n) == FileAt(files, n - 1) + History(files - {n - 1}, n)
  {
    var rest := files - {n - 1};
    assert FileAt(rest, n - 1) == [];
    assert forall i :: 0 <= i < n - 1 ==> FileAt(files, i) == FileAt(rest, i);
    hide FileAt;
    HistoryFrame(files, rest, n - 1);
  }

  lemma SuffixOf<T>(front: seq<T>, back: seq<T>)
    ensures IsSuffix(back, front + back)
  {
  }

  lemma SuffixTrans<T>(a: seq<T>, b: seq<T>, c: seq<T>)
    requires IsSuffix(a, b) && IsSuffix(b, c)
    ensures IsSuffix(a, c)
  {
    assert c[|c| - |a|..] == c[|c| - |b|..][|b| - |a|..];
  }

  lemma SuffixAppend<T>(a: seq<T>, b: seq<T>, more: seq<T>)
    requires IsSuffix(a, b)
    ensures IsSuffix(a + more, b + more)
  {
  }

  lemma EvictionLeavesSuffix<T>(files: Directory<T>, n: nat)
    requires n > 0
    ensures IsSuffix(History(files - {n - 1}, n), History(files, n))
    ensures IsSuffix(History(files - Evicted(files, n), n), History(files, n))
  {
    HistoryWithoutOldest(files, n);
    SuffixOf(FileAt(files, n - 1), History(files - {n - 1}, n));
    assert files - {} == files;
  }

  /** Nothing is evicted while the last number is free. */
  lemma NothingEvictedWhileRoom<T>(files: Directory<T>, n: nat)
    requires n > 1 && n - 1 !in files
    ensures History(files - Evicted(files, n), n) == History(files, n)
  {
    assert files - {n - 1} == files && files - {} == files;
  }

  /** Something added to the current file ends the log. */
  lemma {:induction false} Appended<T>(files: Directory<T>, n: nat, more: seq<T>)
    requires 0 in files && n > 0
    ensures History(files[0 := files[0] + more], n) == History(files, n) + more
  {
    if n > 1 { Appended(files, n - 1, more); }
  }

  // ---- Pieces and bytes -------------------------------------------------------------------

  lemma {:induction false} JoinedConcat(a: seq<Piece>, b: seq<Piece>)
    ensures Joined(a + b) == Joined(a) + Joined(b)
    decreases |b|
  {
    if b == [] {
      assert a + b == a;
    } else {
      var init, last := b[..|b| - 1], b[|b| - 1];
      JoinedConcat(a, init);
      assert (a + b)[..|a + b| - 1] == a + init;
      Associative(Joined(a), Joined(init), last.bytes);
    }
  }

  /** The pieces account for every byte of every file. */
  ghost predicate Made(files: Directory<byte>, made: Directory<Piece>) {
    files.Keys == made.Keys && forall i :: i in files ==> files[i] == Joined(made[i])
  }

  lemma {:induction false} HistoryJoined(files: Directory<byte>, made: Directory<Piece>, n: nat)
    requires Made(files, made)
    ensures History(files, n) == Joined(History(made, n))
  {
    if n > 0 {
      HistoryJoined(files, made, n - 1);
      JoinedConcat(FileAt(made, n - 1), History(made, n - 1));
      assert n - 1 in files <==> n - 1 in made;
    }
  }

  lemma JoinedSuffix(a: seq<Piece>, b: seq<Piece>)
    requires IsSuffix(a, b)
    ensures IsSuffix(Joined(a), Joined(b))
  {
    var front := b[..|b| - |a|];
    assert b == front + a;
    JoinedConcat(front, a);
    SuffixOf(Joined(front), Joined(a));
  }

  lemma MadeWithout(files: Directory<byte>, made: Directory<Piece>, gone: set<nat>)
    requires Made(files, made)
    ensures Made(files - gone, made - gone)
  {
    hide Joined;
  }

  /** The counter knows all of a file exactly if it counted every byte written. */
  lemma {:induction false} CountedIsSize(pieces: seq<Piece>)
    ensures Counted(pieces) <= |Joined(pieces)|
    ensures Counted(pieces) == |Joined(pieces)| <==>
      forall k :: 0 <= k < |pieces| ==> pieces[k].counted || pieces[k].bytes == []
  {
    if pieces != [] {
      var n := |pieces| - 1;
      CountedIsSize(pieces[..n]);
      assert forall k :: 0 <= k < n ==> pieces[..n][k] == pieces[k];
    }
  }

  function RecordsOf(pieces: seq<Piece>): seq<Bytes> {
    if pieces == [] then [] else RecordsOf(pieces[..|pieces| - 1]) + [pieces[|pieces| - 1].record]
  }

  ghost predicate Whole(pieces: seq<Piece>) { forall k :: 0 <= k < |pieces| ==> pieces[k].bytes == pieces[k].record }

  lemma {:induction false} JoinedLength(pieces: seq<Piece>)
    requires forall k :: 0 <= k < |pieces| ==> pieces[k].bytes <= pieces[k].record
    ensures |Joined(pieces)| <= |Flat(RecordsOf(pieces))|
    ensures Joined(pieces) == Flat(RecordsOf(pieces)) <==> Whole(pieces)
    ensures |Joined(pieces)| == |Flat(RecordsOf(pieces))| ==> Whole(pieces)
  {
    if pieces != [] {
      var n := |pieces| - 1;
      JoinedLength(pieces[..n]);
      assert forall k :: 0 <= k < n ==> pieces[..n][k] == pieces[k];
      FlatPush(RecordsOf(pieces[..n]), pieces[n].record);
      assert Whole(pieces) <==> Whole(pieces[..n]) && pieces[n].bytes == pieces[n].record;
    }
  }

  lemma {:induction false} RecordsAreLines(pieces: seq<Piece>)
    requires forall k :: 0 <= k < |pieces| ==> IsLine(pieces[k].record)
    ensures AllLines(RecordsOf(pieces))
  {
    hide IsLine;
    if pieces != [] { RecordsAreLines(pieces[..|pieces| - 1]); }
  }

  lemma LinesAreRecords(bytes: Bytes, records: seq<Bytes>)
    requires AllLines(records)
    ensures Lines(bytes) == records && Tail(bytes) == [] <==> bytes == Flat(records)
  {
    LinesCut(bytes);
    hide Lines, Tail, Flat, AllLines;
    assert Flat(records) + [] == Flat(records);
    if bytes == Flat(records) { CutUnique(bytes, records, []); }
  }

  // ---- Size bounds ---------------------------------------------------------------------------

  /** What the counter knows is within the limit, or is a single record. */
  ghost predicate Fits(pieces: seq<Piece>, maxBytes: nat) {
    Saturated(Counted(pieces)) <= maxBytes ||
    exists k :: 0 <= k < |pieces| && pieces[k].counted && Counted(pieces) == |pieces[k].bytes|
  }

  /** Every file is one of `before`'s or fits. */
  ghost predicate Bounded(made: Directory<Piece>, before: Directory<Piece>, maxBytes: nat) {
    forall i :: i in made ==> Fits(made[i], maxBytes) || made[i] in before.Values
  }

  /** A file whose bytes were all counted is within the limit or a single record. */
  lemma FitsForReal(pieces: seq<Piece>, maxBytes: nat)
    requires Fits(pieces, maxBytes) && forall k :: 0 <= k < |pieces| ==> pieces[k].counted
    ensures Saturated(|Joined(pieces)|) <= maxBytes ||
      exists k :: 0 <= k < |pieces| && Joined(pieces) == pieces[k].bytes
  {
    CountedIsSize(pieces);
    if Saturated(Counted(pieces)) > maxBytes {
      var k :| 0 <= k < |pieces| && pieces[k].counted && Counted(pieces) == |pieces[k].bytes|;
      JoinedParts(pieces, k);
    }
  }

  lemma JoinedOne(p: Piece)
    ensures Joined([p]) == p.bytes
  {
    assert Joined([p][..0]) == [];
  }

  lemma JoinedParts(pieces: seq<Piece>, k: nat)
    requires k < |pieces| && |Joined(pieces)| == |pieces[k].bytes|
    ensures Joined(pieces) == pieces[k].bytes
  {
    var front, back := pieces[..k], pieces[k + 1..];
    JoinedOne(pieces[k]);
    hide Joined;
    assert pieces == front + [pieces[k]] + back;
    JoinedConcat(front + [pieces[k]], back);
    JoinedConcat(front, [pieces[k]]);
  }

  lemma CountedPush(pieces: seq<Piece>, p: Piece)
    ensures Counted(pieces + [p]) == Counted(pieces) + if p.counted then |p.bytes| else 0
    ensures Joined(pieces + [p]) == Joined(pieces) + p.bytes
  {
    assert (pieces + [p])[..|pieces|] == pieces;
  }

  /** Writing where the limit allows it, or to a file counted empty, keeps the bound. */
  lemma BoundedAppend(made: Directory<Piece>, len: nat, p: Piece, maxBytes: nat)
    requires 0 in made && len == Saturated(Counted(made[0])) && !(len > 0 && Saturated(len + |p.record|) > maxBytes)
    requires p.bytes <= p.record && maxBytes <= U64_MAX
    ensures forall before: Directory<Piece> ::
      Bounded(made, before, maxBytes) ==> Bounded(made[0 := made[0] + [p]], before, maxBytes)
  {
    var next := made[0] + [p];
    CountedPush(made[0], p);
    assert next[|made[0]|] == p;
    assert Fits(next, maxBytes);
  }

  // ---- A rotation, step by step ----------------------------------------------------------------

  /** Only numbers below `n` are touched. */
  ghost predicate Within<T>(files: Directory<T>, before: Directory<T>, n: nat) {
    forall i :: i >= n ==> (i in files <==> i in before) && FileAt(files, i) == FileAt(before, i)
  }

  /** A rotation over `n` files that is done from `index` up: all that is gone
      is what it had to evict, and number `index - 1` is free. */
  ghost predicate Rotating(made: Directory<Piece>, before: Directory<Piece>, n: nat, index: nat) {
    && 0 < index <= n && Within(made, before, n) && made.Values <= before.Values
    && (if index == n then made == before
        else index - 1 !in made && History(made, n) == History(before - Evicted(before, n), n))
  }

  lemma FirstMove(before: Directory<Piece>, n: nat)
    requires n > 1
    ensures History(Moved(before, n - 1), n) == History(before - Evicted(before, n), n)
  {
    if n - 2 in before {
      var rest := before - {n - 1};
      HistoryShift(rest, n, n - 1);
      assert Moved(rest, n - 1) == Moved(before, n - 1);
    } else {
      assert before - {} == before;
    }
  }

  lemma NextMove(made: Directory<Piece>, before: Directory<Piece>, n: nat, index: nat)
    requires index > 0 && Rotating(made, before, n, index + 1)
    ensures Rotating(Moved(made, index), before, n, index)
  {
    var moved := Moved(made, index);
    assert moved.Values <= made.Values;
    hide History, Evicted, FileAt;
    if index + 1 == n {
      FirstMove(before, n);
    } else if index - 1 in made {
      HistoryShift(made, n, index);
    }
  }

  /** What a rotation that may have stopped leaves: a suffix, and no new file but an empty one. */
  ghost predicate Stopped(made: Directory<Piece>, before: Directory<Piece>, n: nat) {
    IsSuffix(History(made, n), History(before, n)) && Within(made, before, n) && made.Values <= before.Values + {[]}
  }

  lemma NotRotated(made: Directory<Piece>, n: nat)
    requires n > 0
    ensures Rotating(made, made, n, n)
  {
  }

  lemma NoneBelow(made: Directory<Piece>, before: Directory<Piece>, n: nat)
    requires n > 1 && Rotating(made, before, n, 1)
    ensures 0 !in made
  {
  }

  lemma SameFiles(files: Directory<byte>, made: Directory<Piece>, i: nat)
    requires Made(files, made)
    ensures i in files <==> i in made
    ensures Made(files[i := []], made[i := []]) && Counted([]) == 0
  {
  }

  /** A rotation that stops at `index`, before or after the removal there,
      still leaves a suffix. */
  lemma StoppedRotation(made: Directory<Piece>, before: Directory<Piece>, n: nat, index: nat)
    requires Rotating(made, before, n, index + 1)
    ensures Stopped(made, before, n) && Stopped(made - {index}, before, n)
  {
    EvictionLeavesSuffix(before, n);
    hide History, Evicted, IsSuffix;
    assert (made - {index}).Values <= made.Values;
    if index + 1 < n { assert made - {index} == made; }
  }

  /** A new current file adds nothing. */
  lemma {:induction false} Reopened(made: Directory<Piece>, before: Directory<Piece>, n: nat)
    requires n > 0 && if n > 1 then Rotating(made, before, n, 1) else made == before || made == before - {0}
    requires 0 !in made
    ensures Stopped(made, before, n) && Stopped(made[0 := []], before, n)
    ensures History(made[0 := []], n) == History(before - Evicted(before, n), n)
  {
    var reopened := made[0 := []];
    assert forall i :: 0 <= i < n ==> FileAt(made, i) == FileAt(reopened, i);
    if n == 1 { OnlyFile(made, before); }
    hide History, IsSuffix, FileAt, Evicted;
    HistoryFrame(made, reopened, n);
    EvictionLeavesSuffix(before, n);
    ReopenedWithin(made, before, n);
  }

  lemma OnlyFile(made: Directory<Piece>, before: Directory<Piece>)
    requires 0 !in made && (made == before || made == before - {0})
    ensures made == before - {0} && made.Values <= before.Values && Within(made, before, 1) && Evicted(before, 1) == {0}
  {
  }

  lemma ReopenedWithin(made: Directory<Piece>, before: Directory<Piece>, n: nat)
    requires n > 0 && Within(made, before, n) && made.Values <= before.Values
    ensures Within(made[0 := []], before, n) && made[0 := []].Values <= before.Values + {[]}
  {
  }

  class RotatingWriter {
    const maxBytes: nat
    const maxFiles: nat
    var files: Directory<byte>
    var len: nat
    var isOpen: bool
    /** The pieces each file was made of. */
    ghost var made: Directory<Piece>

    ghost predicate Valid()
      reads this
    {
      maxBytes <= U64_MAX && Made(files, made) && (isOpen ==> 0 in made && len == Saturated(Counted(made[0])))
    }

    /** How many files the log may occupy. */
    function Slots(): nat { if maxFiles > 1 then maxFiles else 1 }

    ghost function Log(): Bytes
      reads this
    {
      History(files, Slots())
    }

    ghost function Pieces(): seq<Piece>
      reads this
    {
      History(made, Slots())
    }

    /** `open`: appends to the file that is there, whose size it counts. */
    constructor (files: Directory<byte>, maxBytes: nat, maxFiles: nat)
      requires maxBytes <= U64_MAX
      ensures Valid() && isOpen && this.maxBytes == maxBytes && this.maxFiles == maxFiles
      ensures maxFiles > 0 ==> Slots() == maxFiles
      ensures this.files == if 0 in files then files else files[0 := []]
      ensures made == map i | i in this.files :: Found(this.files[i])
    {
      this.maxBytes, this.maxFiles := maxBytes, maxFiles;
      var found := if 0 in files then files else files[0 := []];
      this.files := found;
      len := Saturated(|FileAt(files, 0)|);
      isOpen := true;
      made := map i | i in found :: Found(found[i]);
      new;
      FoundPieces(found);
    }

    /** One file of a rotation moved up, over the one that is there. */
    method MoveUp(index: nat, fault: Fault) returns (ok: bool)
      requires index > 0 && Made(files, made)
      modifies this`files, this`made
      ensures Made(files, made)
      ensures ok ==> made == Moved(old(made), index)
      ensures !ok ==> fault == Remove(index) || fault == Rename(index)
      ensures !ok ==> made == old(made) || made == old(made) - {index}
    {
      hide Joined;
      if index - 1 in files {
        if index in files {
          if fault == Remove(index) { return false; }
          files, made := files - {index}, made - {index};
        }
        if fault == Rename(index) {
          assert index !in old(made) ==> made == old(made);
          return false;
        }
        files := (files - {index - 1})[index := files[index - 1]];
        made := (made - {index - 1})[index := made[index - 1]];
        assert made == Moved(old(made), index);
      }
      ok := true;
    }

    /** The archives renumbered, and the current file among them. */
    method MoveAll(fault: Fault) returns (ok: bool)
      requires maxFiles > 1 && Made(files, made)
      modifies this`files, this`made
      ensures Made(files, made)
      ensures ok ==> Rotating(made, old(made), maxFiles, 1) && 0 !in made
      ensures !ok ==> (fault.Remove? || fault.Rename?) && Stopped(made, old(made), maxFiles)
    {
      hide History, Evicted, Moved, IsSuffix, Within, Rotating, Made;
      NotRotated(made, maxFiles);
      var index := maxFiles - 1;
      while index > 0
        invariant 0 <= index < maxFiles && Rotating(made, old(made), maxFiles, index + 1) && Made(files, made)
      {
        StoppedRotation(made, old(made), maxFiles, index);
        NextMove(made, old(made), maxFiles, index);
        var moved := MoveUp(index, fault);
        if !moved { return false; }
        index := index - 1;
      }
      NoneBelow(made, old(made), maxFiles);
      ok := true;
    }

    /** `rotate`: on success the log loses exactly what had to be evicted and
        the current file is new and empty; stopped anywhere, it loses at most
        its oldest file. */
    method Rotate(fault: Fault) returns (ok: bool)
      requires Valid()
      modifies this
      ensures Valid() && isOpen == ok && Stopped(made, old(made), Slots())
      ensures ok ==>
        Pieces() == History(old(made) - Evicted(old(made), Slots()), Slots()) && 0 in made && made[0] == [] && len == 0
      ensures !ok ==> !fault.NoFault? && !fault.Write? && len == old(len)
    {
      hide History, Evicted, IsSuffix, Within, Stopped, FileAt, Made, Rotating, Counted;
      isOpen := false;
      ghost var n := Slots();
      SameFiles(files, made, 0);
      NotRotated(made, n);
      StoppedRotation(made, made, n, n - 1);
      if fault.Flush? { return false; }
      if maxFiles > 1 {
        var moved := MoveAll(fault);
        if !moved { return false; }
      } else if 0 in files {
        if fault == Remove(0) { return false; }
        MadeWithout(files, made, {0});
        files, made := files - {0}, made - {0};
      }
      SameFiles(files, made, 0);
      Reopened(made, old(made), n);
      if fault.Reopen? { return false; }
      files, made := files[0 := []], made[0 := []];
      isOpen, len, ok := true, 0, true;
    }

    /** What the fault lets through of a write that fails. */
    static function Landed(line: Bytes, fault: Fault): Bytes {
      if !fault.Write? then [] else if fault.landed < |line| then line[..fault.landed] else line
    }

    /** `write_record`: an accepted record ends the log whole, after all of it
        unless the limit forced an eviction; a write that fails leaves what
        landed, not counted; and a refused record leaves nothing. */
    method WriteRecord(line: Bytes, fault: Fault) returns (ok: bool, ghost left: seq<Piece>)
      requires Valid()
      modifies this
      ensures Valid() && Within(made, old(made), Slots())
      ensures IsSuffix(Pieces(), old(Pieces()) + left) && |left| <= 1
      ensures ok ==> left == [Piece(line, line, true)]
      ensures ok ==> Pieces() == (if old(len) > 0 && Saturated(old(len) + |line|) > maxBytes
                                  then History(old(made) - Evicted(old(made), Slots()), Slots())
                                  else old(Pieces())) + left
      ensures ok && !(old(len) > 0 && Saturated(old(len) + |line|) > maxBytes) ==>
        0 in old(files) && files == old(files)[0 := old(files)[0] + line]
      ensures !ok && left != [] ==>
        fault.Write? && left == [Piece(Landed(line, fault), line, false)] && Landed(line, fault) != []
      ensures old(isOpen) && fault.NoFault? ==> ok && isOpen
      ensures old(isOpen) && fault.Write? ==> !ok && isOpen && (left == [] <==> Landed(line, fault) == [])
      ensures forall before: Directory<Piece> ::
        Bounded(old(made), before, maxBytes) ==> Bounded(made, before, maxBytes)
    {
      hide History, Evicted, IsSuffix, Within, Stopped, Made, Counted, Bounded, Fits;
      left := [];
      assert old(Pieces()) + [] == old(Pieces());
      StoppedSelf(made, Slots());
      if len > 0 && Saturated(len + |line|) > maxBytes {
        var rotated := Rotate(fault);
        StoppedFacts(made, old(made), Slots(), maxBytes);
        if !rotated { return false, []; }
      }
      if !isOpen { return false, []; }
      var landed := if fault.Write? then Landed(line, fault) else line;
      if fault.Write? && landed == [] { return false, []; }
      ghost var piece := Piece(landed, line, !fault.Write?);
      left := [piece];
      Append(files, made, old(made), Slots(), len, piece, maxBytes);
      files := files[0 := files[0] + landed];
      made := made[0 := made[0] + left];
      if fault.Write? { return false, left; }
      len := Saturated(len + |line|);
      ok := true;
    }

    /** The worker that drains the channel and goes on after a failure. Over any
        run the log is a suffix of what it held and everything that landed since;
        the accepted records are the counted pieces; what the counter knows of
        each file made by the run is within the limit or one record; and if no
        write left bytes uncounted, so is the file. */
    method Work(lines: seq<Bytes>, faults: nat -> Fault) returns (accepted: seq<Bytes>, ghost added: seq<Piece>)
      requires Valid()
      modifies this
      ensures Valid() && Within(made, old(made), Slots()) && Bounded(made, old(made), maxBytes)
      ensures IsSuffix(Pieces(), old(Pieces()) + added) && IsSuffix(Log(), old(Log()) + Joined(added))
      ensures accepted == CountedRecords(added) && LeftBy(lines, added)
      ensures (forall i :: 0 <= i < |lines| ==> !faults(i).Write?) ==> AllCounted(added)
      ensures old(isOpen) && (forall i :: 0 <= i < |lines| ==> faults(i).NoFault?) ==> accepted == lines
      ensures AllFilesCounted(old(made)) && AllCounted(added) ==>
        forall i :: i in files ==> WithinLimit(files[i], made[i], maxBytes) || made[i] in old(made).Values
    {
      hide History, IsSuffix, Within, FileAt, Joined, Made, Bounded, Counted, LeftBy, AllCounted, Evicted,
        AllFilesCounted, WithinLimit, CountedRecords;
      accepted, added := [], [];
      StoppedSelf(made, Slots());
      StartWork(lines, made, maxBytes);
      assert old(Pieces()) + [] == old(Pieces());
      for i := 0 to |lines|
        invariant Valid() && Within(made, old(made), Slots()) && Bounded(made, old(made), maxBytes)
        invariant IsSuffix(Pieces(), old(Pieces()) + added)
        invariant accepted == CountedRecords(added) && LeftBy(lines, added)
        invariant (forall k :: 0 <= k < i ==> !faults(k).Write?) ==> AllCounted(added)
        invariant old(isOpen) && (forall k :: 0 <= k < i ==> faults(k).NoFault?) ==> accepted == lines[..i] && isOpen
      {
        ghost var was := made;
        var ok, left := WriteRecord(lines[i], faults(i));
        NextWork(made, was, old(made), Slots(), added, left);
        LeftMore(lines, added, left, i);
        added := added + left;
        if ok { accepted := accepted + [lines[i]]; }
      }
      EndWork(files, made, old(files), old(made), Slots(), added, maxBytes);
    }

    /** Uncounted bytes break the limit: with the counter behind the file, some
        record is accepted without a rotation that takes the file past it. */
    method OverrunsWhenStale(line: Bytes)
      requires Valid() && isOpen && len < |files[0]| && len + |line| == maxBytes
      modifies this
      ensures 0 in files && files[0] == old(files[0]) + line && |files[0]| > maxBytes
    {
      SameFiles(files, made, 0);
      var ok, left := WriteRecord(line, NoFault);
    }
  }

  // ---- Runs of writes ---------------------------------------------------------------------

  ghost predicate AllCounted(pieces: seq<Piece>) { forall k :: 0 <= k < |pieces| ==> pieces[k].counted }

  ghost predicate AllFilesCounted(made: Directory<Piece>) { forall i :: i in made ==> AllCounted(made[i]) }

  function CountedRecords(pieces: seq<Piece>): seq<Bytes> {
    if pieces == [] then []
    else
      var last := pieces[|pieces| - 1];
      CountedRecords(pieces[..|pieces| - 1]) + if last.counted then [last.record] else []
  }

  /** Every piece is of one of the lines, whole if it was counted. */
  ghost predicate LeftBy(lines: seq<Bytes>, pieces: seq<Piece>) {
    forall k :: 0 <= k < |pieces| ==>
      pieces[k].record in lines && pieces[k].bytes <= pieces[k].record &&
      (if pieces[k].counted then pieces[k].bytes == pieces[k].record else pieces[k].bytes != [])
  }

  /** The file itself is within the limit, or is one of its pieces. */
  ghost predicate WithinLimit(file: Bytes, pieces: seq<Piece>, maxBytes: nat) {
    Saturated(|file|) <= maxBytes || exists k :: 0 <= k < |pieces| && file == pieces[k].bytes
  }

  lemma StartWork(lines: seq<Bytes>, made: Directory<Piece>, maxBytes: nat)
    ensures LeftBy(lines, []) && AllCounted([]) && CountedRecords([]) == [] && Bounded(made, made, maxBytes)
  {
    forall i | i in made ensures made[i] in made.Values {
    }
  }

  lemma LeftMore(lines: seq<Bytes>, added: seq<Piece>, left: seq<Piece>, i: nat)
    requires i < |lines| && LeftBy(lines, added) && |left| <= 1
    requires left != [] ==>
      left[0].record == lines[i] && left[0].bytes <= lines[i] &&
      (if left[0].counted then left[0].bytes == lines[i] else left[0].bytes != [])
    ensures LeftBy(lines, added + left)
    ensures AllCounted(added + left) <==> AllCounted(added) && (left == [] || left[0].counted)
    ensures CountedRecords(added + left) ==
      CountedRecords(added) + if left != [] && left[0].counted then [lines[i]] else []
  {
    var all := added + left;
    assert forall k :: 0 <= k < |added| ==> all[k] == added[k];
    assert forall k :: 0 <= k < |left| ==> all[|added| + k] == left[k];
    if left == [] {
      assert all == added;
    } else {
      assert all[..|added|] == added;
    }
  }

  /** Bytes have no partial last line exactly if they are empty or end in a newline. */
  lemma EndsAtNewline(bytes: Bytes)
    ensures Tail(bytes) == [] <==> bytes == [] || bytes[|bytes| - 1] == NL
  {
    LinesCut(bytes);
    var lines, tail := Lines(bytes), Tail(bytes);
    hide Lines, Tail;
    if lines != [] { assert IsLine(lines[|lines| - 1]); }
    if tail != [] { assert bytes[|bytes| - 1] == tail[|tail| - 1]; }
  }

  lemma SuffixEndsAtNewline(a: Bytes, b: Bytes)
    requires IsSuffix(a, b) && Tail(b) == []
    ensures Tail(a) == []
  {
    EndsAtNewline(a);
    EndsAtNewline(b);
    hide Tail;
    if a != [] { assert a[|a| - 1] == b[|b| - 1]; }
  }

  /** After whole lines, pieces read back as their records exactly if they are whole. */
  lemma ReadsAfterLines(front: seq<Piece>, back: seq<Piece>)
    requires Tail(Joined(front)) == []
    requires forall k :: 0 <= k < |back| ==> IsLine(back[k].record) && back[k].bytes <= back[k].record
    ensures Lines(Joined(front + back)) == Lines(Joined(front)) + RecordsOf(back) && Tail(Joined(front + back)) == []
      <==> Whole(back)
  {
    LinesCut(Joined(front));
    JoinedConcat(front, back);
    RecordsAreLines(back);
    JoinedLength(back);
    var lines, records := Lines(Joined(front)), RecordsOf(back);
    hide Joined, RecordsOf, Lines, Tail, Flat, IsLine, Whole;
    FlatConcat(lines, records);
    assert Joined(front) == Flat(lines);
    LinesAreRecords(Joined(front + back), lines + records);
    SameRest(Flat(lines), Joined(back), Flat(records));
  }

  lemma SameRest(front: Bytes, a: Bytes, b: Bytes)
    ensures front + a == front + b <==> a == b
  {
    assert (front + a)[|front|..] == a && (front + b)[|front|..] == b;
  }

  /** No record is split: after a run of whole lines over a log that ended at a
      newline, the log is what is kept of the old one and of what the run left;
      and it reads back as the old lines followed by the run's records exactly if
      no write landed a proper part of one. So it does if all was counted. */
  lemma RunSplitsNoRecord(lines: seq<Bytes>, before: seq<Piece>, added: seq<Piece>, pieces: seq<Piece>)
    returns (front: seq<Piece>, back: seq<Piece>)
    requires AllLines(lines) && LeftBy(lines, added) && IsSuffix(pieces, before + added)
    requires Tail(Joined(before)) == []
    ensures pieces == front + back && IsSuffix(front, before) && IsSuffix(back, added)
    ensures front != [] ==> back == added
    ensures Lines(Joined(pieces)) == Lines(Joined(front)) + RecordsOf(back) && Tail(Joined(pieces)) == []
      <==> Whole(back)
    ensures AllCounted(added) ==> Whole(back) && RecordsOf(back) == CountedRecords(back)
  {
    hide Joined, RecordsOf, Lines, Tail, CountedRecords, LeftBy, AllLines, AllCounted, Whole, IsLine, IsSuffix;
    front, back := SuffixParts(pieces, before, added);
    JoinedSuffix(front, before);
    SuffixEndsAtNewline(Joined(front), Joined(before));
    SuffixLeft(lines, added, back);
    ReadsAfterLines(front, back);
  }

  /** What holds of all that was left holds of its last pieces. */
  lemma SuffixLeft(lines: seq<Bytes>, added: seq<Piece>, back: seq<Piece>)
    requires AllLines(lines) && LeftBy(lines, added) && IsSuffix(back, added)
    ensures forall k :: 0 <= k < |back| ==> IsLine(back[k].record) && back[k].bytes <= back[k].record
    ensures AllCounted(added) ==> Whole(back) && RecordsOf(back) == CountedRecords(back)
  {
    hide IsLine, RecordsOf, CountedRecords;
    assert forall k :: 0 <= k < |back| ==> back[k] == added[|added| - |back| + k];
    forall k | 0 <= k < |back| ensures IsLine(back[k].record) && back[k].bytes <= back[k].record {
      assert added[|added| - |back| + k].record in lines;
    }
    if AllCounted(added) { CountedAreAll(back); }
  }

  /** A suffix of `before + added`, split where `added` begins. */
  lemma SuffixParts(pieces: seq<Piece>, before: seq<Piece>, added: seq<Piece>)
    returns (front: seq<Piece>, back: seq<Piece>)
    requires IsSuffix(pieces, before + added)
    ensures pieces == front + back && IsSuffix(front, before) && IsSuffix(back, added)
    ensures front != [] ==> back == added
  {
    var all := before + added;
    var m := |all| - |pieces|;
    if m >= |before| {
      front, back := [], pieces;
      assert all[m..] == added[m - |before|..];
    } else {
      front, back := before[m..], added;
      assert all[m..] == before[m..] + added;
    }
  }

  lemma {:induction false} CountedAreAll(pieces: seq<Piece>)
    requires AllCounted(pieces)
    ensures RecordsOf(pieces) == CountedRecords(pieces)
  {
    if pieces != [] { CountedAreAll(pieces[..|pieces| - 1]); }
  }

  /** One more write after `added`. */
  lemma NextWork(made: Directory<Piece>, was: Directory<Piece>, start: Directory<Piece>, n: nat,
                 added: seq<Piece>, left: seq<Piece>)
    requires Within(was, start, n) && Within(made, was, n)
    requires IsSuffix(History(was, n), History(start, n) + added) && IsSuffix(History(made, n), History(was, n) + left)
    ensures Within(made, start, n) && IsSuffix(History(made, n), History(start, n) + (added + left))
  {
    hide History, IsSuffix;
    SuffixAppend(History(was, n), History(start, n) + added, left);
    SuffixTrans(History(made, n), History(was, n) + left, History(start, n) + added + left);
    Associative(History(start, n), added, left);
  }

  /** What the pieces of a run say about its bytes. */
  lemma EndWork(files: Directory<byte>, made: Directory<Piece>, oldFiles: Directory<byte>, before: Directory<Piece>,
                n: nat, added: seq<Piece>, maxBytes: nat)
    requires Made(files, made) && Made(oldFiles, before) && Within(made, before, n) && Bounded(made, before, maxBytes)
    requires IsSuffix(History(made, n), History(before, n) + added)
    ensures IsSuffix(History(files, n), History(oldFiles, n) + Joined(added))
    ensures AllFilesCounted(before) && AllCounted(added) ==>
      forall i :: i in files ==> WithinLimit(files[i], made[i], maxBytes) || made[i] in before.Values
  {
    hide History, IsSuffix, Within, Joined, Bounded, Made, AllFilesCounted, AllCounted, WithinLimit;
    HistoryJoined(files, made, n);
    HistoryJoined(oldFiles, before, n);
    JoinedSuffix(History(made, n), History(before, n) + added);
    JoinedConcat(History(before, n), added);
    if AllFilesCounted(before) && AllCounted(added) {
      RunCounted(made, before, n, added);
      BoundedForReal(files, made, before, maxBytes);
    }
  }

  lemma {:induction false} FileInHistory(made: Directory<Piece>, n: nat, i: nat)
    requires i < n && i in made && AllCounted(History(made, n))
    ensures AllCounted(made[i])
  {
    var front, rest := FileAt(made, n - 1), History(made, n - 1);
    assert forall k :: 0 <= k < |front| ==> (front + rest)[k] == front[k];
    assert forall k :: 0 <= k < |rest| ==> (front + rest)[|front| + k] == rest[k];
    if i < n - 1 { FileInHistory(made, n - 1, i); }
  }

  lemma {:induction false} HistoryCounted(made: Directory<Piece>, n: nat)
    requires AllFilesCounted(made)
    ensures AllCounted(History(made, n))
  {
    if n > 0 { HistoryCounted(made, n - 1); }
  }

  lemma RunCounted(made: Directory<Piece>, before: Directory<Piece>, n: nat, added: seq<Piece>)
    requires IsSuffix(History(made, n), History(before, n) + added) && Within(made, before, n)
    requires AllFilesCounted(before) && AllCounted(added)
    ensures AllFilesCounted(made)
  {
    hide History, AllCounted, IsSuffix;
    HistoryCounted(before, n);
    SuffixCounted(History(made, n), History(before, n), added);
    forall i | i in made ensures AllCounted(made[i]) {
      if i < n {
        FileInHistory(made, n, i);
      } else {
        assert FileAt(made, i) == FileAt(before, i);
      }
    }
  }

  lemma SuffixCounted(kept: seq<Piece>, before: seq<Piece>, added: seq<Piece>)
    requires IsSuffix(kept, before + added) && AllCounted(before) && AllCounted(added)
    ensures AllCounted(kept)
  {
    var all := before + added;
    forall k | 0 <= k < |kept| ensures kept[k].counted {
      assert kept[k] == all[|all| - |kept| + k];
    }
  }

  lemma BoundedForReal(files: Directory<byte>, made: Directory<Piece>, before: Directory<Piece>, maxBytes: nat)
    requires Made(files, made) && Bounded(made, before, maxBytes) && AllFilesCounted(made)
    ensures forall i :: i in files ==> WithinLimit(files[i], made[i], maxBytes) || made[i] in before.Values
  {
    hide Joined;
    forall i | i in files ensures WithinLimit(files[i], made[i], maxBytes) || made[i] in before.Values {
      assert AllCounted(made[i]);
      if Fits(made[i], maxBytes) { FitsForReal(made[i], maxBytes); }
    }
  }

  lemma StoppedSelf(made: Directory<Piece>, n: nat)
    ensures IsSuffix(History(made, n), History(made, n)) && Within(made, made, n)
  {
    hide History;
  }

  /** A rotation brings no new oversized file. */
  lemma StoppedFacts(made: Directory<Piece>, was: Directory<Piece>, n: nat, maxBytes: nat)
    requires Stopped(made, was, n)
    ensures IsSuffix(History(made, n), History(was, n)) && Within(made, was, n)
    ensures forall before: Directory<Piece> :: Bounded(was, before, maxBytes) ==> Bounded(made, before, maxBytes)
  {
    hide History, IsSuffix, Within;
    forall before: Directory<Piece> | Bounded(was, before, maxBytes) ensures Bounded(made, before, maxBytes) {
      forall i | i in made ensures Fits(made[i], maxBytes) || made[i] in before.Values {
        assert made[i] in made.Values;
        if made[i] != [] {
          assert made[i] in was.Values;
          var k :| k in was && was[k] == made[i];
        }
      }
    }
  }

  /** A piece appended to the current file. */
  lemma Append(files: Directory<byte>, made: Directory<Piece>, was: Directory<Piece>, n: nat, len: nat, p: Piece,
               maxBytes: nat)
    requires n > 0 && Made(files, made) && 0 in made && len == Saturated(Counted(made[0])) && maxBytes <= U64_MAX
    requires !(len > 0 && Saturated(len + |p.record|) > maxBytes) && p.bytes <= p.record
    requires p.counted ==> p.bytes == p.record
    requires IsSuffix(History(made, n), History(was, n)) && Within(made, was, n)
    ensures 0 in files && var next := made[0 := made[0] + [p]];
      && Made(files[0 := files[0] + p.bytes], next) && Within(next, was, n)
      && History(next, n) == History(made, n) + [p] && IsSuffix(History(next, n), History(was, n) + [p])
      && Saturated(Counted(next[0])) == (if p.counted then Saturated(len + |p.record|) else len)
      && forall before: Directory<Piece> :: Bounded(made, before, maxBytes) ==> Bounded(next, before, maxBytes)
  {
    AppendMade(files, made, p);
    AppendWithin(made, was, n, p);
    hide History, Bounded, IsSuffix, Made, Within, Counted, Joined;
    Appended(made, n, [p]);
    SuffixAppend(History(made, n), History(was, n), [p]);
    CountedPush(made[0], p);
    BoundedAppend(made, len, p, maxBytes);
  }

  lemma AppendMade(files: Directory<byte>, made: Directory<Piece>, p: Piece)
    requires Made(files, made) && 0 in made
    ensures 0 in files && Made(files[0 := files[0] + p.bytes], made[0 := made[0] + [p]])
  {
    CountedPush(made[0], p);
    hide Joined;
  }

  lemma AppendWithin(made: Directory<Piece>, was: Directory<Piece>, n: nat, p: Piece)
    requires n > 0 && 0 in made && Within(made, was, n)
    ensures Within(made[0 := made[0] + [p]], was, n)
  {
  }

  /** What is found in a file counts as one record. */
  function Found(file: Bytes): seq<Piece> { if file == [] then [] else [Piece(file, file, true)] }

  lemma FoundPieces(files: Directory<byte>)
    ensures Made(files, map i | i in files :: Found(files[i]))
    ensures forall i :: i in files ==> Counted(Found(files[i])) == |files[i]|
  {
    forall i | i in files ensures Joined(Found(files[i])) == files[i] && Counted(Found(files[i])) == |files[i]| {
      if files[i] != [] { assert Found(files[i])[..0] == []; }
    }
  }
}
