/** The SQL activity projection: a worker reads the journal in bounded batches
    from a saved position and commits the rows and the new position together. */
module Projection {
  import opened Bytes
  import opened Checkpoints
  import opened Journal
  import opened Reader
  import JournalRuns
  import Verify

  const I64_MAX: nat := 0x7FFF_FFFF_FFFF_FFFF

  /** The rows of the first `n` lines: one per record that is not a checkpoint, by sequence. */
  function TableOf(env: Env, lines: seq<Bytes>, n: nat): map<nat, Record>
    requires n <= |lines| && forall i :: 0 <= i < n ==> Judge(env, lines, i).Got?
  {
    map at: nat | 1 <= at <= n && !Numbered(env, lines, at).IsCheckpoint() :: Numbered(env, lines, at)
  }

  /** The record with sequence `at`. */
  function Numbered(env: Env, lines: seq<Bytes>, at: nat): Record
    requires 1 <= at <= |lines| && Judge(env, lines, at - 1).Got?
  {
    Judge(env, lines, at - 1).record
  }

  lemma TableStep(env: Env, lines: seq<Bytes>, n: nat)
    requires n < |lines| && forall i :: 0 <= i <= n ==> Judge(env, lines, i).Got?
    ensures var r := Judge(env, lines, n).record; var t := TableOf(env, lines, n);
      r.at == n + 1 && TableOf(env, lines, n + 1) == if r.IsCheckpoint() then t else t[r.at := r]
  {
    assert Judge(env, lines, n).record.at == n + 1;
    hide Judge;
  }

  lemma TableGrows(env: Env, a: seq<Bytes>, b: seq<Bytes>, n: nat)
    requires a <= b && n <= |a| && forall i :: 0 <= i < n ==> Judge(env, a, i).Got?
    ensures forall i :: 0 <= i < n ==> Judge(env, b, i) == Judge(env, a, i)
    ensures TableOf(env, b, n) == TableOf(env, a, n)
  {
    forall i | 0 <= i < n ensures Judge(env, b, i) == Judge(env, a, i) {
      hide ChainOf;
      assert b[..i] == a[..i];
    }
    hide Judge;
    assert forall at :: 1 <= at <= n ==> Numbered(env, b, at) == Numbered(env, a, at);
  }

  /** The first `n` lines are all readable. */
  ghost predicate ReadableTo(env: Env, contents: Bytes, n: nat) {
    n <= |Lines(contents)| && forall i :: 0 <= i < n ==> Judge(env, Lines(contents), i).Got?
  }

  /** Something from line `from` on cannot be projected: a line or tail the
      reader refuses, or a sequence past the signed 64-bit range. */
  ghost predicate Blocked(env: Env, contents: Bytes, from: nat) {
    exists k :: from <= k <= |Lines(contents)| && (ItemAt(env, contents, k).Broken? || k >= I64_MAX)
  }

  lemma JudgedAt(env: Env, lines: seq<Bytes>, i: nat)
    requires i < |lines| && Judge(env, lines, i).Got?
    ensures Judge(env, lines, i).record.at == i + 1
  {
  }

  lemma NextGrows(env: Env, s: System, e: Event)
    requires !e.Open? && !e.FailedOpen? && !e.PowerLoss?
    ensures s.disk.contents <= Step(env, s, e).disk.contents
  {
    hide Step;
    JournalRuns.LifeOnlyAppends(env, s, [e]);
    assert [e][..0] == [];
    assert RunFrom(env, s, [e]) == Step(env, RunFrom(env, s, []), e);
  }

  /** Beside a healthy writer nothing is blocked, so every poll that commits
      gets on or is caught up. */
  lemma HealthyIsNotBlocked(env: Env, ok: JournalRuns.Allowed, s: System, from: nat)
    requires Faithful(env) && JournalRuns.Inv(env, ok, s) && s.proc.Up? && !s.proc.poisoned
    requires |Lines(s.disk.contents)| < I64_MAX
    ensures !Blocked(env, s.disk.contents, from)
  {
    var lines := Lines(s.disk.contents);
    Verify.GenuineOk(env, ok, [], lines);
    hide Lines, Tail, Faithful, JournalRuns.Genuine, JournalRuns.AcksHold, Judge;
    forall k | from <= k <= |lines| ensures !ItemAt(env, s.disk.contents, k).Broken? && k < I64_MAX {
      if k < |lines| { assert Verify.LineOk(env, [], lines, k); }
    }
  }

  class ActivityProjection {
    const env: Env
    /** What a row weighs against the byte budget. */
    const weight: Record -> nat
    const rowLimit: nat
    const byteLimit: nat
    var table: map<nat, Record>
    var position: Position
    var first: bool
    var ready: bool
    /** How many journal lines lie before `position`. */
    ghost var consumed: nat

    /** Before the first commit nothing is claimed of the table, which may
        hold rows of an earlier process; after it the table is the projection
        of exactly the lines before the saved position. */
    ghost predicate Valid(contents: Bytes) reads this {
      && ReadableTo(env, contents, consumed) && position == PositionAt(env, Lines(contents), consumed)
      && (first ==> consumed == 0 && !ready)
      && (!first ==> table == TableOf(env, Lines(contents), consumed))
    }

    constructor (env: Env, weight: Record -> nat, rowLimit: nat, byteLimit: nat, stale: map<nat, Record>)
      ensures this.env == env && this.weight == weight && this.rowLimit == rowLimit && this.byteLimit == byteLimit
      ensures table == stale && forall contents :: Valid(contents)
    {
      this.env, this.weight, this.rowLimit, this.byteLimit := env, weight, rowLimit, byteLimit;
      table, position, first, ready := stale, Position(1, 0, Genesis(env.sha)), true, false;
      consumed := 0;
    }

    /** What a batch weighs. */
    function Weight(batch: seq<Record>): nat {
      if batch == [] then 0 else Weight(batch[..|batch| - 1]) + weight(batch[|batch| - 1])
    }

    lemma NoWeight()
      ensures Weight([]) == 0
    {
    }

    lemma WithoutLast(batch: seq<Record>)
      ensures batch != [] ==> Weight(batch[..|batch| - 1]) <= Weight(batch)
    {
    }

    lemma WeightPush(batch: seq<Record>, r: Record)
      ensures Weight(batch + [r]) == Weight(batch) + weight(r) && (batch + [r])[..|batch|] == batch
    {
    }

    /** The reading half of `ingest`: it fails only on a record that cannot be
        projected, and otherwise reads on or is caught up. It takes no more lines
        than the row limit, no record once the byte limit is reached, and stops
        before the end only at one of the two. */
    method ReadBatch(contents: Bytes, ghost from: nat)
      returns (r: Option<(Position, bool)>, batch: seq<Record>, ghost upto: nat)
      requires ReadableTo(env, contents, from) && position == PositionAt(env, Lines(contents), from)
      ensures r.Some? ==>
        from <= upto && ReadableTo(env, contents, upto) && r.value.0 == PositionAt(env, Lines(contents), upto) &&
        Gathers(env, Lines(contents), from, upto, batch) &&
        (r.value.1 ==> upto == |Lines(contents)| && Tail(contents) == []) && (r.value.1 || upto > from || rowLimit == 0)
      ensures r.None? ==> Blocked(env, contents, from)
      ensures r.Some? ==>
        upto - from <= rowLimit && (|batch| > 1 ==> Weight(batch[..|batch| - 1]) < byteLimit) &&
        (r.value.1 || upto - from == rowLimit || Weight(batch) >= byteLimit)
    {
      hide Lines, Tail, Judge, Gathers, Weight, Flat, ChainOf, Text;
      NoWeight();
      var reader := JournalReader.Resume(env, contents, position, from);
      batch, upto := [], from;
      var caughtUp, bytes, taken := false, 0, 0;
      GathersNothing(env, Lines(contents), from);
      while taken < rowLimit
        invariant reader.Valid() && fresh(reader) && reader.env == env && reader.contents == contents
        invariant !caughtUp ==> !reader.done
        invariant taken == upto - from <= rowLimit && bytes == Weight(batch)
        invariant |batch| > 0 ==> bytes < byteLimit
        invariant from <= upto == reader.read && ReadableTo(env, contents, upto)
        invariant Gathers(env, Lines(contents), from, upto, batch)
        invariant caughtUp ==> upto == |Lines(contents)| && Tail(contents) == []
        decreases rowLimit - taken
      {
        var item := reader.Next();
        if item.End? {
          caughtUp := true;
          break;
        }
        if item.Broken? {
          assert ItemAt(env, contents, upto).Broken?;
          return None, [], from;
        }
        var record := item.record;
        upto := upto + 1;
        taken := taken + 1;
        if record.IsCheckpoint() {
          GathersMore(env, Lines(contents), from, upto - 1, batch);
          continue;
        }
        JudgedAt(env, Lines(contents), upto - 1);
        if record.at > I64_MAX {
          assert ItemAt(env, contents, upto).Broken? || upto >= I64_MAX;
          return None, [], from;
        }
        bytes := bytes + weight(record);
        GathersMore(env, Lines(contents), from, upto - 1, batch);
        WeightPush(batch, record);
        batch := batch + [record];
        if bytes >= byteLimit { break; }
      }
      WithoutLast(batch);
      r := Some((reader.Here(), caughtUp));
    }

    /** One `ingest`: rows go in under their sequence in one transaction, or
        the table is untouched. A key already present aborts the transaction. */
    method Ingest(contents: Bytes, commits: bool) returns (r: Option<(Position, bool)>, ghost upto: nat)
      requires Valid(contents)
      modifies this`table
      ensures r.None? ==> table == old(table)
      ensures r.Some? ==>
        consumed <= upto && ReadableTo(env, contents, upto) && r.value.0 == PositionAt(env, Lines(contents), upto) &&
        table == TableOf(env, Lines(contents), upto) &&
        (r.value.1 ==> upto == |Lines(contents)| && Tail(contents) == []) &&
        (r.value.1 || upto > consumed || rowLimit == 0)
      ensures r.None? ==> !commits || Blocked(env, contents, consumed)
    {
      hide Lines, Tail, Judge, Gathers;
      var batch;
      r, batch, upto := ReadBatch(contents, consumed);
      if r.None? { return; }
      var lines := Lines(contents);
      var rows := if first then map[] else table;
      assert rows == TableOf(env, lines, consumed);
      GatheredBound(env, lines, consumed, upto, batch);
      for i := 0 to |batch|
        invariant table == old(table)
        invariant rows == Merged(TableOf(env, lines, consumed), batch[..i])
      {
        GatheredFresh(env, lines, consumed, upto, batch, i);
        if batch[i].at in rows { return None, upto; }
        rows := rows[batch[i].at := batch[i]];
        assert batch[..i + 1][..i] == batch[..i];
      }
      assert batch[..|batch|] == batch;
      GatheredTable(env, lines, consumed, upto, batch);
      if !commits { return None, upto; }
      table := rows;
    }

    /** One turn of the poll loop over a file that has only grown: unless the
        commit fails or a record is blocked, it gets on or is caught up. */
    method Poll(ghost before: Bytes, contents: Bytes, commits: bool)
      requires Valid(before) && before <= contents
      modifies this
      ensures Valid(contents) && consumed >= old(consumed)
      ensures ready ==> consumed == |Lines(contents)| && Tail(contents) == [] && !first
      ensures commits && !Blocked(env, contents, old(consumed)) && rowLimit > 0 ==> ready || consumed > old(consumed)
    {
      hide Lines, Tail, Judge;
      Grown(before, contents);
      var r, upto := Ingest(contents, commits);
      if r.Some? {
        position, first, ready := r.value.0, false, r.value.1;
        consumed := upto;
      } else {
        ready := false;
      }
    }

    /** The loop: over any run of polls of a growing file, with reads and
        commits that fail at will, the table is the projection of the lines
        before the saved position. */
    method PollAll(snapshots: seq<Bytes>, commits: nat -> bool)
      requires snapshots != [] && Valid(snapshots[0])
      requires forall i :: 0 < i < |snapshots| ==> snapshots[i - 1] <= snapshots[i]
      modifies this
      ensures Valid(snapshots[|snapshots| - 1]) && consumed >= old(consumed)
      ensures ready ==> !first && consumed == |Lines(snapshots[|snapshots| - 1])|
    {
      hide Lines, Tail, Judge, TableOf, ReadableTo, PositionAt;
      Poll(snapshots[0], snapshots[0], commits(0));
      for i := 1 to |snapshots|
        invariant Valid(snapshots[i - 1]) && consumed >= old(consumed)
        invariant ready ==> !first && consumed == |Lines(snapshots[i - 1])|
      {
        Poll(snapshots[i - 1], snapshots[i], commits(i));
      }
    }

    /** Polling beside the writer, from its start to its end: after each of its
        events, whatever they are short of a power loss or a restart. */
    method PollLife(ghost s: System, ghost events: seq<Event>, snapshots: seq<Bytes>, commits: nat -> bool)
      requires forall i :: 0 <= i < |events| ==>
        !events[i].Open? && !events[i].FailedOpen? && !events[i].PowerLoss?
      requires |snapshots| == |events| + 1 && Valid(s.disk.contents)
      requires forall i :: 0 <= i < |snapshots| ==> snapshots[i] == RunFrom(env, s, events[..i]).disk.contents
      modifies this
      ensures Valid(RunFrom(env, s, events).disk.contents) && consumed >= old(consumed)
      ensures ready ==> !first && consumed == |Lines(RunFrom(env, s, events).disk.contents)|
    {
      hide Lines, Tail, Judge, TableOf, ReadableTo, PositionAt;
      forall i | 0 < i < |snapshots| ensures snapshots[i - 1] <= snapshots[i] {
        assert events[..i][..i - 1] == events[..i - 1];
        NextGrows(env, RunFrom(env, s, events[..i - 1]), events[i - 1]);
      }
      assert events[..0] == [] && events[..|events|] == events;
      PollAll(snapshots, commits);
    }

    lemma Grown(before: Bytes, contents: Bytes)
      requires Valid(before) && before <= contents
      ensures ReadableTo(env, contents, consumed) && position == PositionAt(env, Lines(contents), consumed)
      ensures !first ==> table == TableOf(env, Lines(contents), consumed)
    {
      GrownFile(env, before, contents, consumed);
      hide Lines, TableOf, Judge;
      TableGrows(env, Lines(before), Lines(contents), consumed);
    }
  }

  // ---- What a batch gathers ----------------------------------------------------------

  /** `batch` is the non-checkpoint records of lines `from..to`, in order. */
  ghost predicate Gathers(env: Env, lines: seq<Bytes>, from: nat, upto: nat, batch: seq<Record>)
    requires from <= upto <= |lines| && forall i :: from <= i < upto ==> Judge(env, lines, i).Got?
    decreases upto
  {
    if from == upto then batch == []
    else
      var r := Judge(env, lines, upto - 1).record;
      if r.IsCheckpoint() then Gathers(env, lines, from, upto - 1, batch)
      else batch != [] && batch[|batch| - 1] == r && Gathers(env, lines, from, upto - 1, batch[..|batch| - 1])
  }

  lemma GathersNothing(env: Env, lines: seq<Bytes>, from: nat)
    requires from <= |lines|
    ensures Gathers(env, lines, from, from, [])
  {
  }

  lemma GathersMore(env: Env, lines: seq<Bytes>, from: nat, upto: nat, batch: seq<Record>)
    requires from <= upto < |lines| && forall i :: from <= i < upto + 1 ==> Judge(env, lines, i).Got?
    requires Gathers(env, lines, from, upto, batch)
    ensures var r := Judge(env, lines, upto).record;
      if r.IsCheckpoint() then Gathers(env, lines, from, upto + 1, batch)
      else Gathers(env, lines, from, upto + 1, batch + [r])
  {
    var r := Judge(env, lines, upto).record;
    assert (batch + [r])[..|batch|] == batch;
  }

  /** Gathered records are numbered increasingly within `from+1..to`. */
  lemma {:induction false} GatheredBound(env: Env, lines: seq<Bytes>, from: nat, upto: nat, batch: seq<Record>)
    requires from <= upto <= |lines| && forall i :: from <= i < upto ==> Judge(env, lines, i).Got?
    requires Gathers(env, lines, from, upto, batch)
    ensures forall i :: 0 <= i < |batch| ==> from < batch[i].at <= upto
    ensures forall i, j :: 0 <= i < j < |batch| ==> batch[i].at < batch[j].at
    decreases upto
  {
    if upto > from {
      var r := Judge(env, lines, upto - 1).record;
      assert r.at == upto;
      if r.IsCheckpoint() {
        GatheredBound(env, lines, from, upto - 1, batch);
      } else {
        var init := batch[..|batch| - 1];
        GatheredBound(env, lines, from, upto - 1, init);
        assert forall i :: 0 <= i < |init| ==> batch[i] == init[i];
      }
    }
  }

  function Merged(t: map<nat, Record>, batch: seq<Record>): map<nat, Record> {
    if batch == [] then t
    else Merged(t, batch[..|batch| - 1])[batch[|batch| - 1].at := batch[|batch| - 1]]
  }

  lemma {:induction false} MergedKeys(t: map<nat, Record>, batch: seq<Record>, at: nat)
    ensures at in Merged(t, batch) <==> at in t || exists i :: 0 <= i < |batch| && batch[i].at == at
  {
    if batch != [] {
      var n := |batch| - 1;
      MergedKeys(t, batch[..n], at);
      assert forall i :: 0 <= i < n ==> batch[..n][i] == batch[i];
    }
  }

  /** No gathered record collides with a row already there. */
  lemma GatheredFresh(env: Env, lines: seq<Bytes>, from: nat, upto: nat, batch: seq<Record>, i: nat)
    requires from <= upto <= |lines| && i < |batch| && forall k :: 0 <= k < upto ==> Judge(env, lines, k).Got?
    requires Gathers(env, lines, from, upto, batch)
    ensures batch[i].at !in Merged(TableOf(env, lines, from), batch[..i])
  {
    GatheredBound(env, lines, from, upto, batch);
    MergedKeys(TableOf(env, lines, from), batch[..i], batch[i].at);
  }

  /** Adding a gathered batch to the rows of the first `from` lines gives the
      rows of the first `to` lines. */
  lemma {:induction false} GatheredTable(env: Env, lines: seq<Bytes>, from: nat, upto: nat, batch: seq<Record>)
    requires from <= upto <= |lines| && forall k :: 0 <= k < upto ==> Judge(env, lines, k).Got?
    requires Gathers(env, lines, from, upto, batch)
    ensures Merged(TableOf(env, lines, from), batch) == TableOf(env, lines, upto)
    decreases upto
  {
    hide TableOf, Judge;
    if upto > from {
      TableStep(env, lines, upto - 1);
      if Judge(env, lines, upto - 1).record.IsCheckpoint() {
        GatheredTable(env, lines, from, upto - 1, batch);
      } else {
        GatheredTable(env, lines, from, upto - 1, batch[..|batch| - 1]);
      }
    }
  }

  // ---- What the rows are ------------------------------------------------------------------

  lemma {:induction false} AcknowledgedAreBodies(replies: seq<Option<nat>>, bodies: seq<Bytes>)
    requires |replies| == |bodies|
    ensures forall ack :: ack in Acknowledged(replies, bodies) ==> ack.1 in bodies
  {
    if bodies != [] { AcknowledgedAreBodies(replies[..|bodies| - 1], bodies[..|bodies| - 1]); }
  }

  /** Only events are ever acknowledged. */
  lemma {:induction false} AcksAreEvents(env: Env, ok: JournalRuns.Allowed, events: seq<Event>)
    requires JournalRuns.ValidRun(env, ok, events)
    ensures forall ack :: ack in Run(env, events).acked ==> IsEvent(env, ack.1)
  {
    if events != [] {
      var n := |events| - 1;
      AcksAreEvents(env, ok, events[..n]);
      assert JournalRuns.ValidEvent(env, ok, events[n]);
      StepAcksEvents(env, Run(env, events[..n]), events[n]);
    }
  }

  lemma StepAcksEvents(env: Env, s: System, e: Event)
    requires e.Batch? ==> JournalRuns.AllEvents(env, e.bodies)
    ensures forall ack :: ack in Step(env, s, e).acked ==> ack in s.acked || IsEvent(env, ack.1)
  {
    hide Commit, Reopen, Seal, Acknowledged, IsEvent;
    if e.Batch? && s.proc.Up? {
      var t := Commit(env, s.proc.policy, s.proc.w, s.disk, e.bodies, e.io, e.stamp, e.sealIo);
      AcknowledgedAreBodies(t.replies, e.bodies);
    }
  }

  /** What parsing makes of a genuine line: its number, and a checkpoint's kind
      exactly if it is no event. */
  lemma {:induction false} GenuineParses(env: Env, ok: JournalRuns.Allowed, before: seq<Bytes>, line: Bytes)
    requires Faithful(env) && JournalRuns.NextLine(env, ok, before, line)
    ensures var json := env.parse(Text(line));
      json.Some? && json.value.at == Some(|before| + 1) && json.value.kind.Some? &&
      (json.value.kind.value == CHECKPOINT_KIND <==> !JournalRuns.EventLine(env, |before| + 1, line))
  {
    hide Faithful, SealLine, Stamp, Text, Replay, NextCheckpoint, CleanCheckpoint, IsLine, JournalRuns.EventLine;
    if JournalRuns.EventLine(env, |before| + 1, line) {
      JournalRuns.EventFacts(env, |before| + 1, line);
    } else {
      var policy, stamp :| JournalRuns.ValidPolicy(ok, policy) && Clean(stamp) &&
        line == SealLine(env, Replay(env, before), policy, stamp);
      JournalRuns.SealFacts(env, ok, before, policy, stamp);
    }
  }

  lemma {:induction false} GenuineNext(env: Env, ok: JournalRuns.Allowed, lines: seq<Bytes>, at: nat)
    requires JournalRuns.Genuine(env, ok, lines) && 1 <= at <= |lines|
    ensures JournalRuns.NextLine(env, ok, lines[..at - 1], lines[at - 1])
  {
    hide JournalRuns.NextLine;
    JournalRuns.GenuinePrefix(env, ok, lines, at);
    assert lines[..at][..at - 1] == lines[..at - 1];
  }

  /** A genuine line is readable, and is a checkpoint exactly if it is no event. */
  lemma {:induction false} GenuineRow(env: Env, ok: JournalRuns.Allowed, lines: seq<Bytes>, at: nat)
    requires Faithful(env) && JournalRuns.Genuine(env, ok, lines) && 1 <= at <= |lines|
    ensures var item := Judge(env, lines, at - 1);
      item.Got? && item.record.line == lines[at - 1] &&
      (item.record.IsCheckpoint() <==> !JournalRuns.EventLine(env, at, lines[at - 1]))
  {
    hide JournalRuns.Genuine, Faithful, ChainOf, Text, JournalRuns.EventLine, JournalRuns.NextLine;
    GenuineNext(env, ok, lines, at);
    GenuineParses(env, ok, lines[..at - 1], lines[at - 1]);
  }

  /** The rows of genuine lines are exactly the events, each with its own line. */
  lemma {:induction false} GenuineTable(env: Env, ok: JournalRuns.Allowed, lines: seq<Bytes>, at: nat)
    requires Faithful(env) && JournalRuns.Genuine(env, ok, lines)
    ensures (forall i :: 0 <= i < |lines| ==> Judge(env, lines, i).Got?) && IsEventRow(env, lines, at)
  {
    hide Judge, JournalRuns.Genuine, JournalRuns.EventLine, Faithful;
    forall i | 0 <= i < |lines| ensures Judge(env, lines, i).Got? {
      GenuineRow(env, ok, lines, i + 1);
    }
    if 1 <= at <= |lines| { GenuineRow(env, ok, lines, at); }
  }

  /** Number `at` is a row exactly if that line is an event, and then with its line. */
  ghost predicate IsEventRow(env: Env, lines: seq<Bytes>, at: nat)
    requires forall i :: 0 <= i < |lines| ==> Judge(env, lines, i).Got?
  {
    var table := TableOf(env, lines, |lines|);
    && (at in table <==> 1 <= at <= |lines| && JournalRuns.EventLine(env, at, lines[at - 1]))
    && (at in table ==> table[at].line == lines[at - 1])
  }

  /** Over every run, the rows of the whole journal are exactly its events, each
      under its number and with its own line, and every acknowledged record is one. */
  lemma {:induction false} RowsAreTheEvents(env: Env, ok: JournalRuns.Allowed, events: seq<Event>, at: nat, k: nat)
    requires Faithful(env) && JournalRuns.ValidRun(env, ok, events)
    ensures var s := Run(env, events); var lines := Lines(s.disk.contents);
      && ReadableTo(env, s.disk.contents, |lines|) && IsEventRow(env, lines, at)
      && (k < |s.acked| ==>
           var table, ack := TableOf(env, lines, |lines|), s.acked[k];
           ack.0 in table && table[ack.0].line == Stamp(ack.0, ack.1))
  {
    JournalRuns.RunKeeps(env, ok, events);
    AcksAreEvents(env, ok, events);
    var s := Run(env, events);
    var lines := Lines(s.disk.contents);
    hide Lines, Tail, Judge, Run, JournalRuns.Genuine, Faithful, IsEvent, Stamp, Replay, JournalRuns.EventLine, TableOf;
    GenuineTable(env, ok, lines, at);
    if k < |s.acked| {
      assert JournalRuns.AckHolds(lines, s.disk.durable, s.acked[k]);
      GenuineTable(env, ok, lines, s.acked[k].0);
      AnEventLine(env, s.acked[k].0, s.acked[k].1);
    }
  }

  lemma AnEventLine(env: Env, at: nat, body: Bytes)
    requires IsEvent(env, body)
    ensures JournalRuns.EventLine(env, at, Stamp(at, body))
  {
  }
}
