/** Every checkpoint a run issues: what each sealing step signed and tried to
    write, whether or not the line reached the file. */
module Issues {
  import opened Bytes
  import opened Checkpoints
  import opened Journal
  import opened JournalRuns
  import opened Reader
  import opened Verify

  /** A sealing step: the lines it sealed, what it signed, the line it wrote,
      and whether write and sync worked. */
  datatype Issue = Issue(lines: seq<Bytes>, checkpoint: Checkpoint, line: Bytes, synced: bool)

  function SealIssues(env: Env, policy: Policy, w: Writer, disk: Disk, stamp: Bytes, io: Io): seq<Issue> {
    if w.lastSeq >= U64_MAX then []
    else [Issue(Lines(disk.contents), NextCheckpoint(w, policy, stamp), SealLine(env, w, policy, stamp), io.Synced?)]
  }

  /** What one event issues. */
  function StepIssues(env: Env, s: System, e: Event): seq<Issue> {
    if s.proc.Down? || s.proc.poisoned then []
    else
      var w, policy := s.proc.w, s.proc.policy;
      match e
      case Batch(bodies, io, stamp, sealIo) =>
        if w.lastSeq + |bodies| >= U64_MAX || io.Failed? then []
        else if AfterBatch(env, w, bodies).since < policy.everyRecords then []
        else
          SealIssues(env, policy, AfterBatch(env, w, bodies),
                     Write(s.disk, Flat(StampAll(w.lastSeq + 1, bodies)), io), stamp, sealIo)
      case Tick(due, stamp, io) => if w.since == 0 || !due then [] else SealIssues(env, policy, w, s.disk, stamp, io)
      case Close(stamp, io) => if w.since == 0 then [] else SealIssues(env, policy, w, s.disk, stamp, io)
      case Open(_) => []
      case FailedOpen(_) => []
      case Kill => []
      case PowerLoss(_, _) => []
  }

  /** What a run issues, in order. */
  function Issued(env: Env, events: seq<Event>): seq<Issue> {
    if events == [] then []
    else
      var init := events[..|events| - 1];
      Issued(env, init) + StepIssues(env, Run(env, init), events[|events| - 1])
  }

  // ---- What holds of every issue --------------------------------------------------

  ghost predicate MadeBy(env: Env, ok: Allowed, i: Issue, policy: Policy, stamp: Bytes) {
    && ValidPolicy(ok, policy) && Clean(stamp)
    && i.checkpoint == NextCheckpoint(Replay(env, i.lines), policy, stamp)
    && i.line == SealLine(env, Replay(env, i.lines), policy, stamp)
  }

  /** The issue seals genuine lines with the checkpoint that follows them. */
  ghost predicate IssueOk(env: Env, ok: Allowed, i: Issue) {
    Genuine(env, ok, i.lines) && |i.lines| < U64_MAX && exists policy, stamp :: MadeBy(env, ok, i, policy, stamp)
  }

  /** `lines` are the first lines of the file, inside its durable bytes. */
  ghost predicate Keeps(disk: Disk, lines: seq<Bytes>) {
    lines <= Lines(disk.contents) && |Flat(lines)| <= disk.durable
  }

  ghost predicate SealsLine(i: Issue, lines: seq<Bytes>, k: nat) {
    k < |lines| && i.lines == lines[..k] && i.line == lines[k]
  }

  /** Every checkpoint line of `lines` was issued, over the lines before it. */
  ghost predicate AllIssued(env: Env, lines: seq<Bytes>, issues: seq<Issue>) {
    forall k :: 0 <= k < |lines| && IsCheckpointLine(env, lines[k]) ==>
      exists j :: 0 <= j < |issues| && SealsLine(issues[j], lines, k)
  }

  ghost predicate IssuesInv(env: Env, ok: Allowed, disk: Disk, issues: seq<Issue>) {
    && (forall j :: 0 <= j < |issues| ==> IssueOk(env, ok, issues[j]))
    && (forall j :: 0 <= j < |issues| && issues[j].synced ==> Keeps(disk, issues[j].lines + [issues[j].line]))
    && (forall i, j :: 0 <= i < j < |issues| && issues[i].synced ==> |issues[i].lines| < |issues[j].lines|)
    && AllIssued(env, Lines(disk.contents), issues)
  }

  lemma EventIsNoCheckpoint(env: Env, at: nat, line: Bytes)
    requires at <= U64_MAX
    ensures EventLine(env, at, line) ==> !IsCheckpointLine(env, line)
  {
    if EventLine(env, at, line) { EventFacts(env, at, line); }
  }

  // ---- Durable lines stay ------------------------------------------------------------

  lemma SealGrows(env: Env, policy: Policy, w: Writer, disk: Disk, stamp: Bytes, io: Io)
    requires disk.durable <= |disk.contents|
    ensures var d := Seal(env, policy, w, disk, stamp, io).1;
      disk.contents <= d.contents && disk.durable <= d.durable <= |d.contents|
  {
    hide SealLine;
  }

  lemma StepGrows(env: Env, s: System, e: Event)
    requires s.disk.durable <= |s.disk.contents| && !e.Open? && !e.FailedOpen? && !e.PowerLoss?
    ensures var d := Step(env, s, e).disk; s.disk.contents <= d.contents && s.disk.durable <= d.durable <= |d.contents|
  {
    hide Seal, AfterBatch, Flat, StampAll, Acknowledged;
    if s.proc.Up? && !s.proc.poisoned {
      var w, policy := s.proc.w, s.proc.policy;
      if e.Batch? {
        var written := Write(s.disk, Flat(StampAll(w.lastSeq + 1, e.bodies)), e.io);
        SealGrows(env, policy, AfterBatch(env, w, e.bodies), written, e.stamp, e.sealIo);
      } else if e.Tick? || e.Close? {
        SealGrows(env, policy, w, s.disk, e.stamp, e.sealIo);
      }
    }
  }

  lemma OpenKeepsLines(env: Env, s: System, e: Event)
    requires e.Open? || e.FailedOpen?
    ensures Lines(Step(env, s, e).disk.contents) == Lines(s.disk.contents)
    ensures var d, kept := Step(env, s, e).disk, |Flat(Lines(s.disk.contents))|;
      d.durable == s.disk.durable || d.durable == kept
  {
    CutLeaves(s.disk.contents);
    hide Lines, Tail, Flat, Readable, Replay;
  }

  lemma LossKeepsFirst(env: Env, s: System, e: Event, lines: seq<Bytes>)
    requires s.disk.durable <= |s.disk.contents| && Keeps(s.disk, lines) && e.PowerLoss? && NL !in e.back
    ensures Keeps(Step(env, s, e).disk, lines)
  {
    hide Lines, Flat;
    var all := Lines(s.disk.contents);
    var j := LossLeaves(s.disk, Clamp(s.disk.durable, e.kept, |s.disk.contents|), e.back);
    assert lines == all[..|lines|];
    assert |lines| <= j;
  }

  lemma OpenKeepsFirst(env: Env, s: System, e: Event, lines: seq<Bytes>)
    requires Keeps(s.disk, lines) && (e.Open? || e.FailedOpen?)
    ensures Keeps(Step(env, s, e).disk, lines)
  {
    hide Lines, Flat, Step;
    var all := Lines(s.disk.contents);
    OpenKeepsLines(env, s, e);
    assert lines == all[..|lines|];
    FlatSplit(all, |lines|);
  }

  /** First lines inside the durable bytes stay, whatever happens next. */
  lemma StepKeepsLines(env: Env, s: System, e: Event, lines: seq<Bytes>)
    requires s.disk.durable <= |s.disk.contents| && Keeps(s.disk, lines) && (e.PowerLoss? ==> NL !in e.back)
    ensures Keeps(Step(env, s, e).disk, lines)
  {
    hide Step, Lines, Flat;
    if e.Open? || e.FailedOpen? {
      OpenKeepsFirst(env, s, e, lines);
    } else if e.PowerLoss? {
      LossKeepsFirst(env, s, e, lines);
    } else {
      StepGrows(env, s, e);
      LinesPrefix(s.disk.contents, Step(env, s, e).disk.contents);
    }
  }

  // ---- Every checkpoint line was issued --------------------------------------------------

  lemma IssuedPrefix(env: Env, lines: seq<Bytes>, j: nat, issues: seq<Issue>, more: seq<Issue>)
    requires AllIssued(env, lines, issues) && j <= |lines|
    ensures AllIssued(env, lines[..j], issues + more)
  {
    hide IsCheckpointLine;
    forall k | 0 <= k < j && IsCheckpointLine(env, lines[..j][k])
      ensures exists i :: 0 <= i < |issues + more| && SealsLine((issues + more)[i], lines[..j], k)
    {
      var i :| 0 <= i < |issues| && SealsLine(issues[i], lines, k);
      assert lines[..j][..k] == lines[..k];
      assert SealsLine((issues + more)[i], lines[..j], k);
    }
  }

  /** A line added after issued lines: no checkpoint, or sealed by the last issue. */
  lemma IssuedPush(env: Env, lines: seq<Bytes>, line: Bytes, issues: seq<Issue>)
    requires AllIssued(env, lines, issues)
    requires !IsCheckpointLine(env, line) ||
      exists j :: 0 <= j < |issues| && SealsLine(issues[j], lines + [line], |lines|)
    ensures AllIssued(env, lines + [line], issues)
  {
    hide IsCheckpointLine;
    var all := lines + [line];
    forall k | 0 <= k < |all| && IsCheckpointLine(env, all[k])
      ensures exists i :: 0 <= i < |issues| && SealsLine(issues[i], all, k)
    {
      if k < |lines| {
        var i :| 0 <= i < |issues| && SealsLine(issues[i], lines, k);
        assert all[..k] == lines[..k];
        assert SealsLine(issues[i], all, k);
      }
    }
  }

  lemma {:induction false} IssuedEvents(env: Env, lines: seq<Bytes>, bodies: seq<Bytes>, issues: seq<Issue>)
    requires AllIssued(env, lines, issues) && AllEvents(env, bodies) && |lines| + |bodies| <= U64_MAX
    ensures AllIssued(env, lines + StampAll(|lines| + 1, bodies), issues)
    decreases |bodies|
  {
    hide IsCheckpointLine, IsEvent, Stamp, AllIssued;
    if bodies == [] {
      assert lines + StampAll(|lines| + 1, bodies) == lines;
    } else {
      var n := |bodies| - 1;
      var before, line := lines + StampAll(|lines| + 1, bodies[..n]), Stamp(|lines| + 1 + n, bodies[n]);
      IssuedEvents(env, lines, bodies[..n], issues);
      assert EventLine(env, |lines| + 1 + n, line);
      EventIsNoCheckpoint(env, |lines| + 1 + n, line);
      IssuedPush(env, before, line, issues);
      assert lines + StampAll(|lines| + 1, bodies) == before + [line];
    }
  }

  lemma KeepsGrow(disk: Disk, d: Disk, issues: seq<Issue>)
    requires disk.contents <= d.contents && disk.durable <= d.durable
    requires forall j :: 0 <= j < |issues| && issues[j].synced ==> Keeps(disk, issues[j].lines + [issues[j].line])
    ensures forall j :: 0 <= j < |issues| && issues[j].synced ==> Keeps(d, issues[j].lines + [issues[j].line])
  {
    hide Lines, Flat;
    LinesPrefix(disk.contents, d.contents);
  }

  lemma KeptBelow(disk: Disk, issues: seq<Issue>)
    requires forall j :: 0 <= j < |issues| && issues[j].synced ==> Keeps(disk, issues[j].lines + [issues[j].line])
    ensures forall j :: 0 <= j < |issues| && issues[j].synced ==> |issues[j].lines| < |Lines(disk.contents)|
  {
    hide Lines, Flat;
  }

  lemma IssuesPush(env: Env, ok: Allowed, disk: Disk, issues: seq<Issue>, i: Issue)
    requires forall j :: 0 <= j < |issues| ==> IssueOk(env, ok, issues[j])
    requires forall j :: 0 <= j < |issues| && issues[j].synced ==> Keeps(disk, issues[j].lines + [issues[j].line])
    requires forall j, k :: 0 <= j < k < |issues| && issues[j].synced ==> |issues[j].lines| < |issues[k].lines|
    requires forall j :: 0 <= j < |issues| && issues[j].synced ==> |issues[j].lines| < |i.lines|
    requires IssueOk(env, ok, i) && (i.synced ==> Keeps(disk, i.lines + [i.line]))
    requires AllIssued(env, Lines(disk.contents), issues + [i])
    ensures IssuesInv(env, ok, disk, issues + [i])
  {
    hide IssueOk, Keeps, AllIssued;
  }

  lemma SealExtends(env: Env, ok: Allowed, lines: seq<Bytes>, policy: Policy, stamp: Bytes)
    requires Faithful(env) && ValidPolicy(ok, policy) && Clean(stamp) && Genuine(env, ok, lines) && |lines| < U64_MAX
    ensures var line := SealLine(env, Replay(env, lines), policy, stamp);
      Genuine(env, ok, lines + [line]) && AllLines(lines + [line])
  {
    hide Genuine, Faithful, Replay, SealLine, IsLine, AllLines, NextCheckpoint, ValidPolicy, Account;
    var line := SealLine(env, Replay(env, lines), policy, stamp);
    assert SealedBy(env, ok, Replay(env, lines), line);
    PushLine(env, ok, lines, line);
    GenuineLines(env, ok, lines + [line]);
  }

  lemma IssuedSeal(env: Env, issues: seq<Issue>, i: Issue, j: nat)
    requires AllIssued(env, i.lines, issues) && j <= |i.lines| + 1
    ensures AllIssued(env, (i.lines + [i.line])[..j], issues + [i])
  {
    hide AllIssued, IsCheckpointLine;
    var lines, all := i.lines, i.lines + [i.line];
    IssuedPrefix(env, lines, |lines|, issues, [i]);
    assert lines[..|lines|] == lines && all[..|lines|] == lines;
    assert SealsLine((issues + [i])[|issues|], all, |lines|);
    IssuedPush(env, lines, i.line, issues + [i]);
    IssuedPrefix(env, all, j, issues + [i], []);
    assert issues + [i] + [] == issues + [i];
  }

  /** The lines and the issues after a sealing write. */
  lemma SealIssued(env: Env, ok: Allowed, disk: Disk, policy: Policy, stamp: Bytes, io: Io, issues: seq<Issue>,
                   i: Issue)
    requires Faithful(env) && ValidPolicy(ok, policy) && Clean(stamp) && Tail(disk.contents) == []
    requires Genuine(env, ok, Lines(disk.contents)) && |Lines(disk.contents)| < U64_MAX
    requires AllIssued(env, Lines(disk.contents), issues) && disk.durable <= |disk.contents|
    requires [i] == SealIssues(env, policy, Replay(env, Lines(disk.contents)), disk, stamp, io)
    ensures IssueOk(env, ok, i)
    ensures var d := Write(disk, i.line, io);
      AllIssued(env, Lines(d.contents), issues + [i]) && (io.Synced? ==> Keeps(d, i.lines + [i.line]))
  {
    var lines := Lines(disk.contents);
    LinesCut(disk.contents);
    assert i.lines == lines;
    var line := i.line;
    hide Lines, Tail, Flat, Genuine, Faithful, Replay, SealLine, IsLine, AllLines, AllIssued, Write, Keeps,
      NextCheckpoint, ValidPolicy;
    assert MadeBy(env, ok, i, policy, stamp);
    SealExtends(env, ok, lines, policy, stamp);
    FlatOne(line);
    var j := AppendCut(disk, lines, [line], io);
    IssuedSeal(env, issues, i, j);
    AppendLines(env, ok, disk, lines, [line], io);
    if io.Synced? { KeepsAll(Write(disk, line, io)); }
  }

  lemma KeepsAll(disk: Disk)
    requires disk.durable == |Flat(Lines(disk.contents))|
    ensures Keeps(disk, Lines(disk.contents))
  {
  }

  lemma SealInv(env: Env, ok: Allowed, disk: Disk, policy: Policy, stamp: Bytes, io: Io, issues: seq<Issue>)
    requires Faithful(env) && ValidPolicy(ok, policy) && Clean(stamp) && Tail(disk.contents) == []
    requires Genuine(env, ok, Lines(disk.contents)) && IssuesInv(env, ok, disk, issues)
    requires disk.durable <= |disk.contents|
    ensures var w := Replay(env, Lines(disk.contents));
      IssuesInv(env, ok, Seal(env, policy, w, disk, stamp, io).1, issues + SealIssues(env, policy, w, disk, stamp, io))
  {
    hide Lines, Tail, Flat, Genuine, Faithful, Replay, SealLine, AllIssued, IssueOk, Keeps, Write;
    var w := Replay(env, Lines(disk.contents));
    var made := SealIssues(env, policy, w, disk, stamp, io);
    if made == [] {
      assert issues + made == issues;
    } else {
      var i := made[0];
      SealIssued(env, ok, disk, policy, stamp, io, issues, i);
      SealGrows(env, policy, w, disk, stamp, io);
      KeepsGrow(disk, Write(disk, i.line, io), issues);
      KeptBelow(disk, issues);
      IssuesPush(env, ok, Write(disk, i.line, io), issues, i);
    }
  }

  /** The written part of a batch issues nothing and adds no checkpoint. */
  lemma EventsInv(env: Env, ok: Allowed, s: System, bodies: seq<Bytes>, io: Io, issues: seq<Issue>)
    requires Faithful(env) && Inv(env, ok, s) && s.proc.Up? && !s.proc.poisoned && IssuesInv(env, ok, s.disk, issues)
    requires AllEvents(env, bodies) && s.proc.w.lastSeq + |bodies| < U64_MAX
    ensures IssuesInv(env, ok, Write(s.disk, Flat(StampAll(s.proc.w.lastSeq + 1, bodies)), io), issues)
  {
    hide Genuine, Replay, Lines, Tail, Flat, StampAll, AllEvents, Faithful, AcksHold, Write, IsLine, AllLines,
      AllIssued, IssueOk, Keeps;
    var lines := Lines(s.disk.contents);
    var more := StampAll(|lines| + 1, bodies);
    var d := Write(s.disk, Flat(more), io);
    WholeLines(env, ok, s);
    PushEvents(env, ok, lines, bodies);
    GenuineLines(env, ok, lines + more);
    var j := AppendCut(s.disk, lines, more, io);
    IssuedEvents(env, lines, bodies, issues);
    IssuedPrefix(env, lines + more, j, issues, []);
    assert issues + [] == issues;
    WriteGrows(s.disk, Flat(more), io);
    KeepsGrow(s.disk, d, issues);
  }

  lemma WriteGrows(disk: Disk, buffer: Bytes, io: Io)
    requires disk.durable <= |disk.contents|
    ensures var d := Write(disk, buffer, io); disk.contents <= d.contents && disk.durable <= d.durable
  {
  }

  /** A batch, its events and the checkpoint it may end with. */
  lemma BatchInv(env: Env, ok: Allowed, s: System, e: Event, issues: seq<Issue>)
    requires Faithful(env) && Inv(env, ok, s) && IssuesInv(env, ok, s.disk, issues)
    requires e.Batch? && ValidEvent(env, ok, e) && s.proc.Up? && !s.proc.poisoned
    ensures IssuesInv(env, ok, Step(env, s, e).disk, issues + StepIssues(env, s, e))
  {
    hide Genuine, Replay, Lines, Tail, Flat, StampAll, AfterBatch, AllEvents, Faithful, AcksHold, Acknowledged,
      Seal, SealIssues, IssuesInv, Write;
    var w := s.proc.w;
    assert issues + [] == issues;
    if w.lastSeq + |e.bodies| < U64_MAX {
      EventsInv(env, ok, s, e.bodies, e.io, issues);
      BatchWrites(env, ok, s, e.bodies, e.io);
      var d := Write(s.disk, Flat(StampAll(w.lastSeq + 1, e.bodies)), e.io);
      if e.io.Synced? { SealInv(env, ok, d, s.proc.policy, e.stamp, e.sealIo, issues); }
    }
  }

  lemma QuietInv(env: Env, ok: Allowed, s: System, e: Event, issues: seq<Issue>)
    requires Inv(env, ok, s) && IssuesInv(env, ok, s.disk, issues) && ValidEvent(env, ok, e)
    requires e.Open? || e.FailedOpen? || e.PowerLoss?
    ensures IssuesInv(env, ok, Step(env, s, e).disk, issues)
  {
    forall j | 0 <= j < |issues| && issues[j].synced
      ensures Keeps(Step(env, s, e).disk, issues[j].lines + [issues[j].line])
    {
      StepKeepsLines(env, s, e, issues[j].lines + [issues[j].line]);
    }
    var lines := Lines(s.disk.contents);
    assert issues + [] == issues;
    if e.Open? || e.FailedOpen? {
      OpenKeepsLines(env, s, e);
    } else {
      var j := LossLeaves(s.disk, Clamp(s.disk.durable, e.kept, |s.disk.contents|), e.back);
      hide Lines, Genuine, IssueOk, Keeps;
      IssuedPrefix(env, lines, j, issues, []);
    }
  }

  lemma StepIssuesInv(env: Env, ok: Allowed, s: System, e: Event, issues: seq<Issue>)
    requires Faithful(env) && Inv(env, ok, s) && IssuesInv(env, ok, s.disk, issues) && ValidEvent(env, ok, e)
    ensures IssuesInv(env, ok, Step(env, s, e).disk, issues + StepIssues(env, s, e))
  {
    hide Genuine, Replay, Lines, Tail, Flat, AllEvents, Faithful, AcksHold, Commit, Seal, SealIssues, IssuesInv;
    assert issues + [] == issues;
    match e
    case Open(_) => QuietInv(env, ok, s, e, issues);
    case FailedOpen(_) => QuietInv(env, ok, s, e, issues);
    case PowerLoss(_, _) => QuietInv(env, ok, s, e, issues);
    case Kill =>
    case Batch(_, _, _, _) => if s.proc.Up? && !s.proc.poisoned { BatchInv(env, ok, s, e, issues); }
    case Tick(due, stamp, io) =>
      if s.proc.Up? && !s.proc.poisoned { SealInv(env, ok, s.disk, s.proc.policy, stamp, io, issues); }
    case Close(stamp, io) =>
      if s.proc.Up? && !s.proc.poisoned { SealInv(env, ok, s.disk, s.proc.policy, stamp, io, issues); }
  }

  /** Over every run: each issue seals genuine lines; if it synced, those lines
      and its own are the first lines of the journal ever after, and every later
      issue seals more lines; and the
      journal holds no checkpoint that was not issued over the lines before it. */
  lemma {:induction false} RunIssues(env: Env, ok: Allowed, events: seq<Event>)
    requires Faithful(env) && ValidRun(env, ok, events)
    ensures IssuesInv(env, ok, Run(env, events).disk, Issued(env, events))
    decreases |events|
  {
    if events == [] {
      assert Lines([]) == [];
    } else {
      hide Step, StepIssues, IssuesInv, Faithful;
      var init := events[..|events| - 1];
      RunIssues(env, ok, init);
      RunKeeps(env, ok, init);
      StepIssuesInv(env, ok, Run(env, init), events[|events| - 1], Issued(env, init));
    }
  }
}
