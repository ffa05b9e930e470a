/** Offline verification of a journal: the report, and exactly which files get
    a report without problems. */
module Verify {
  import opened Bytes
  import opened Checkpoints
  import opened Journal
  import opened Reader
  import opened JournalRuns

  datatype Problem =
    | Unreadable
    | ChainMismatch(at: nat)
    | CoverageMismatch(at: nat)
    | BadSignature(at: nat)
    | UnsignedCheckpoint(at: nat)
    | ExportMissingFromJournal(at: nat)
    | ExportDiffers(at: nat)
    | ExportBeyondJournal(at: nat, last: nat)
    | ExportMissing(at: nat)
    | ExportDuplicate(at: nat)

  datatype Report = Report(
    records: nat,
    checkpoints: nat,
    signed: nat,
    lastSeq: nat,
    sealedThrough: Option<nat>,
    unsealed: nat,
    chain: Digest,
    problems: seq<Problem>)

  /** The scan's loop state: report, previous checkpoint, parsed checkpoint lines. */
  datatype Scan = Scan(report: Report, previous: Option<nat>, sealed: seq<(nat, Bytes)>)

  function NextFrom(previous: Option<nat>): nat {
    if previous.None? then 1 else previous.value + 1
  }

  predicate Covers(cp: Checkpoint, at: nat, previous: Option<nat>) {
    cp.coversFrom == NextFrom(previous) && cp.coversTo + 1 == at && cp.previous == previous
  }

  /** What `check_checkpoint` reports about one parsed checkpoint. */
  function Findings(cp: Checkpoint, at: nat, chain: Digest, previous: Option<nat>,
                    keys: seq<VerifyingKey>): seq<Problem>
  {
    (if cp.chain != Label(chain) then [ChainMismatch(at)] else []) +
    (if !Covers(cp, at, previous) then [CoverageMismatch(at)] else []) +
    (if |keys| == 0 then []
     else
       match CheckSignature(cp, at, keys)
       case Valid => []
       case Unsigned => [UnsignedCheckpoint(at)]
       case Bad => [BadSignature(at)])
  }

  function Visit(env: Env, keys: seq<VerifyingKey>, s: Scan, r: Record): Scan {
    var report := s.report.(records := s.report.records + 1, lastSeq := r.at,
                            chain := Extend(env.sha, r.chainBefore, r.line));
    if !r.IsCheckpoint() then s.(report := report.(unsealed := report.unsealed + 1))
    else
      var counted := report.(checkpoints := report.checkpoints + 1);
      match r.json.checkpoint
      case None => s.(report := counted.(problems := counted.problems + [Unreadable]))
      case Some(cp) =>
        var valid := |keys| > 0 && CheckSignature(cp, r.at, keys).Valid?;
        Scan(counted.(problems := counted.problems + Findings(cp, r.at, r.chainBefore, s.previous, keys),
                      signed := counted.signed + if valid then 1 else 0,
                      sealedThrough := Some(cp.coversTo), unsealed := 0),
             Some(r.at), s.sealed + [(r.at, r.line)])
  }

  function Fresh(env: Env): Scan {
    Scan(Report(0, 0, 0, 0, None, 0, Genesis(env.sha), []), None, [])
  }

  /** The scan after the first `n` records. */
  function ScanTo(env: Env, keys: seq<VerifyingKey>, lines: seq<Bytes>, n: nat): Scan
    requires n <= |lines| && forall i :: 0 <= i < n ==> Judge(env, lines, i).Got?
  {
    if n == 0 then Fresh(env)
    else Visit(env, keys, ScanTo(env, keys, lines, n - 1), Judge(env, lines, n - 1).record)
  }

  /** Everything the scan of a file finds, without exports. */
  function Scanned(env: Env, keys: seq<VerifyingKey>, contents: Bytes): Scan {
    var n := GoodFrom(env, contents, 0);
    var s := ScanTo(env, keys, Lines(contents), n);
    if ItemAt(env, contents, n).End? then s
    else s.(report := s.report.(problems := s.report.problems + [Unreadable]))
  }

  /** The read loop of `verify`. */
  method ScanJournal(env: Env, keys: seq<VerifyingKey>, contents: Bytes) returns (s: Scan)
    ensures s == Scanned(env, keys, contents)
  {
    hide Lines, Tail, Visit, Judge, GoodFrom;
    var reader := new JournalReader.Open(env, contents);
    s := Fresh(env);
    while true
      invariant reader.Valid() && fresh(reader) && !reader.done && reader.env == env && reader.contents == contents
      invariant reader.read <= GoodFrom(env, contents, 0)
      invariant s == ScanTo(env, keys, Lines(contents), reader.read)
      decreases |Lines(contents)| - reader.read
    {
      var item := reader.Next();
      match item {
        case End => return;
        case Broken(_) =>
          s := s.(report := s.report.(problems := s.report.problems + [Unreadable]));
          return;
        case Got(record) =>
          s := Visit(env, keys, s, record);
      }
    }
  }

  // ---- Which files pass ----------------------------------------------------------

  /** Line `i` is readable in sequence, and if it is a checkpoint then it
      carries the chain over all lines before it, covers exactly the range
      since the previous checkpoint, and (given keys) is validly signed. */
  predicate LineOk(env: Env, keys: seq<VerifyingKey>, lines: seq<Bytes>, i: nat)
    requires i < |lines|
  {
    var item := Judge(env, lines, i);
    item.Got? &&
    (item.record.IsCheckpoint() ==>
      item.record.json.checkpoint.Some? &&
      var cp := item.record.json.checkpoint.value;
      cp.chain == Label(ChainOf(env.sha, lines[..i])) &&
      Covers(cp, i + 1, Replay(env, lines[..i]).lastCheckpoint) &&
      (|keys| > 0 ==> CheckSignature(cp, i + 1, keys).Valid?))
  }

  predicate AllOk(env: Env, keys: seq<VerifyingKey>, lines: seq<Bytes>, n: nat)
    requires n <= |lines|
  {
    forall i :: 0 <= i < n ==> LineOk(env, keys, lines, i)
  }

  function LastSealed(w: Writer): Option<nat> {
    match w.lastCheckpoint case None => None case Some(c) => if c == 0 then None else Some(c - 1)
  }

  /** The lines that are checkpoints, with their sequence numbers. */
  function CheckpointLines(env: Env, lines: seq<Bytes>): seq<(nat, Bytes)> {
    if lines == [] then []
    else
      var n := |lines| - 1;
      CheckpointLines(env, lines[..n]) +
        if IsCheckpointLine(env, lines[n]) then [(n + 1, lines[n])] else []
  }

  predicate IsCheckpointLine(env: Env, line: Bytes) {
    var json := env.parse(Text(line));
    json.Some? && json.value.kind == Some(CHECKPOINT_KIND)
  }

  /** A problem-free scan has counted what the writer counts. */
  ghost predicate Agrees(env: Env, keys: seq<VerifyingKey>, lines: seq<Bytes>, s: Scan) {
    var w := Replay(env, lines);
    && s.report.records == s.report.lastSeq == |lines|
    && s.report.unsealed == w.since && s.report.sealedThrough == LastSealed(w)
    && s.report.chain == w.chain && s.previous == w.lastCheckpoint
    && s.sealed == CheckpointLines(env, lines) && s.report.checkpoints == |s.sealed|
    && s.report.signed == if |keys| > 0 then |s.sealed| else 0
  }

  lemma VisitEvent(env: Env, keys: seq<VerifyingKey>, lines: seq<Bytes>, n: nat, s: Scan)
    requires n < |lines| && Judge(env, lines, n).Got? && !Judge(env, lines, n).record.IsCheckpoint()
    requires Agrees(env, keys, lines[..n], s)
    ensures Agrees(env, keys, lines[..n + 1], Visit(env, keys, s, Judge(env, lines, n).record))
  {
    hide ChainOf, Extend;
    assert lines[..n + 1][..n] == lines[..n];
    ReplayChain(env, lines[..n]);
  }

  lemma VisitCheckpoint(env: Env, keys: seq<VerifyingKey>, lines: seq<Bytes>, n: nat, s: Scan)
    requires n < |lines| && LineOk(env, keys, lines, n) && Judge(env, lines, n).record.IsCheckpoint()
    requires Agrees(env, keys, lines[..n], s)
    ensures Agrees(env, keys, lines[..n + 1], Visit(env, keys, s, Judge(env, lines, n).record))
  {
    hide ChainOf, Extend, Label, CheckSignature;
    assert lines[..n + 1][..n] == lines[..n];
    ReplayChain(env, lines[..n]);
  }

  /** A line adds no problem exactly when it is fine. */
  lemma VisitClean(env: Env, keys: seq<VerifyingKey>, lines: seq<Bytes>, n: nat, s: Scan)
    requires n < |lines| && Judge(env, lines, n).Got? && s.previous == Replay(env, lines[..n]).lastCheckpoint
    ensures var t := Visit(env, keys, s, Judge(env, lines, n).record);
      t.report.problems == s.report.problems <==> LineOk(env, keys, lines, n)
  {
    hide ChainOf, Extend, Label, Replay;
    var r := Judge(env, lines, n).record;
    if r.IsCheckpoint() && r.json.checkpoint.Some? {
      var found := Findings(r.json.checkpoint.value, r.at, r.chainBefore, s.previous, keys);
      assert s.report.problems + found == s.report.problems <==> found == [] by {
        assert |s.report.problems + found| == |s.report.problems| + |found|;
      }
    }
  }

  lemma VisitKeepsProblems(env: Env, keys: seq<VerifyingKey>, s: Scan, r: Record)
    ensures s.report.problems <= Visit(env, keys, s, r).report.problems
  {
    hide Findings, Extend;
  }

  lemma {:induction false} ScanClean(env: Env, keys: seq<VerifyingKey>, lines: seq<Bytes>, n: nat)
    requires n <= |lines| && forall i :: 0 <= i < n ==> Judge(env, lines, i).Got?
    ensures var s := ScanTo(env, keys, lines, n);
      (s.report.problems == [] <==> AllOk(env, keys, lines, n)) &&
      (s.report.problems == [] ==> Agrees(env, keys, lines[..n], s))
  {
    hide Judge, Visit, LineOk, Agrees;
    if n == 0 {
      FreshAgrees(env, keys);
      assert lines[..0] == [];
    } else {
      var before := ScanTo(env, keys, lines, n - 1);
      ScanClean(env, keys, lines, n - 1);
      VisitKeepsProblems(env, keys, before, Judge(env, lines, n - 1).record);
      if before.report.problems == [] {
        AgreesPrevious(env, keys, lines[..n - 1], before);
        VisitClean(env, keys, lines, n - 1, before);
        if LineOk(env, keys, lines, n - 1) {
          if Judge(env, lines, n - 1).record.IsCheckpoint() {
            VisitCheckpoint(env, keys, lines, n - 1, before);
          } else {
            VisitEvent(env, keys, lines, n - 1, before);
          }
        }
      }
    }
  }

  lemma FreshAgrees(env: Env, keys: seq<VerifyingKey>)
    ensures Agrees(env, keys, [], Fresh(env))
  {
  }

  lemma AgreesPrevious(env: Env, keys: seq<VerifyingKey>, lines: seq<Bytes>, s: Scan)
    requires Agrees(env, keys, lines, s)
    ensures s.previous == Replay(env, lines).lastCheckpoint
  {
  }

  /** The verifier is exact: it reports nothing if and only if the file ends on
      a line boundary and every line is fine; and then its counts, its sealed
      range and its chain are those a writer over the file would hold. */
  lemma VerifyIsExact(env: Env, keys: seq<VerifyingKey>, contents: Bytes)
    ensures var s := Scanned(env, keys, contents); var lines := Lines(contents);
      (s.report.problems == [] <==> Tail(contents) == [] && AllOk(env, keys, lines, |lines|)) &&
      (s.report.problems == [] ==> Agrees(env, keys, lines, s))
  {
    hide Lines, Tail, Agrees, GoodFrom, ScanTo, Judge;
    var lines, n := Lines(contents), GoodFrom(env, contents, 0);
    ScanClean(env, keys, lines, n);
    assert lines[..|lines|] == lines;
    if n < |lines| { assert !LineOk(env, keys, lines, n); }
  }

  // ---- Genuine journals pass -----------------------------------------------------

  /** With keys given, every signer of the run has its key among them. */
  ghost predicate KeysCover(ok: Allowed, keys: seq<VerifyingKey>) {
    |keys| > 0 ==>
      forall signer: Option<Signer> :: ok(signer) ==>
        signer.Some? && FindKey(keys, signer.value.keyId).Some? &&
        forall p :: FindKey(keys, signer.value.keyId).value.accepts(p, signer.value.sign(p))
  }

  lemma SignedPasses(cp: Checkpoint, at: nat, signer: Signer, keys: seq<VerifyingKey>)
    requires FindKey(keys, signer.keyId).Some?
    requires forall p :: FindKey(keys, signer.keyId).value.accepts(p, signer.sign(p))
    ensures CheckSignature(Sign(cp, at, signer), at, keys).Valid?
  {
    assert PayloadFields(Sign(cp, at, signer), at) == PayloadFields(cp, at);
  }

  lemma SealLineOk(env: Env, ok: Allowed, keys: seq<VerifyingKey>, lines: seq<Bytes>, policy: Policy, stamp: Bytes)
    requires Faithful(env) && KeysCover(ok, keys) && |lines| < U64_MAX && ValidPolicy(ok, policy) && Clean(stamp)
    ensures LineOk(env, keys, lines + [SealLine(env, Replay(env, lines), policy, stamp)], |lines|)
  {
    hide Faithful, Label, Payload, SealLine, Replay, ChainOf, Clean, CleanCheckpoint, IsLine;
    var w := Replay(env, lines);
    var line := SealLine(env, w, policy, stamp);
    SealFacts(env, ok, lines, policy, stamp);
    ReplayChain(env, lines);
    assert (lines + [line])[..|lines|] == lines;
    if |keys| > 0 {
      SignedPasses(NextCheckpoint(w, policy.(signer := None), stamp), |lines| + 1, policy.signer.value, keys);
    }
  }

  lemma GenuineLineOk(env: Env, ok: Allowed, keys: seq<VerifyingKey>, lines: seq<Bytes>, line: Bytes)
    requires Faithful(env) && KeysCover(ok, keys) && NextLine(env, ok, lines, line)
    ensures LineOk(env, keys, lines + [line], |lines|)
  {
    if EventLine(env, |lines| + 1, line) {
      EventFacts(env, |lines| + 1, line);
    } else {
      var policy, stamp :| ValidPolicy(ok, policy) && Clean(stamp) &&
        line == SealLine(env, Replay(env, lines), policy, stamp);
      SealLineOk(env, ok, keys, lines, policy, stamp);
    }
  }

  lemma LineOkPrefix(env: Env, keys: seq<VerifyingKey>, lines: seq<Bytes>, k: nat, i: nat)
    requires i < k <= |lines|
    ensures LineOk(env, keys, lines[..k], i) <==> LineOk(env, keys, lines, i)
  {
    hide ChainOf, Replay, Label, CheckSignature;
    assert lines[..k][..i] == lines[..i];
  }

  lemma {:induction false} GenuineOk(env: Env, ok: Allowed, keys: seq<VerifyingKey>, lines: seq<Bytes>)
    requires Faithful(env) && KeysCover(ok, keys) && Genuine(env, ok, lines)
    ensures AllOk(env, keys, lines, |lines|)
  {
    hide Faithful, KeysCover, LineOk, NextLine;
    if lines != [] {
      var n := |lines| - 1;
      GenuineOk(env, ok, keys, lines[..n]);
      GenuineLineOk(env, ok, keys, lines[..n], lines[n]);
      assert lines[..n] + [lines[n]] == lines;
      forall i | 0 <= i < n ensures LineOk(env, keys, lines, i) {
        assert LineOk(env, keys, lines[..n], i);
        LineOkPrefix(env, keys, lines, n, i);
      }
    }
  }

  /** Verifier completeness, over every run: whatever crashes and restarts the
      journal went through, verification finds a problem only in a torn tail,
      and otherwise reports the writer's own counts. */
  lemma VerifierAcceptsEveryRun(env: Env, ok: Allowed, keys: seq<VerifyingKey>, events: seq<Event>)
    requires Faithful(env) && KeysCover(ok, keys) && ValidRun(env, ok, events)
    ensures var contents := Run(env, events).disk.contents; var s := Scanned(env, keys, contents);
      (s.report.problems == [] <==> Tail(contents) == []) &&
      (s.report.problems == [] ==> Agrees(env, keys, Lines(contents), s))
  {
    hide Faithful, KeysCover, Run, Scanned, Agrees, AllOk;
    RunKeeps(env, ok, events);
    var contents := Run(env, events).disk.contents;
    GenuineOk(env, ok, keys, Lines(contents));
    VerifyIsExact(env, keys, contents);
  }
}
