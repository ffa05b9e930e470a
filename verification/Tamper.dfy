/** What a passing verification proves about the bytes: checkpoints tile the
    sequence, and a file that passes under the gateway's keys is, up to every
    checkpoint it holds, what the gateway's journal was when it sealed there. */
module Tamper {
  import opened Bytes
  import opened Checkpoints
  import opened Issues
  import opened Journal
  import opened JournalRuns
  import opened Reader
  import opened Verify

  /** The checkpoint parsed from line `i`, if that line is one. */
  function CheckpointAt(env: Env, lines: seq<Bytes>, i: nat): Option<Checkpoint>
    requires i < |lines|
  {
    if IsCheckpointLine(env, lines[i]) then env.parse(Text(lines[i])).value.checkpoint else None
  }

  predicate CoversSeq(cp: Checkpoint, n: nat) { cp.coversFrom <= n <= cp.coversTo }

  ghost predicate NoCheckpointIn(env: Env, lines: seq<Bytes>, from: nat, to: nat)
    requires to <= |lines|
  {
    forall m :: from <= m < to ==> !IsCheckpointLine(env, lines[m])
  }

  /** The replayed `lastCheckpoint` is the number of the last checkpoint line. */
  lemma {:induction false} LastCheckpointIs(env: Env, lines: seq<Bytes>)
    requires forall i :: 0 <= i < |lines| ==> Judge(env, lines, i).Got?
    ensures match Replay(env, lines).lastCheckpoint
      case None => NoCheckpointIn(env, lines, 0, |lines|)
      case Some(k) => 1 <= k <= |lines| && IsCheckpointLine(env, lines[k - 1]) && NoCheckpointIn(env, lines, k, |lines|)
  {
    hide ChainOf, Extend;
    if lines != [] {
      var n := |lines| - 1;
      var init := lines[..n];
      forall i | 0 <= i < n ensures Judge(env, init, i).Got? {
        assert Judge(env, lines, i).Got?;
        assert init[i] == lines[i];
      }
      LastCheckpointIs(env, init);
      assert Judge(env, lines, n).Got?;
      assert forall i :: 0 <= i < n ==> lines[i] == init[i];
    }
  }

  /** A checkpoint covers a number exactly when it is the first checkpoint
      after it and the number is not a checkpoint itself. */
  lemma CoversExactly(env: Env, keys: seq<VerifyingKey>, lines: seq<Bytes>, c: nat, n: nat)
    requires AllOk(env, keys, lines, |lines|) && c < |lines| && IsCheckpointLine(env, lines[c]) && n >= 1
    ensures CheckpointAt(env, lines, c).Some?
    ensures CoversSeq(CheckpointAt(env, lines, c).value, n) <==> n <= c && NoCheckpointIn(env, lines, n - 1, c)
  {
    assert LineOk(env, keys, lines, c);
    forall i | 0 <= i < c ensures Judge(env, lines[..c], i).Got? {
      assert LineOk(env, keys, lines, i);
      LineOkPrefix(env, keys, lines, c, i);
    }
    LastCheckpointIs(env, lines[..c]);
    hide Replay, ChainOf, Label;
    assert forall m :: 0 <= m < c ==> lines[m] == lines[..c][m];
  }

  lemma {:induction false} FirstCheckpointFrom(env: Env, lines: seq<Bytes>, from: nat, last: nat) returns (c: nat)
    requires from <= last < |lines| && IsCheckpointLine(env, lines[last])
    ensures from <= c <= last && IsCheckpointLine(env, lines[c]) && NoCheckpointIn(env, lines, from, c)
    decreases last - from
  {
    if IsCheckpointLine(env, lines[from]) {
      c := from;
    } else {
      c := FirstCheckpointFrom(env, lines, from + 1, last);
    }
  }

  /** In a file that passes, the checkpoints and the ranges they cover tile
      1..(last checkpoint): every number is a checkpoint's own or lies in the
      range of exactly one, never both. */
  lemma CheckpointsTile(env: Env, keys: seq<VerifyingKey>, lines: seq<Bytes>, n: nat, last: nat) returns (c: nat)
    requires AllOk(env, keys, lines, |lines|)
    requires 1 <= n <= last + 1 <= |lines| && IsCheckpointLine(env, lines[last])
    ensures c < |lines| && IsCheckpointLine(env, lines[c])
    ensures IsCheckpointLine(env, lines[n - 1]) ==> c == n - 1
    ensures forall d :: 0 <= d < |lines| && IsCheckpointLine(env, lines[d]) ==> CheckpointAt(env, lines, d).Some?
    ensures forall d :: 0 <= d < |lines| && IsCheckpointLine(env, lines[d]) ==>
      (CoversSeq(CheckpointAt(env, lines, d).value, n) <==> d == c && c != n - 1)
  {
    c := FirstCheckpointFrom(env, lines, n - 1, last);
    forall d | 0 <= d < |lines| && IsCheckpointLine(env, lines[d])
      ensures CheckpointAt(env, lines, d).Some?
      ensures CoversSeq(CheckpointAt(env, lines, d).value, n) <==> d == c && c != n - 1
    {
      CoversExactly(env, keys, lines, d, n);
      hide AllOk, IsCheckpointLine;
    }
  }

  // ---- Tamper evidence -------------------------------------------------------------

  /** Carrying a genuine chain value at a checkpoint forces the lines before it. */
  lemma SameChainSameHistory(env: Env, keys: seq<VerifyingKey>, lines: seq<Bytes>, genuine: seq<Bytes>, c: nat, g: nat)
    requires AllLines(lines) && AllLines(genuine) && c < |lines| && g <= |genuine|
    requires LineOk(env, keys, lines, c) && IsCheckpointLine(env, lines[c])
    requires CheckpointAt(env, lines, c).Some?
    requires CheckpointAt(env, lines, c).value.chain == Label(ChainOf(env.sha, genuine[..g]))
    ensures lines[..c] == genuine[..g] || ChainsCollide(env.sha, lines[..c], genuine[..g])
  {
    hide Label, ChainOf, Replay, CheckSignature, ChainsCollide;
    LabelInjective(ChainOf(env.sha, lines[..c]), ChainOf(env.sha, genuine[..g]));
    ChainBinds(env.sha, lines[..c], genuine[..g]);
  }

  /** The issue is where this payload and this signature come from. */
  ghost predicate SignedIn(i: Issue, cp: Checkpoint, at: nat) {
    Payload(i.checkpoint, |i.lines| + 1) == Payload(cp, at) && i.checkpoint.signature == cp.signature
  }

  /** Nobody but the gateway signs: each signature among these lines that a key
      accepts for its checkpoint is one the run issued for that payload. */
  ghost predicate Unforged(env: Env, keys: seq<VerifyingKey>, issues: seq<Issue>, lines: seq<Bytes>) {
    forall c: nat :: Accepted(env, keys, lines, c) ==>
      exists j :: 0 <= j < |issues| && SignedIn(issues[j], CheckpointAt(env, lines, c).value, c + 1)
  }

  /** Line `c` is a checkpoint whose signature a key accepts. */
  predicate Accepted(env: Env, keys: seq<VerifyingKey>, lines: seq<Bytes>, c: nat) {
    c < |lines| && CheckpointAt(env, lines, c).Some? &&
    CheckSignature(CheckpointAt(env, lines, c).value, c + 1, keys).Valid?
  }

  /** An issue carries the chain over the lines it sealed, in newline-free text. */
  lemma IssueFacts(env: Env, ok: Allowed, i: Issue)
    requires Faithful(env) && IssueOk(env, ok, i)
    ensures i.checkpoint.chain == Label(ChainOf(env.sha, i.lines))
    ensures NL !in i.checkpoint.chain && NL !in i.checkpoint.timestamp
    ensures Carries(env, i.line, |i.lines| + 1, i.checkpoint)
  {
    var policy, stamp :| MadeBy(env, ok, i, policy, stamp);
    hide Faithful, Label, ChainOf, Replay, IsLine, SealLine, Genuine;
    SealFacts(env, ok, i.lines, policy, stamp);
    ReplayChain(env, i.lines);
  }

  lemma CheckpointIsSigned(env: Env, keys: seq<VerifyingKey>, issues: seq<Issue>, lines: seq<Bytes>, c: nat)
    returns (j: nat)
    requires Unforged(env, keys, issues, lines) && |keys| > 0
    requires c < |lines| && LineOk(env, keys, lines, c) && IsCheckpointLine(env, lines[c])
    ensures CheckpointAt(env, lines, c).Some?
    ensures j < |issues| && SignedIn(issues[j], CheckpointAt(env, lines, c).value, c + 1)
  {
    hide SignedIn, Payload, ChainOf, Replay, Label, Covers, CheckSignature;
    assert Accepted(env, keys, lines, c);
    j :| 0 <= j < |issues| && SignedIn(issues[j], CheckpointAt(env, lines, c).value, c + 1);
  }

  /** The lines before checkpoint `c` are those the issue sealed (or hashing the
      two exhibits a collision); and if its write synced, the journal begins
      with those lines and that checkpoint. */
  ghost predicate IsHistoryOf(sha: Hash, lines: seq<Bytes>, c: nat, i: Issue, journal: seq<Bytes>)
    requires c <= |lines|
  {
    && |i.lines| == c && (lines[..c] == i.lines || ChainsCollide(sha, lines[..c], i.lines))
    && (i.synced ==> i.lines + [i.line] <= journal)
  }

  /** Tamper evidence, over every run: whatever file is put in the journal's
      place, if it passes verification and its accepted signatures are the
      gateway's, then for every checkpoint it holds, the gateway sealed exactly
      the lines before it at that number, or a SHA-256 collision is exhibited;
      and the journal still begins with them if that seal synced. */
  lemma PassingFileIsTheGenuineHistory(env: Env, ok: Allowed, keys: seq<VerifyingKey>, events: seq<Event>,
                                       file: Bytes, c: nat)
    returns (j: nat)
    requires Faithful(env) && ValidRun(env, ok, events) && |keys| > 0
    requires Unforged(env, keys, Issued(env, events), Lines(file))
    requires Scanned(env, keys, file).report.problems == []
    requires c < |Lines(file)| && IsCheckpointLine(env, Lines(file)[c])
    ensures j < |Issued(env, events)|
    ensures IsHistoryOf(env.sha, Lines(file), c, Issued(env, events)[j], Lines(Run(env, events).disk.contents))
  {
    var issues, lines := Issued(env, events), Lines(file);
    hide Lines, Scanned, Unforged, Genuine, Faithful, ChainsCollide, ChainOf, LineOk, Label, Payload, Issued, Run,
      IsLine, Numbered, Agrees, IsCheckpointLine, MadeBy, AllIssued, Flat, CheckpointAt;
    VerifyIsExact(env, keys, file);
    LinesCut(file);
    RunIssues(env, ok, events);
    assert LineOk(env, keys, lines, c);
    j := CheckpointIsSigned(env, keys, issues, lines, c);
    var i := issues[j];
    assert IssueOk(env, ok, i);
    IssueFacts(env, ok, i);
    PayloadBinds(i.checkpoint, |i.lines| + 1, CheckpointAt(env, lines, c).value, c + 1);
    GenuineLines(env, ok, i.lines);
    assert i.lines[..|i.lines|] == i.lines;
    SameChainSameHistory(env, keys, lines, i.lines, c, c);
    if i.synced { assert Keeps(Run(env, events).disk, i.lines + [i.line]); }
  }

  lemma LineWasSigned(env: Env, ok: Allowed, disk: Disk, issues: seq<Issue>, c: nat) returns (j: nat)
    requires Faithful(env) && IssuesInv(env, ok, disk, issues)
    requires c < |Lines(disk.contents)| && CheckpointAt(env, Lines(disk.contents), c).Some?
    ensures j < |issues| && SignedIn(issues[j], CheckpointAt(env, Lines(disk.contents), c).value, c + 1)
  {
    hide Lines, Faithful, MadeBy, Genuine, Keeps;
    var lines := Lines(disk.contents);
    j :| 0 <= j < |issues| && SealsLine(issues[j], lines, c);
    assert IssueOk(env, ok, issues[j]);
    hide IssueOk, AllIssued, IssuesInv, Payload, Label, ChainOf;
    IssueFacts(env, ok, issues[j]);
  }

  /** The assumption holds where it should: after every run the journal itself
      carries only issued signatures, under any keys at all; and under keys that
      cover the signers it passes if it has no torn tail. */
  lemma JournalQualifies(env: Env, ok: Allowed, keys: seq<VerifyingKey>, events: seq<Event>)
    requires Faithful(env) && ValidRun(env, ok, events)
    ensures var contents := Run(env, events).disk.contents;
      Unforged(env, keys, Issued(env, events), Lines(contents)) &&
      (KeysCover(ok, keys) && Tail(contents) == [] ==> Scanned(env, keys, contents).report.problems == [])
  {
    var disk, issues := Run(env, events).disk, Issued(env, events);
    hide Run, Issued, Lines, Tail, Scanned, KeysCover, Faithful, IssuesInv, CheckSignature, CheckpointAt, SignedIn;
    RunIssues(env, ok, events);
    if KeysCover(ok, keys) { VerifierAcceptsEveryRun(env, ok, keys, events); }
    forall c: nat | Accepted(env, keys, Lines(disk.contents), c)
      ensures exists j ::
        0 <= j < |issues| && SignedIn(issues[j], CheckpointAt(env, Lines(disk.contents), c).value, c + 1)
    {
      var j := LineWasSigned(env, ok, disk, issues, c);
    }
  }
}
