/** What every run of the journal keeps: batches, ticks, checkpoints, failed
    writes, kills, power losses and restarts, in any order. */
module JournalRuns {
  import opened Bytes
  import opened Decimal
  import opened Checkpoints
  import opened Journal

  /** Which signers (or none) the gateway was configured with over the run. */
  type Allowed = Option<Signer> -> bool

  ghost predicate ValidPolicy(ok: Allowed, policy: Policy) {
    ok(policy.signer) &&
    (policy.signer.Some? ==> Clean(policy.signer.value.keyId) && forall p :: Clean(policy.signer.value.sign(p)))
  }

  ghost predicate AllEvents(env: Env, bodies: seq<Bytes>) {
    forall i :: 0 <= i < |bodies| ==> IsEvent(env, bodies[i])
  }

  ghost predicate ValidEvent(env: Env, ok: Allowed, e: Event) {
    match e
    case Open(policy) => ValidPolicy(ok, policy)
    case Batch(bodies, _, stamp, _) => Clean(stamp) && AllEvents(env, bodies)
    case Tick(_, stamp, _) => Clean(stamp)
    case Close(stamp, _) => Clean(stamp)
    case FailedOpen(_) => true
    case Kill => true
    case PowerLoss(_, back) => NL !in back
  }

  ghost predicate ValidRun(env: Env, ok: Allowed, events: seq<Event>) {
    forall i :: 0 <= i < |events| ==> ValidEvent(env, ok, events[i])
  }

  // ---- Journals the writer can produce ----------------------------------------

  ghost predicate EventLine(env: Env, at: nat, line: Bytes) {
    exists body :: IsEvent(env, body) && line == Stamp(at, body)
  }

  ghost predicate SealedBy(env: Env, ok: Allowed, w: Writer, line: Bytes) {
    exists policy, stamp :: ValidPolicy(ok, policy) && Clean(stamp) && line == SealLine(env, w, policy, stamp)
  }

  ghost predicate NextLine(env: Env, ok: Allowed, lines: seq<Bytes>, line: Bytes) {
    |lines| < U64_MAX && (EventLine(env, |lines| + 1, line) || SealedBy(env, ok, Replay(env, lines), line))
  }

  /** Each line is an event or a checkpoint over everything before it. */
  ghost predicate Genuine(env: Env, ok: Allowed, lines: seq<Bytes>) {
    lines == [] ||
    (Genuine(env, ok, lines[..|lines| - 1]) && NextLine(env, ok, lines[..|lines| - 1], lines[|lines| - 1]))
  }

  /** The checkpoint a genuine checkpoint line carries. */
  ghost predicate Carries(env: Env, line: Bytes, at: nat, cp: Checkpoint) {
    env.parse(Text(line)) == Some(Json(Some(at), Some(CHECKPOINT_KIND), Some(cp)))
  }

  lemma StampIsLine(at: nat, body: Bytes)
    requires NL !in body
    ensures IsLine(Stamp(at, body))
  {
    DigitsShape(at);
    assert Text(Stamp(at, body)) == SEQ_PREFIX + Digits(at) + [COMMA] + if |body| > 0 then body[1..] else [];
  }

  lemma {:induction false} ReplayBounds(env: Env, lines: seq<Bytes>)
    ensures var w := Replay(env, lines);
      (w.lastCheckpoint.Some? ==>
        1 <= w.lastCheckpoint.value <= |lines| && w.since == |lines| - w.lastCheckpoint.value) &&
      (w.lastCheckpoint.None? ==> w.since == |lines|)
  {
    if lines != [] { ReplayBounds(env, lines[..|lines| - 1]); }
  }

  lemma {:induction false} ReplayChain(env: Env, lines: seq<Bytes>)
    ensures Replay(env, lines).chain == ChainOf(env.sha, lines)
  {
    if lines != [] { ReplayChain(env, lines[..|lines| - 1]); }
  }

  lemma EventFacts(env: Env, at: nat, line: Bytes)
    requires at <= U64_MAX && EventLine(env, at, line)
    ensures IsLine(line) && ParseSeq(env, Text(line)) == Some((at, false))
    ensures env.parse(Text(line)).Some? && env.parse(Text(line)).value.kind.Some?
  {
    var body :| IsEvent(env, body) && line == Stamp(at, body);
    StampIsLine(at, body);
    assert ReadsAsEvent(env.parse(Text(Stamp(at, body))), at);
  }

  lemma {:induction false} SealFacts(env: Env, ok: Allowed, lines: seq<Bytes>, policy: Policy, stamp: Bytes)
    requires Faithful(env) && |lines| < U64_MAX && ValidPolicy(ok, policy) && Clean(stamp)
    ensures var w := Replay(env, lines); var line := SealLine(env, w, policy, stamp);
      IsLine(line) && Carries(env, line, |lines| + 1, NextCheckpoint(w, policy, stamp)) &&
      ParseSeq(env, Text(line)) == Some((|lines| + 1, true)) &&
      CleanCheckpoint(NextCheckpoint(w, policy, stamp))
  {
    hide Digits, Label, Payload, Stamp, Replay, IsLine;
    var w := Replay(env, lines);
    ReplayBounds(env, lines);
    LabelClean(w.chain);
    var cp := NextCheckpoint(w, policy, stamp);
    StampIsLine(|lines| + 1, env.render(cp));
  }

  /** What both kinds of line have in common. */
  lemma NextLineFacts(env: Env, ok: Allowed, lines: seq<Bytes>, line: Bytes)
    requires Faithful(env) && NextLine(env, ok, lines, line)
    ensures IsLine(line) && Numbered(env, line, |lines| + 1)
  {
    if EventLine(env, |lines| + 1, line) {
      EventFacts(env, |lines| + 1, line);
    } else {
      var policy, stamp :| ValidPolicy(ok, policy) && Clean(stamp) &&
        line == SealLine(env, Replay(env, lines), policy, stamp);
      SealFacts(env, ok, lines, policy, stamp);
    }
  }

  lemma {:induction false} GenuinePrefix(env: Env, ok: Allowed, lines: seq<Bytes>, k: nat)
    requires Genuine(env, ok, lines) && k <= |lines|
    ensures Genuine(env, ok, lines[..k])
    decreases |lines|
  {
    if k == |lines| {
      assert lines[..k] == lines;
    } else {
      GenuinePrefix(env, ok, lines[..|lines| - 1], k);
      assert lines[..|lines| - 1][..k] == lines[..k];
    }
  }

  lemma {:induction false} GenuineLines(env: Env, ok: Allowed, lines: seq<Bytes>)
    requires Faithful(env) && Genuine(env, ok, lines)
    ensures AllLines(lines) && |lines| <= U64_MAX
    ensures forall i :: 0 <= i < |lines| ==> Numbered(env, lines[i], i + 1)
  {
    hide Faithful, EventLine, SealedBy, IsLine, Numbered;
    if lines != [] {
      var init := lines[..|lines| - 1];
      GenuineLines(env, ok, init);
      NextLineFacts(env, ok, init, lines[|lines| - 1]);
      assert forall i :: 0 <= i < |init| ==> lines[i] == init[i];
    }
  }

  lemma PushLine(env: Env, ok: Allowed, lines: seq<Bytes>, line: Bytes)
    requires Genuine(env, ok, lines) && NextLine(env, ok, lines, line)
    ensures Genuine(env, ok, lines + [line])
    ensures Replay(env, lines + [line]) == Account(env, Replay(env, lines), line)
  {
    assert (lines + [line])[..|lines|] == lines;
  }

  lemma StampPush(first: nat, bodies: seq<Bytes>, body: Bytes)
    ensures StampAll(first, bodies + [body]) == StampAll(first, bodies) + [Stamp(first + |bodies|, body)]
  {
    hide Stamp;
    assert (bodies + [body])[..|bodies|] == bodies;
  }

  lemma ExtendPush(sha: Hash, chain: Digest, lines: seq<Bytes>, line: Bytes)
    ensures ExtendAll(sha, chain, lines + [line]) == Extend(sha, ExtendAll(sha, chain, lines), line)
  {
    hide Extend;
    assert (lines + [line])[..|lines|] == lines;
  }

  lemma {:induction false} StampAt(first: nat, bodies: seq<Bytes>, i: nat)
    requires i < |bodies|
    ensures StampAll(first, bodies)[i] == Stamp(first + i, bodies[i])
    decreases |bodies|
  {
    hide Stamp;
    var n := |bodies| - 1;
    if i < n { StampAt(first, bodies[..n], i); }
  }

  lemma PushEvent(env: Env, ok: Allowed, lines: seq<Bytes>, body: Bytes)
    requires Genuine(env, ok, lines) && |lines| < U64_MAX && IsEvent(env, body)
    ensures var line := Stamp(|lines| + 1, body); var w := Replay(env, lines);
      Genuine(env, ok, lines + [line]) &&
      Replay(env, lines + [line]) == Writer(|lines| + 1, Extend(env.sha, w.chain, line), w.lastCheckpoint, w.since + 1)
  {
    var line := Stamp(|lines| + 1, body);
    assert EventLine(env, |lines| + 1, line);
    EventFacts(env, |lines| + 1, line);
    PushLine(env, ok, lines, line);
  }

  /** One more event in a batch, on the writer's side. */
  lemma AfterBatchPush(env: Env, w: Writer, bodies: seq<Bytes>, body: Bytes)
    ensures var b, line := AfterBatch(env, w, bodies), Stamp(w.lastSeq + 1 + |bodies|, body);
      AfterBatch(env, w, bodies + [body]) ==
      Writer(b.lastSeq + 1, Extend(env.sha, b.chain, line), b.lastCheckpoint, b.since + 1)
  {
    hide Stamp, StampAll, Extend, ExtendAll;
    StampPush(w.lastSeq + 1, bodies, body);
    ExtendPush(env.sha, w.chain, StampAll(w.lastSeq + 1, bodies), Stamp(w.lastSeq + 1 + |bodies|, body));
  }

  /** One more event in a batch, on the journal's side. */
  lemma PushEventsStep(env: Env, ok: Allowed, w: Writer, bodies: seq<Bytes>, body: Bytes, all: seq<Bytes>, line: Bytes)
    requires |all| == w.lastSeq + |bodies| < U64_MAX && line == Stamp(|all| + 1, body) && IsEvent(env, body)
    requires Genuine(env, ok, all) && Replay(env, all) == AfterBatch(env, w, bodies)
    ensures Genuine(env, ok, all + [line]) && Replay(env, all + [line]) == AfterBatch(env, w, bodies + [body])
  {
    hide Stamp, Replay, Genuine, IsEvent, Extend, AfterBatch;
    PushEvent(env, ok, all, body);
    AfterBatchPush(env, w, bodies, body);
  }

  lemma PushNoEvents(env: Env, w: Writer, lines: seq<Bytes>)
    ensures lines + StampAll(|lines| + 1, []) == lines && AfterBatch(env, w, []) == w
  {
  }

  lemma {:induction false} PushEvents(env: Env, ok: Allowed, lines: seq<Bytes>, bodies: seq<Bytes>)
    requires Genuine(env, ok, lines) && |lines| + |bodies| <= U64_MAX && AllEvents(env, bodies)
    ensures Genuine(env, ok, lines + StampAll(|lines| + 1, bodies))
    ensures Replay(env, lines + StampAll(|lines| + 1, bodies)) == AfterBatch(env, Replay(env, lines), bodies)
    decreases |bodies|
  {
    hide IsEvent, Stamp, StampAll, AfterBatch, Replay, Genuine;
    if bodies == [] {
      PushNoEvents(env, Replay(env, lines), lines);
    } else {
      var n := |bodies| - 1;
      var init, more, line := bodies[..n], StampAll(|lines| + 1, bodies[..n]), Stamp(|lines| + 1 + n, bodies[n]);
      PushEvents(env, ok, lines, init);
      PushEventsStep(env, ok, Replay(env, lines), init, bodies[n], lines + more, line);
      StampPush(|lines| + 1, init, bodies[n]);
      Associative(lines, more, [line]);
      assert bodies == init + [bodies[n]];
    }
  }

  // ---- The invariant -------------------------------------------------------------

  /** One acknowledged record is exactly line `ack.0`, inside the durable bytes. */
  ghost predicate AckHolds(lines: seq<Bytes>, durable: nat, ack: (nat, Bytes)) {
    1 <= ack.0 <= |lines| && lines[ack.0 - 1] == Stamp(ack.0, ack.1) &&
    |Flat(lines[..ack.0])| <= durable
  }

  ghost predicate AcksHold(lines: seq<Bytes>, durable: nat, acked: seq<(nat, Bytes)>) {
    && (forall i :: 0 <= i < |acked| ==> AckHolds(lines, durable, acked[i]))
    && (forall i, j :: 0 <= i < j < |acked| ==> acked[i].0 < acked[j].0)
  }

  ghost predicate Inv(env: Env, ok: Allowed, s: System) {
    var lines := Lines(s.disk.contents);
    && s.disk.durable <= |s.disk.contents|
    && Genuine(env, ok, lines)
    && AcksHold(lines, s.disk.durable, s.acked)
    && (s.proc.Up? ==> ValidPolicy(ok, s.proc.policy))
    && (s.proc.Up? && !s.proc.poisoned ==> Tail(s.disk.contents) == [] && s.proc.w == Replay(env, lines))
  }

  lemma AcksGrow(lines: seq<Bytes>, durable: nat, acked: seq<(nat, Bytes)>, lines': seq<Bytes>, durable': nat)
    requires AcksHold(lines, durable, acked) && durable <= durable'
    requires lines <= lines'
    ensures AcksHold(lines', durable', acked)
  {
    forall i | 0 <= i < |acked| ensures AckHolds(lines', durable', acked[i]) {
      assert AckHolds(lines, durable, acked[i]);
      assert lines'[..acked[i].0] == lines[..acked[i].0];
    }
  }

  /** A write over a whole-line file leaves whole new lines and a torn rest. */
  lemma AppendCut(disk: Disk, lines: seq<Bytes>, more: seq<Bytes>, io: Io) returns (j: nat)
    requires Cut(disk.contents, lines, []) && AllLines(lines + more)
    ensures |lines| <= j <= |lines + more|
    ensures Lines(Write(disk, Flat(more), io).contents) == (lines + more)[..j]
    ensures io.Synced? ==> j == |lines + more| && Tail(Write(disk, Flat(more), io).contents) == []
  {
    hide Flat, Lines, Tail, IsLine, AllLines;
    var d := Write(disk, Flat(more), io);
    var full := lines + more;
    FlatConcat(lines, more);
    var rest;
    assert d.contents == (Flat(full) + [])[..|d.contents|];
    j, rest := CutPrefix(full, [], |d.contents|);
    CutUnique(d.contents, full[..j], rest);
    assert full[..|lines|] == lines && full[..|full|] == full;
  }

  lemma AppendLines(env: Env, ok: Allowed, disk: Disk, lines: seq<Bytes>, more: seq<Bytes>, io: Io)
    requires Faithful(env) && Cut(disk.contents, lines, []) && Genuine(env, ok, lines + more)
    requires disk.durable <= |disk.contents|
    ensures var d := Write(disk, Flat(more), io); var all := Lines(d.contents);
      lines <= all && Genuine(env, ok, all) && disk.durable <= d.durable <= |d.contents| &&
      (io.Synced? ==> all == lines + more && Tail(d.contents) == [] && d.durable == |Flat(all)|)
  {
    hide Genuine, Faithful, Lines, Tail, Flat, IsLine, AllLines;
    GenuineLines(env, ok, lines + more);
    var j := AppendCut(disk, lines, more, io);
    GenuinePrefix(env, ok, lines + more, j);
    FlatConcat(lines, more);
  }

  lemma WholeLines(env: Env, ok: Allowed, s: System)
    requires Inv(env, ok, s) && s.proc.Up? && !s.proc.poisoned
    ensures Cut(s.disk.contents, Lines(s.disk.contents), [])
  {
    LinesCut(s.disk.contents);
  }

  lemma SealKeeps(env: Env, ok: Allowed, disk: Disk, acked: seq<(nat, Bytes)>, policy: Policy, stamp: Bytes, io: Io)
    requires Faithful(env) && ValidPolicy(ok, policy) && Clean(stamp)
    requires var lines := Lines(disk.contents);
      Tail(disk.contents) == [] && Genuine(env, ok, lines) && disk.durable <= |disk.contents| &&
      AcksHold(lines, disk.durable, acked)
    ensures var t := Seal(env, policy, Replay(env, Lines(disk.contents)), disk, stamp, io);
      Inv(env, ok, System(t.1, Up(t.0, policy, !t.2), acked)) && Inv(env, ok, System(t.1, Down, acked))
  {
    hide Genuine, Faithful, Lines, Tail, Flat, AcksHold, Replay, AllLines, IsLine;
    var lines := Lines(disk.contents);
    var w := Replay(env, lines);
    LinesCut(disk.contents);
    if |lines| < U64_MAX {
      var line := SealLine(env, w, policy, stamp);
      assert SealedBy(env, ok, w, line);
      SealFacts(env, ok, lines, policy, stamp);
      PushLine(env, ok, lines, line);
      FlatOne(line);
      AppendLines(env, ok, disk, lines, [line], io);
      var d := Write(disk, line, io);
      AcksGrow(lines, disk.durable, acked, Lines(d.contents), d.durable);
    }
  }

  lemma {:induction false} AllAcknowledged(first: nat, bodies: seq<Bytes>)
    ensures var acks := Acknowledged(Numbers(first, |bodies|), bodies);
      |acks| == |bodies| && forall i :: 0 <= i < |bodies| ==> acks[i] == (first + i, bodies[i])
    decreases |bodies|
  {
    if bodies != [] {
      var n := |bodies| - 1;
      AllAcknowledged(first, bodies[..n]);
      assert Numbers(first, |bodies|)[..n] == Numbers(first, n);
    }
  }

  /** Acknowledging a synced batch keeps the acknowledgement invariant. */
  lemma AckBatch(lines: seq<Bytes>, disk: Disk, acked: seq<(nat, Bytes)>, bodies: seq<Bytes>, acks: seq<(nat, Bytes)>)
    requires AcksHold(lines, disk.durable, acked) && |acks| == |bodies|
    requires forall i :: 0 <= i < |bodies| ==> acks[i] == (|lines| + 1 + i, bodies[i])
    requires disk.durable <= |Flat(lines + StampAll(|lines| + 1, bodies))|
    ensures var all := lines + StampAll(|lines| + 1, bodies); AcksHold(all, |Flat(all)|, acked + acks)
  {
    var all := lines + StampAll(|lines| + 1, bodies);
    AcksGrow(lines, disk.durable, acked, all, |Flat(all)|);
    var both := acked + acks;
    forall i | 0 <= i < |both| ensures AckHolds(all, |Flat(all)|, both[i]) {
      if i >= |acked| {
        StampAt(|lines| + 1, bodies, i - |acked|);
        FlatSplit(all, both[i].0);
      }
    }
    forall i, j | 0 <= i < j < |both| ensures both[i].0 < both[j].0 {
      if i < |acked| <= j { assert AckHolds(lines, disk.durable, both[i]); }
    }
  }

  /** The written part of a batch: what it leaves before any checkpoint. */
  lemma BatchWrites(env: Env, ok: Allowed, s: System, bodies: seq<Bytes>, io: Io)
    requires Faithful(env) && Inv(env, ok, s) && s.proc.Up? && !s.proc.poisoned
    requires AllEvents(env, bodies) && s.proc.w.lastSeq + |bodies| < U64_MAX
    ensures var d := Write(s.disk, Flat(StampAll(s.proc.w.lastSeq + 1, bodies)), io);
      var lines := Lines(s.disk.contents); var all := Lines(d.contents);
      lines <= all && Genuine(env, ok, all) && s.disk.durable <= d.durable <= |d.contents| &&
      (io.Synced? ==>
        all == lines + StampAll(|lines| + 1, bodies) && Tail(d.contents) == [] &&
        d.durable == |Flat(all)| && Replay(env, all) == AfterBatch(env, s.proc.w, bodies))
  {
    hide Genuine, Replay, Lines, Tail, Flat, StampAll, AfterBatch, AllEvents, Faithful, AcksHold,
      Write, IsLine, AllLines;
    var lines := Lines(s.disk.contents);
    WholeLines(env, ok, s);
    PushEvents(env, ok, lines, bodies);
    AppendLines(env, ok, s.disk, lines, StampAll(|lines| + 1, bodies), io);
  }

  /** What a turn of the loop leaves once its batch is on disk and answered. */
  lemma SyncedBatchKeeps(env: Env, ok: Allowed, s: System, e: Event)
    requires Faithful(env) && Inv(env, ok, s) && e.Batch? && ValidEvent(env, ok, e) && e.io.Synced?
    requires s.proc.Up? && !s.proc.poisoned && s.proc.w.lastSeq + |e.bodies| < U64_MAX
    ensures Inv(env, ok, Step(env, s, e))
  {
    hide Genuine, Replay, Lines, Tail, Flat, StampAll, AfterBatch, AllEvents, Faithful, AcksHold,
      Acknowledged, Numbers, Seal;
    var lines, w, bodies := Lines(s.disk.contents), s.proc.w, e.bodies;
    BatchWrites(env, ok, s, bodies, e.io);
    AllAcknowledged(w.lastSeq + 1, bodies);
    var acks := Acknowledged(Numbers(w.lastSeq + 1, |bodies|), bodies);
    var d := Write(s.disk, Flat(StampAll(w.lastSeq + 1, bodies)), e.io);
    AckBatch(lines, s.disk, s.acked, bodies, acks);
    SealKeeps(env, ok, d, s.acked + acks, s.proc.policy, e.stamp, e.sealIo);
  }

  lemma BatchKeeps(env: Env, ok: Allowed, s: System, e: Event)
    requires Faithful(env) && Inv(env, ok, s) && e.Batch? && ValidEvent(env, ok, e)
    requires s.proc.Up? && !s.proc.poisoned
    ensures Inv(env, ok, Step(env, s, e))
  {
    hide Genuine, Replay, Lines, Tail, Flat, StampAll, AfterBatch, AllEvents, Faithful, AcksHold,
      Acknowledged, Numbers, Seal;
    var lines, w, bodies := Lines(s.disk.contents), s.proc.w, e.bodies;
    NoneAcknowledged(bodies);
    assert s.acked + [] == s.acked;
    if w.lastSeq + |bodies| < U64_MAX {
      BatchWrites(env, ok, s, bodies, e.io);
      var d := Write(s.disk, Flat(StampAll(w.lastSeq + 1, bodies)), e.io);
      if e.io.Failed? {
        AcksGrow(lines, s.disk.durable, s.acked, Lines(d.contents), d.durable);
      } else {
        SyncedBatchKeeps(env, ok, s, e);
      }
    }
  }

  lemma AcksSurvive(lines: seq<Bytes>, durable: nat, acked: seq<(nat, Bytes)>, j: nat, kept: nat)
    requires AcksHold(lines, durable, acked) && j <= |lines| && durable <= kept
    requires forall m :: 0 <= m <= |lines| && |Flat(lines[..m])| <= kept ==> m <= j
    ensures AcksHold(lines[..j], kept, acked)
  {
    hide Flat, Stamp;
    forall i | 0 <= i < |acked| ensures AckHolds(lines[..j], kept, acked[i]) {
      assert AckHolds(lines, durable, acked[i]);
      assert acked[i].0 <= j;
      assert lines[..j][..acked[i].0] == lines[..acked[i].0];
    }
  }

  /** What a power loss leaves: some of the whole lines, all of those inside the
      durable bytes, and a newline-free tail. */
  lemma LossLeaves(disk: Disk, kept: nat, back: Bytes) returns (j: nat)
    requires disk.durable <= kept <= |disk.contents| && NL !in back
    ensures j <= |Lines(disk.contents)| && Lines(disk.contents[..kept] + back) == Lines(disk.contents)[..j]
    ensures forall m :: 0 <= m <= |Lines(disk.contents)| && |Flat(Lines(disk.contents)[..m])| <= kept ==> m <= j
  {
    var lines, tail := Lines(disk.contents), Tail(disk.contents);
    LinesCut(disk.contents);
    hide Lines, Tail, Flat, IsLine, AllLines;
    var rest;
    j, rest := CutPrefix(lines, tail, kept);
    Associative(Flat(lines[..j]), rest, back);
    CutUnique(disk.contents[..kept] + back, lines[..j], rest + back);
  }

  lemma PowerLossKeeps(env: Env, ok: Allowed, s: System, e: Event)
    requires Faithful(env) && Inv(env, ok, s) && e.PowerLoss? && ValidEvent(env, ok, e)
    ensures Inv(env, ok, Step(env, s, e))
  {
    hide Genuine, Lines, Tail, Flat, AcksHold, Faithful, Replay;
    var lines := Lines(s.disk.contents);
    var kept := Clamp(s.disk.durable, e.kept, |s.disk.contents|);
    var j := LossLeaves(s.disk, kept, e.back);
    GenuinePrefix(env, ok, lines, j);
    AcksSurvive(lines, s.disk.durable, s.acked, j, kept);
    AcksGrow(lines[..j], kept, s.acked, lines[..j], kept + |e.back|);
  }

  /** Acknowledged records lie in whole lines, so a cut to them loses none. */
  lemma AcksInLines(lines: seq<Bytes>, durable: nat, acked: seq<(nat, Bytes)>)
    requires AcksHold(lines, durable, acked)
    ensures AcksHold(lines, |Flat(lines)|, acked)
    ensures AcksHold(lines, if durable < |Flat(lines)| then durable else |Flat(lines)|, acked)
  {
    hide Stamp, Flat;
    forall i | 0 <= i < |acked|
      ensures AckHolds(lines, |Flat(lines)|, acked[i])
      ensures AckHolds(lines, if durable < |Flat(lines)| then durable else |Flat(lines)|, acked[i])
    {
      assert AckHolds(lines, durable, acked[i]);
      FlatSplit(lines, acked[i].0);
    }
  }

  /** Cutting a file to its whole lines leaves those lines. */
  lemma CutLeaves(contents: Bytes)
    ensures Lines(Flat(Lines(contents))) == Lines(contents) && Tail(Flat(Lines(contents))) == []
  {
    var lines := Lines(contents);
    LinesCut(contents);
    hide Lines, Tail, Flat, IsLine, AllLines;
    assert Flat(lines) + [] == Flat(lines);
    CutUnique(Flat(lines), lines, []);
  }

  lemma OpenKeeps(env: Env, ok: Allowed, s: System, e: Event)
    requires Faithful(env) && Inv(env, ok, s) && e.Open? && ValidEvent(env, ok, e)
    ensures Inv(env, ok, Step(env, s, e))
    ensures s.proc.Down? ==> (Step(env, s, e).proc.Up? <==> |Lines(s.disk.contents)| < U64_MAX)
  {
    hide Genuine, Faithful, Lines, Tail, Flat, AllLines, AcksHold, Replay, Numbered;
    var lines := Lines(s.disk.contents);
    GenuineLines(env, ok, lines);
    CutLeaves(s.disk.contents);
    AcksInLines(lines, s.disk.durable, s.acked);
  }

  lemma FailedOpenKeeps(env: Env, ok: Allowed, s: System, e: Event)
    requires Inv(env, ok, s) && e.FailedOpen?
    ensures Inv(env, ok, Step(env, s, e))
  {
    hide Genuine, Lines, Tail, Flat, AcksHold, Replay, Reopen;
    CutLeaves(s.disk.contents);
    AcksInLines(Lines(s.disk.contents), s.disk.durable, s.acked);
  }

  /** Every step of the system keeps the invariant. */
  lemma StepKeeps(env: Env, ok: Allowed, s: System, e: Event)
    requires Faithful(env) && Inv(env, ok, s) && ValidEvent(env, ok, e)
    ensures Inv(env, ok, Step(env, s, e))
  {
    match e
    case Open(_) => OpenKeeps(env, ok, s, e);
    case FailedOpen(_) => FailedOpenKeeps(env, ok, s, e);
    case Batch(_, _, _, _) => if s.proc.Up? && !s.proc.poisoned { BatchKeeps(env, ok, s, e); }
    case Tick(due, stamp, io) =>
      if s.proc.Up? && !s.proc.poisoned { SealKeeps(env, ok, s.disk, s.acked, s.proc.policy, stamp, io); }
    case Close(stamp, io) =>
      if s.proc.Up? && !s.proc.poisoned { SealKeeps(env, ok, s.disk, s.acked, s.proc.policy, stamp, io); }
    case Kill =>
    case PowerLoss(_, _) => PowerLossKeeps(env, ok, s, e);
  }

  lemma {:induction false} RunKeeps(env: Env, ok: Allowed, events: seq<Event>)
    requires Faithful(env) && ValidRun(env, ok, events)
    ensures Inv(env, ok, Run(env, events))
    decreases |events|
  {
    if events == [] {
      assert Lines([]) == [];
    } else {
      var init := events[..|events| - 1];
      RunKeeps(env, ok, init);
      StepKeeps(env, ok, Run(env, init), events[|events| - 1]);
    }
  }

  // ---- What the runs guarantee ---------------------------------------------------

  lemma RunStep(env: Env, events: seq<Event>, e: Event)
    ensures Run(env, events + [e]) == Step(env, Run(env, events), e)
  {
    hide Step;
    assert (events + [e])[..|events|] == events;
  }

  /** Nothing acknowledged is ever taken back, whatever happens next. */
  lemma {:induction false} AcksOnlyGrow(env: Env, events: seq<Event>, more: seq<Event>)
    ensures Run(env, events).acked <= Run(env, events + more).acked
    decreases |more|
  {
    hide Commit, Seal, Reopen;
    if more == [] {
      assert events + more == events;
    } else {
      var n := |more| - 1;
      AcksOnlyGrow(env, events, more[..n]);
      RunStep(env, events + more[..n], more[n]);
      assert events + more == events + more[..n] + [more[n]];
    }
  }

  /** Acknowledged means durable: every record acknowledged at any point of a
      run is, at every later point, exactly the line its number names, inside
      the bytes a power loss cannot take; and no number is acknowledged twice. */
  lemma AcknowledgedMeansDurable(env: Env, ok: Allowed, events: seq<Event>, more: seq<Event>)
    requires Faithful(env) && ValidRun(env, ok, events + more)
    ensures Run(env, events).acked <= Run(env, events + more).acked
    ensures var s := Run(env, events + more); AcksHold(Lines(s.disk.contents), s.disk.durable, s.acked)
  {
    AcksOnlyGrow(env, events, more);
    RunKeeps(env, ok, events + more);
  }

  lemma CutIsPrefix(contents: Bytes)
    ensures Flat(Lines(contents)) <= contents
  {
    LinesCut(contents);
    hide Flat, Lines, AllLines;
  }

  /** One event of a poisoned or stopped writer: no line is added, and no byte but
      those a power loss brings back. */
  lemma PoisonedStep(env: Env, s: System, e: Event)
    requires (s.proc.Down? || s.proc.poisoned) && !e.Open? && (e.PowerLoss? ==> NL !in e.back)
    ensures var s' := Step(env, s, e);
      && s'.acked == s.acked && (s'.proc.Down? || s'.proc.poisoned) && Lines(s'.disk.contents) <= Lines(s.disk.contents)
      && (!(e.PowerLoss? && e.back != []) ==> s'.disk.contents <= s.disk.contents)
  {
    hide Commit, Seal, Reopen, Lines, Tail, Flat, Acknowledged;
    if e.FailedOpen? {
      CutIsPrefix(s.disk.contents);
      CutLeaves(s.disk.contents);
    } else if e.PowerLoss? && s.disk.durable <= |s.disk.contents| {
      var kept := Clamp(s.disk.durable, e.kept, |s.disk.contents|);
      var j := LossLeaves(s.disk, kept, e.back);
      assert e.back == [] ==> s.disk.contents[..kept] + e.back == s.disk.contents[..kept];
    }
  }

  /** From a poisoned or stopped writer on, until a restart: no acknowledgement, no
      line added, and no byte but those a power loss brings back. */
  lemma {:induction false} PoisonIsFinal(env: Env, s: System, events: seq<Event>, s': System)
    requires s.proc.Down? || s.proc.poisoned
    requires forall i :: 0 <= i < |events| ==> !events[i].Open? && (events[i].PowerLoss? ==> NL !in events[i].back)
    requires s' == RunFrom(env, s, events)
    ensures s'.acked == s.acked && Lines(s'.disk.contents) <= Lines(s.disk.contents)
    ensures s'.proc.Down? || s'.proc.poisoned
    ensures (forall i :: 0 <= i < |events| ==> !(events[i].PowerLoss? && events[i].back != [])) ==>
      s'.disk.contents <= s.disk.contents
    decreases |events|
  {
    hide Step, Lines;
    if events != [] {
      var n := |events| - 1;
      var mid := RunFrom(env, s, events[..n]);
      PoisonIsFinal(env, s, events[..n], mid);
      assert !events[n].Open?;
      PoisonedStep(env, mid, events[n]);
    }
  }

  // ---- What a healthy writer does -----------------------------------------------------

  /** A batch that is written and synced is acknowledged, record by record, under
      the numbers that follow the last one. */
  lemma {:induction false} SyncedBatchIsAcknowledged(env: Env, s: System, e: Event, i: nat)
    requires s.proc.Up? && !s.proc.poisoned && e.Batch? && e.io.Synced? && s.proc.w.lastSeq + |e.bodies| < U64_MAX
    requires i < |e.bodies|
    ensures (s.proc.w.lastSeq + 1 + i, e.bodies[i]) in Step(env, s, e).acked
  {
    hide Seal, Write, StampAll, AfterBatch, Flat, Acknowledged, Numbers;
    AllAcknowledged(s.proc.w.lastSeq + 1, e.bodies);
    var acks := Acknowledged(Numbers(s.proc.w.lastSeq + 1, |e.bodies|), e.bodies);
    assert acks[i] == (s.proc.w.lastSeq + 1 + i, e.bodies[i]);
    assert (s.acked + acks)[|s.acked| + i] == acks[i];
  }

  lemma SealSeals(env: Env, policy: Policy, w: Writer, disk: Disk, stamp: Bytes)
    requires w.lastSeq < U64_MAX
    ensures var t := Seal(env, policy, w, disk, stamp, Synced);
      t.2 && t.0.since == 0 && t.0.lastSeq == w.lastSeq + 1 && t.0.lastCheckpoint == Some(w.lastSeq + 1)
      && t.1.contents == disk.contents + SealLine(env, w, policy, stamp)
  {
    hide SealLine;
  }

  /** A sealing write of a healthy writer adds its line, which leaves nothing unsealed. */
  lemma {:induction false} CloseSeals(env: Env, ok: Allowed, s: System, stamp: Bytes)
    requires Faithful(env) && Inv(env, ok, s) && Clean(stamp)
    requires s.proc.Up? && !s.proc.poisoned && s.proc.w.lastSeq < U64_MAX
    ensures var d := Seal(env, s.proc.policy, s.proc.w, s.disk, stamp, Synced).1;
      Lines(d.contents) == Lines(s.disk.contents) + [SealLine(env, s.proc.w, s.proc.policy, stamp)] &&
      Replay(env, Lines(d.contents)).since == 0
  {
    hide Genuine, Lines, Tail, Flat, AcksHold, Faithful, Replay, IsLine, AllLines, SealLine, ValidPolicy;
    var lines, w, policy := Lines(s.disk.contents), s.proc.w, s.proc.policy;
    var line := SealLine(env, w, policy, stamp);
    WholeLines(env, ok, s);
    SealFacts(env, ok, lines, policy, stamp);
    assert SealedBy(env, ok, w, line);
    PushLine(env, ok, lines, line);
    FlatOne(line);
    AppendLines(env, ok, s.disk, lines, [line], Synced);
  }

  /** After a batch that is written and sealed if due, the writer counts fewer
      unsealed records than the threshold. */
  lemma BatchCounts(env: Env, s: System, e: Event)
    requires e.Batch? && e.io.Synced? && e.sealIo.Synced? && s.proc.Up? && !s.proc.poisoned
    requires s.proc.w.lastSeq + |e.bodies| < U64_MAX && s.proc.policy.everyRecords > 0
    ensures var p := Step(env, s, e).proc; p.Up? && !p.poisoned && p.w.since < s.proc.policy.everyRecords
  {
    var w' := AfterBatch(env, s.proc.w, e.bodies);
    var d := Write(s.disk, Flat(StampAll(s.proc.w.lastSeq + 1, e.bodies)), e.io);
    SealSeals(env, s.proc.policy, w', d, e.stamp);
    hide Seal, Write, StampAll, ExtendAll, Flat, Acknowledged, Numbers;
  }

  lemma {:induction false} BatchSeals(env: Env, ok: Allowed, s: System, e: Event)
    requires Faithful(env) && Inv(env, ok, s) && ValidEvent(env, ok, e) && e.Batch? && e.io.Synced? && e.sealIo.Synced?
    requires s.proc.Up? && !s.proc.poisoned && s.proc.w.lastSeq + |e.bodies| < U64_MAX
    requires s.proc.policy.everyRecords > 0
    ensures Replay(env, Lines(Step(env, s, e).disk.contents)).since < s.proc.policy.everyRecords
  {
    hide Genuine, Lines, Tail, AcksHold, Faithful, Replay, ValidEvent, ValidPolicy, Step;
    StepKeeps(env, ok, s, e);
    BatchCounts(env, s, e);
  }

  /** Nothing stays unsealed past its time: a due tick seals what there is, a
      batch that reaches the record threshold does, and so does a clean close. */
  lemma {:induction false} SealsWhenDue(env: Env, ok: Allowed, s: System, e: Event)
    requires Faithful(env) && Inv(env, ok, s) && ValidEvent(env, ok, e)
    requires s.proc.Up? && !s.proc.poisoned && s.proc.w.lastSeq < U64_MAX
    requires (e.Tick? && e.due) || e.Close? || (e.Batch? && e.io.Synced? && s.proc.w.lastSeq + |e.bodies| < U64_MAX)
    requires e.sealIo.Synced?
    ensures var s' := Step(env, s, e); var unsealed := Replay(env, Lines(s'.disk.contents)).since;
      && (e.Tick? || e.Close? ==> unsealed == 0)
      && (e.Batch? && s.proc.policy.everyRecords > 0 ==> unsealed < s.proc.policy.everyRecords)
      && (e.Tick? && s.proc.w.since > 0 ==>
           Lines(s'.disk.contents) == Lines(s.disk.contents) + [SealLine(env, s.proc.w, s.proc.policy, e.stamp)])
  {
    hide Genuine, Lines, Tail, Flat, AcksHold, Faithful, Replay, SealLine, Commit, Seal, Acknowledged, ValidPolicy,
      AllEvents;
    if e.Batch? {
      if s.proc.policy.everyRecords > 0 { BatchSeals(env, ok, s, e); }
    } else if s.proc.w.since > 0 {
      CloseSeals(env, ok, s, e.stamp);
    }
  }

  lemma {:induction false} RunConcat(env: Env, events: seq<Event>, more: seq<Event>)
    ensures Run(env, events + more) == RunFrom(env, Run(env, events), more)
    decreases |more|
  {
    hide Step;
    if more == [] {
      assert events + more == events;
    } else {
      var n := |more| - 1;
      RunConcat(env, events, more[..n]);
      assert (events + more)[..|events + more| - 1] == events + more[..n];
    }
  }

  /** The event attempts a write that fails: of a batch, of the checkpoint that
      follows it, or of a checkpoint alone. */
  predicate WriteFails(env: Env, s: System, e: Event) {
    s.proc.Up? && !s.proc.poisoned &&
    var w := s.proc.w;
    match e
    case Batch(bodies, io, _, sealIo) =>
      w.lastSeq + |bodies| < U64_MAX &&
      (io.Failed? || (AfterBatch(env, w, bodies).since >= s.proc.policy.everyRecords && sealIo.Failed?))
    case Tick(due, _, io) => w.since > 0 && due && w.lastSeq < U64_MAX && io.Failed?
    case Close(_, io) => w.since > 0 && w.lastSeq < U64_MAX && io.Failed?
    case Open(_) => false
    case FailedOpen(_) => false
    case Kill => false
    case PowerLoss(_, _) => false
  }

  lemma FailedWritePoisons(env: Env, s: System, e: Event)
    requires WriteFails(env, s, e)
    ensures var after := Step(env, s, e);
      (after.proc.Down? || after.proc.poisoned) && (!(e.Batch? && e.io.Synced?) ==> after.acked == s.acked)
  {
    hide SealLine, StampAll, Flat, ExtendAll, Numbers, Acknowledged, Write;
    if e.Batch? {
      NoneAcknowledged(e.bodies);
      assert s.acked + [] == s.acked;
    }
  }

  /** After a failed write, in any run and until a restart: the record is not
      acknowledged (unless only the checkpoint after its batch failed), nothing
      more is, no line is added, and no byte but those a power loss brings back. */
  lemma FailedWriteIsFinal(env: Env, events: seq<Event>, e: Event, more: seq<Event>)
    requires WriteFails(env, Run(env, events), e)
    requires forall i :: 0 <= i < |more| ==> !more[i].Open? && (more[i].PowerLoss? ==> NL !in more[i].back)
    ensures var s := Run(env, events);
      var after := Run(env, events + [e]);
      var end := Run(env, events + [e] + more);
      && (!(e.Batch? && e.io.Synced?) ==> after.acked == s.acked)
      && end.acked == after.acked && Lines(end.disk.contents) <= Lines(after.disk.contents)
      && ((forall i :: 0 <= i < |more| ==> !(more[i].PowerLoss? && more[i].back != [])) ==>
           end.disk.contents <= after.disk.contents)
  {
    hide Run, Step, WriteFails, Lines;
    RunStep(env, events, e);
    FailedWritePoisons(env, Run(env, events), e);
    RunConcat(env, events + [e], more);
    PoisonIsFinal(env, Run(env, events + [e]), more, Run(env, events + [e] + more));
  }

  lemma SealAppends(env: Env, policy: Policy, w: Writer, disk: Disk, stamp: Bytes, io: Io)
    ensures disk.contents <= Seal(env, policy, w, disk, stamp, io).1.contents
  {
    hide SealLine;
  }

  lemma CommitAppends(env: Env, policy: Policy, w: Writer, disk: Disk, bodies: seq<Bytes>, io: Io,
                      stamp: Bytes, sealIo: Io)
    ensures disk.contents <= Commit(env, policy, w, disk, bodies, io, stamp, sealIo).disk.contents
  {
    hide Seal, AfterBatch, Flat, StampAll;
    var written := Write(disk, Flat(StampAll(w.lastSeq + 1, bodies)), io);
    SealAppends(env, policy, AfterBatch(env, w, bodies), written, stamp, sealIo);
  }

  /** Between a start and the next power loss or start the file only grows. */
  lemma {:induction false} LifeOnlyAppends(env: Env, s: System, events: seq<Event>)
    requires forall i :: 0 <= i < |events| ==>
      !events[i].Open? && !events[i].FailedOpen? && !events[i].PowerLoss?
    ensures s.disk.contents <= RunFrom(env, s, events).disk.contents
    decreases |events|
  {
    hide Commit, Seal, Reopen, Acknowledged, CutBack;
    if events != [] {
      var n := |events| - 1;
      LifeOnlyAppends(env, s, events[..n]);
      var mid, e := RunFrom(env, s, events[..n]), events[n];
      if mid.proc.Up? && e.Batch? {
        CommitAppends(env, mid.proc.policy, mid.proc.w, mid.disk, e.bodies, e.io, e.stamp, e.sealIo);
      } else if mid.proc.Up? && (e.Tick? || e.Close?) {
        SealAppends(env, mid.proc.policy, mid.proc.w, mid.disk, e.stamp, e.sealIo);
      }
    }
  }

  /** Recovery on every reachable disk: it succeeds exactly while the journal
      holds fewer than 2^64 - 1 lines, keeps all whole lines, drops a partial
      last one, and finds lines numbered from 1 without a gap. */
  lemma RecoveryAccountsForEverything(env: Env, ok: Allowed, events: seq<Event>)
    requires Faithful(env) && ValidRun(env, ok, events)
    ensures var disk := Run(env, events).disk; var lines := Lines(disk.contents); var r := Reopen(env, disk);
      && (r.Some? <==> |lines| < U64_MAX)
      && (forall i :: 0 <= i < |lines| ==> Numbered(env, lines[i], i + 1))
      && (r.Some? ==> r.value.0 == Replay(env, lines) && r.value.1.contents == Flat(lines))
      && disk.contents == Flat(lines) + Tail(disk.contents) && NL !in Tail(disk.contents)
  {
    RunKeeps(env, ok, events);
    var disk := Run(env, events).disk;
    hide Genuine, Faithful, Run, Lines, Tail, Flat, AllLines, AcksHold, Replay, Numbered;
    GenuineLines(env, ok, Lines(disk.contents));
    LinesCut(disk.contents);
    assert Tail(disk.contents) == [] ==> Flat(Lines(disk.contents)) + [] == Flat(Lines(disk.contents));
  }

  lemma ReopenHealthy(env: Env, ok: Allowed, s: System)
    requires Faithful(env) && Inv(env, ok, s) && s.proc.Up? && !s.proc.poisoned && s.proc.w.lastSeq < U64_MAX
    ensures Reopen(env, s.disk) == Some((s.proc.w, s.disk))
  {
    hide Genuine, Lines, Tail, Flat, AcksHold, Faithful, Numbered, Replay, ValidPolicy, AllLines;
    GenuineLines(env, ok, Lines(s.disk.contents));
  }

  /** Recovery is the inverse of writing: killing a healthy writer and opening
      the journal again gives back the writer's own state over the same bytes. */
  lemma RestartRestoresTheWriter(env: Env, ok: Allowed, events: seq<Event>, policy: Policy)
    requires Faithful(env) && ValidRun(env, ok, events)
    requires var s := Run(env, events); s.proc.Up? && !s.proc.poisoned && s.proc.w.lastSeq < U64_MAX
    ensures var s := Run(env, events); var s' := Run(env, events + [Kill] + [Open(policy)]);
      s' == s.(proc := Up(s.proc.w, policy, false))
  {
    hide Run, Inv, Faithful, Reopen, Commit, Seal;
    RunKeeps(env, ok, events);
    RunStep(env, events, Kill);
    RunStep(env, events + [Kill], Open(policy));
    ReopenHealthy(env, ok, Run(env, events));
  }

  /** The edge the condition above names: a checkpoint may be given the last
      u64, and the journal it closes can never be opened again. */
  lemma LastSequenceStrandsTheJournal(env: Env, ok: Allowed, events: seq<Event>, stamp: Bytes)
    requires Faithful(env) && ValidRun(env, ok, events) && Clean(stamp)
    requires var s := Run(env, events);
      s.proc.Up? && !s.proc.poisoned && s.proc.w.since > 0 && s.proc.w.lastSeq == U64_MAX - 1
    ensures var s := Run(env, events + [Tick(true, stamp, Synced)]);
      s.proc.Up? && !s.proc.poisoned && s.proc.w.lastSeq == U64_MAX && Reopen(env, s.disk) == None
  {
    hide Run, Genuine, Lines, Tail, Flat, AcksHold, Faithful, Commit, SealLine, ValidPolicy, Replay, Write;
    var run := events + [Tick(true, stamp, Synced)];
    RunKeeps(env, ok, run);
    RunStep(env, events, Tick(true, stamp, Synced));
    assert |Lines(Run(env, run).disk.contents)| == U64_MAX;
  }

  /** One synced record in a batch, short of the checkpoint threshold. */
  lemma OneRecord(env: Env, s: System, body: Bytes)
    requires s.proc.Up? && !s.proc.poisoned && s.proc.w.lastSeq + 1 < U64_MAX
    requires s.proc.w.since + 1 < s.proc.policy.everyRecords
    ensures var s' := Step(env, s, Batch([body], Synced, [], Synced));
      s'.proc.Up? && !s'.proc.poisoned && s'.proc.policy == s.proc.policy &&
      s'.proc.w.lastSeq == s.proc.w.lastSeq + 1 && s'.proc.w.since == s.proc.w.since + 1
  {
    hide Seal, Write, Flat, StampAll, ExtendAll, Acknowledged, Numbers;
  }

  lemma FirstOpen(env: Env, policy: Policy)
    ensures Step(env, EMPTY, Open(policy)).proc == Up(Start(env), policy, false)
  {
    assert Lines([]) == [] && Tail([]) == [];
  }

  /** ... and every length below it is reached by some run, so the edge is real. */
  lemma {:induction false} RunReaches(env: Env, ok: Allowed, policy: Policy, body: Bytes, n: nat)
    returns (events: seq<Event>)
    requires Faithful(env) && ValidPolicy(ok, policy) && policy.everyRecords >= U64_MAX
    requires IsEvent(env, body) && n < U64_MAX
    ensures ValidRun(env, ok, events)
    ensures var s := Run(env, events);
      s.proc.Up? && !s.proc.poisoned && s.proc.policy == policy && s.proc.w.lastSeq == n && s.proc.w.since == n
  {
    hide Faithful, IsEvent, Step, ValidPolicy;
    if n == 0 {
      events := [Open(policy)];
      RunStep(env, [], Open(policy));
      FirstOpen(env, policy);
      assert [] + events == events;
    } else {
      var before := RunReaches(env, ok, policy, body, n - 1);
      var e := Batch([body], Synced, [], Synced);
      events := before + [e];
      RunStep(env, before, e);
      OneRecord(env, Run(env, before), body);
      assert ValidEvent(env, ok, e);
    }
  }
}
