/** The journal's imperative half: recovery reads the file line by line and
    cuts a torn tail off; the writer thread drains its queue into one buffer,
    writes and syncs it once, folds the lines into the chain, and answers. */
module JournalWriter {
  import opened Bytes
  import opened Decimal
  import opened Checkpoints
  import opened Journal

  const MAX_BATCH: nat := 256

  /** How the repair of a torn tail goes: done, not cut, or cut but not synced. */
  datatype Repair = Repaired | NotCut | NotSynced

  class JournalFile {
    var contents: Bytes
    var durable: nat

    constructor ()
      ensures Value() == Disk([], 0)
    {
      contents, durable := [], 0;
    }

    function Value(): Disk reads this { Disk(contents, durable) }

    /** `write_batch`: `io` is what the storage does. */
    method WriteBatch(buffer: Bytes, io: Io) returns (ok: bool)
      modifies this
      ensures Value() == Write(old(Value()), buffer, io) && ok == io.Synced?
    {
      match io
      case Synced =>
        contents := contents + buffer;
        durable := |contents|;
        ok := true;
      case Failed(k) =>
        contents := contents + buffer[..if k < |buffer| then k else |buffer|];
        ok := false;
    }

    /** `recover`: `None` is a refusal to start, for a line it cannot place or a
        repair that fails; `repair` is what cutting and syncing do. */
    method Recover(env: Env, repair: Repair) returns (r: Option<Writer>)
      modifies this
      ensures repair.Repaired? || Tail(old(contents)) == [] ==>
        Reopen(env, old(Value())) == (match r case None => None case Some(w) => Some((w, Value())))
      ensures repair.Repaired? && r.None? ==> Value() == old(Value())
      ensures !repair.Repaired? && (Tail(old(contents)) != [] || r.None?) ==>
        r.None? &&
        Journal.System(Value(), Down, []) ==
          Step(env, Journal.System(old(Value()), Down, []), FailedOpen(repair.NotSynced?))
    {
      hide Scanned, Reopen, LineEnd, Tail, CutBack;
      var pos, expected := 0, 1;
      var chain, lastCheckpoint, since := Genesis(env.sha), None, 0;
      ghost var done: seq<Bytes> := [];
      ScanStart(env, contents);
      while true
        invariant Value() == old(Value()) && pos <= |contents| && 1 <= expected <= U64_MAX
        invariant Scanned(env, contents, pos, done, Writer(expected - 1, chain, lastCheckpoint, since))
        decreases |contents| - pos
      {
        ghost var w := Writer(expected - 1, chain, lastCheckpoint, since);
        var read := LineEnd(contents[pos..]);
        if read == 0 || contents[pos + read - 1] != NL {
          ScanEnd(env, Value(), pos, done, w);
          if read > 0 {
            if repair.NotCut? { return None; }
            contents, durable := contents[..pos], if repair.NotSynced? && durable < pos then durable else pos;
            if repair.NotSynced? { return None; }
          }
          break;
        }
        var line := contents[pos..][..read];
        var parsed := ParseSeq(env, Text(line));
        ScanLine(env, Value(), pos, done, w, line);
        if parsed.None? || parsed.value.0 != expected { return None; }
        chain := Extend(env.sha, chain, line);
        if parsed.value.1 {
          lastCheckpoint, since := Some(parsed.value.0), 0;
        } else {
          since := since + 1;
        }
        if expected == U64_MAX { return None; }
        expected := expected + 1;
        pos := pos + read;
        done := done + [line];
      }
      r := Some(Writer(expected - 1, chain, lastCheckpoint, since));
    }
  }

  /** The first `pos` bytes are the whole lines `done`, which `w` accounts for. */
  ghost predicate Scanned(env: Env, contents: Bytes, pos: nat, done: seq<Bytes>, w: Writer) {
    && pos <= |contents| && |done| < U64_MAX && w == Replay(env, done)
    && pos == |Flat(done)| && contents[..pos] == Flat(done)
    && Lines(contents) == done + Lines(contents[pos..]) && Tail(contents) == Tail(contents[pos..])
    && forall i :: 0 <= i < |done| ==> Numbered(env, done[i], i + 1)
  }

  lemma ScanStart(env: Env, contents: Bytes)
    ensures Scanned(env, contents, 0, [], Start(env))
  {
    assert contents[0..] == contents;
  }

  lemma ScanEnd(env: Env, disk: Disk, pos: nat, done: seq<Bytes>, w: Writer)
    requires Scanned(env, disk.contents, pos, done, w)
    requires var n := LineEnd(disk.contents[pos..]); n == 0 || disk.contents[pos + n - 1] != NL
    ensures LineEnd(disk.contents[pos..]) == 0 ==> Reopen(env, disk) == Some((w, disk)) && Tail(disk.contents) == []
    ensures LineEnd(disk.contents[pos..]) > 0 ==>
      Reopen(env, disk) == Some((w, Disk(disk.contents[..pos], pos))) && Tail(disk.contents) != [] &&
      CutBack(disk) == Disk(disk.contents[..pos], if disk.durable < pos then disk.durable else pos)
  {
    hide Numbered, Flat, Replay, LineEnd;
    var rest := disk.contents[pos..];
    assert Lines(rest) == [] && Tail(rest) == rest;
    assert Lines(disk.contents) == done;
  }

  lemma {:induction false} FirstLine(rest: Bytes)
    ensures var n := LineEnd(rest);
      n > 0 && rest[n - 1] == NL ==> Lines(rest) == [rest[..n]] + Lines(rest[n..]) && Tail(rest) == Tail(rest[n..])
  {
    hide LineEnd;
  }

  lemma {:induction false} ScanLines(c: Bytes, pos: nat, done: seq<Bytes>, line: Bytes)
    requires pos <= |c| && Lines(c) == done + Lines(c[pos..]) && Tail(c) == Tail(c[pos..])
    requires var n := LineEnd(c[pos..]); n > 0 && c[pos + n - 1] == NL && line == c[pos..][..n]
    ensures pos + |line| <= |c| && Lines(c) == done + [line] + Lines(c[pos + |line|..])
    ensures Tail(c) == Tail(c[pos + |line|..])
  {
    hide *;
    var n := LineEnd(c[pos..]);
    RestAfter(c, pos, n);
    FirstLine(c[pos..]);
    Associative(done, [line], Lines(c[pos + n..]));
  }

  lemma RestAfter(c: Bytes, pos: nat, n: nat)
    requires 0 < n && pos + n <= |c|
    ensures c[pos..][n..] == c[pos + n..] && c[pos..][n - 1] == c[pos + n - 1] && |c[pos..][..n]| == n
  {
  }

  lemma ScanLine(env: Env, disk: Disk, pos: nat, done: seq<Bytes>, w: Writer, line: Bytes)
    requires Scanned(env, disk.contents, pos, done, w)
    requires var n := LineEnd(disk.contents[pos..]);
      n > 0 && disk.contents[pos + n - 1] == NL && line == disk.contents[pos..][..n]
    ensures !Numbered(env, line, w.lastSeq + 1) || w.lastSeq + 1 == U64_MAX ==> Reopen(env, disk) == None
    ensures Numbered(env, line, w.lastSeq + 1) && w.lastSeq + 1 < U64_MAX ==>
      Scanned(env, disk.contents, pos + |line|, done + [line], Account(env, w, line))
  {
    hide Numbered, LineEnd, Account, Flat, Lines, Tail;
    var c := disk.contents;
    ScanLines(c, pos, done, line);
    assert Lines(c)[|done|] == line;
    FlatPush(done, line);
    assert c[..pos + |line|] == c[..pos] + line;
    assert (done + [line])[..|done|] == done;
  }

  // ---- The writer thread ---------------------------------------------------------

  /** What the writer's queue carries. */
  datatype Message = Record(body: Bytes) | Prompt

  /** One record with its sequence digits spliced in. */
  method RenderLine(at: nat, body: Bytes) returns (line: Bytes)
    requires at <= U64_MAX
    ensures line == Stamp(at, body)
  {
    var digits := new byte[U64_DIGITS];
    var index := RenderU64(digits, at);
    line := SEQ_PREFIX + digits[index..] + [COMMA] + (if |body| > 0 then body[1..] else []) + [NL];
  }

  /** The batch a turn takes from the queue (at most `room` records, ticks
      dropped), and what stays queued. */
  function Drain(queue: seq<Message>, room: nat): (seq<Bytes>, seq<Message>)
    decreases |queue|
  {
    if room == 0 || queue == [] then ([], queue)
    else
      match queue[0]
      case Prompt => Drain(queue[1..], room)
      case Record(body) => var (bodies, rest) := Drain(queue[1..], room - 1); ([body] + bodies, rest)
  }

  function Records(queue: seq<Message>): seq<Bytes> {
    if queue == [] then []
    else (match queue[0] case Prompt => [] case Record(body) => [body]) + Records(queue[1..])
  }

  /** Draining loses and reorders no record, and takes at most `room`. */
  lemma {:induction false} DrainConserves(queue: seq<Message>, room: nat)
    ensures Records(queue) == Drain(queue, room).0 + Records(Drain(queue, room).1)
    ensures |Drain(queue, room).0| <= room && |Drain(queue, room).0| + |Drain(queue, room).1| <= |queue|
    ensures |Drain(queue, room).0| < room ==> Drain(queue, room).1 == []
    decreases |queue|
  {
    if room > 0 && queue != [] {
      DrainConserves(queue[1..], if queue[0].Prompt? then room else room - 1);
      if queue[0].Record? {
        var (bodies, rest) := Drain(queue[1..], room - 1);
        assert [queue[0].body] + (bodies + Records(rest)) == [queue[0].body] + bodies + Records(rest);
      }
    }
  }

  class WriterThread {
    const env: Env
    const policy: Policy
    const file: JournalFile
    var lastSeq: nat
    var chain: Digest
    var lastCheckpoint: Option<nat>
    var since: nat
    var poisoned: bool

    constructor (env: Env, policy: Policy, file: JournalFile, recovered: Writer)
      ensures this.env == env && this.policy == policy && this.file == file
      ensures Process() == Up(recovered, policy, false)
    {
      this.env, this.policy, this.file := env, policy, file;
      lastSeq, chain := recovered.lastSeq, recovered.chain;
      lastCheckpoint, since, poisoned := recovered.lastCheckpoint, recovered.since, false;
    }

    function State(): Writer reads this { Writer(lastSeq, chain, lastCheckpoint, since) }

    function Process(): Journal.Process reads this { Up(State(), policy, poisoned) }

    function System(): Journal.System reads this, file { Journal.System(file.Value(), Process(), []) }

    /** `WriterState::checkpoint`. */
    method Checkpoint(stamp: Bytes, io: Io) returns (ok: bool)
      modifies this`lastSeq, this`chain, this`lastCheckpoint, this`since, file
      ensures (State(), file.Value(), ok) == Seal(env, policy, old(State()), old(file.Value()), stamp, io)
    {
      hide Write, Stamp, Extend, Label, Payload, Sign, NewCheckpoint;
      if lastSeq >= U64_MAX { return false; }
      var at := lastSeq + 1;
      var from := if lastCheckpoint.None? then 1 else lastCheckpoint.value + 1;
      var cp := NewCheckpoint(at, from, chain, lastCheckpoint, stamp);
      if policy.signer.Some? { cp := Sign(cp, at, policy.signer.value); }
      var line := RenderLine(at, env.render(cp));
      ok := file.WriteBatch(line, io);
      if ok {
        chain := Extend(env.sha, chain, line);
        lastSeq, lastCheckpoint, since := at, Some(at), 0;
      }
    }

    /** A tick at the head of the queue. */
    method HandleTick(due: bool, stamp: Bytes, io: Io)
      modifies this, file
      ensures System() == Step(env, old(System()), Tick(due, stamp, io))
    {
      if !poisoned && since > 0 && due {
        var ok := Checkpoint(stamp, io);
        if !ok { poisoned := true; }
      }
    }

    /** The clean close: seal the tail. */
    method HandleClose(stamp: Bytes, io: Io)
      modifies this, file
      ensures System().(proc := Down) == Step(env, old(System()), Close(stamp, io))
    {
      if !poisoned && since > 0 { var _ := Checkpoint(stamp, io); }
    }

    /** The buffer of a batch with its line boundaries. */
    method BuildBuffer(batch: seq<Bytes>) returns (buffer: Bytes, boundaries: seq<nat>, exhausted: bool)
      requires lastSeq < U64_MAX
      ensures exhausted <==> lastSeq + |batch| >= U64_MAX
      ensures !exhausted ==>
        buffer == Flat(StampAll(lastSeq + 1, batch)) && Bounds(StampAll(lastSeq + 1, batch), boundaries)
    {
      hide Stamp, Flat, StampAll, Bounds;
      buffer, boundaries, exhausted := [], [], false;
      var at := lastSeq + 1;
      NoBounds(lastSeq + 1);
      for i := 0 to |batch|
        invariant at == lastSeq + 1 + i <= U64_MAX
        invariant buffer == Flat(StampAll(lastSeq + 1, batch[..i]))
        invariant Bounds(StampAll(lastSeq + 1, batch[..i]), boundaries)
      {
        var line := RenderLine(at, batch[i]);
        PushBound(lastSeq + 1, batch[..i], batch[i], boundaries);
        assert batch[..i + 1] == batch[..i] + [batch[i]];
        buffer := buffer + line;
        boundaries := boundaries + [|buffer|];
        if at == U64_MAX { return buffer, boundaries, true; }
        at := at + 1;
      }
      assert batch[..|batch|] == batch;
    }

    /** One batch: render, write and sync once, fold the lines, answer, and
        checkpoint when the record threshold is reached. */
    method HandleBatch(batch: seq<Bytes>, io: Io, stamp: Bytes, sealIo: Io) returns (replies: seq<Option<nat>>)
      modifies this, file
      ensures old(poisoned) ==> replies == Refused(|batch|) && System() == old(System())
      ensures !old(poisoned) ==>
        Turn(State(), file.Value(), poisoned, replies) ==
        Commit(env, policy, old(State()), old(file.Value()), batch, io, stamp, sealIo)
      ensures !old(poisoned) && io.Synced? && old(lastSeq) + |batch| < U64_MAX ==>
        forall i :: 0 <= i < |batch| ==> replies[i] == Some(old(lastSeq) + 1 + i)
    {
      hide Write, StampAll, ExtendAll, Extend, Bounds, Flat, Seal;
      if poisoned || lastSeq >= U64_MAX {
        poisoned := true;
        return Refused(|batch|);
      }
      var buffer, boundaries, exhausted := BuildBuffer(batch);
      if exhausted {
        poisoned := true;
        return Refused(|batch|);
      }
      ghost var lines := StampAll(lastSeq + 1, batch);
      var ok := file.WriteBatch(buffer, io);
      if !ok {
        poisoned := true;
        return Refused(|batch|);
      }
      chain := FoldLines(env.sha, chain, buffer, boundaries, lines);
      BoundsLength(lines, boundaries);
      replies := Answer(lastSeq + 1, |batch|);
      lastSeq := lastSeq + |batch|;
      since := since + |boundaries|;
      if since >= policy.everyRecords {
        var sealed := Checkpoint(stamp, sealIo);
        if !sealed { poisoned := true; }
      }
    }

    /** One turn of the loop over what is queued: a tick, or a drained batch. */
    method HandleQueue(queue: seq<Message>, due: bool, io: Io, stamp: Bytes, sealIo: Io)
      returns (rest: seq<Message>, ghost batch: seq<Bytes>, replies: seq<Option<nat>>)
      requires queue != []
      modifies this, file
      ensures Records(queue) == batch + Records(rest) && |replies| == |batch| <= MAX_BATCH && |rest| < |queue|
      ensures queue[0].Prompt? ==> batch == [] && System() == Step(env, old(System()), Tick(due, stamp, sealIo))
      ensures |batch| <= |queue| - |rest|
      ensures !old(poisoned) && io.Synced? && old(lastSeq) + |batch| < U64_MAX ==>
        forall i :: 0 <= i < |replies| ==> replies[i].Some?
      ensures queue[0].Record? ==>
        batch != [] &&
        System().(acked := Acknowledged(replies, batch)) == Step(env, old(System()), Batch(batch, io, stamp, sealIo))
    {
      hide Commit, Seal, Acknowledged;
      if queue[0].Prompt? {
        HandleTick(due, stamp, sealIo);
        return queue[1..], [], [];
      }
      var taken: seq<Bytes> := [queue[0].body];
      rest := queue[1..];
      ghost var aim := Drain(queue, MAX_BATCH);
      while |taken| < MAX_BATCH && rest != []
        invariant 1 <= |taken| <= MAX_BATCH && |rest| < |queue|
        invariant aim.0 == taken + Drain(rest, MAX_BATCH - |taken|).0 && aim.1 == Drain(rest, MAX_BATCH - |taken|).1
        decreases |rest|
      {
        var message := rest[0];
        rest := rest[1..];
        if message.Record? { taken := taken + [message.body]; }
      }
      assert taken == aim.0 && rest == aim.1;
      DrainConserves(queue, MAX_BATCH);
      batch := taken;
      replies := HandleBatch(taken, io, stamp, sealIo);
      NoneAcknowledged(batch);
      assert [] + Acknowledged(replies, batch) == Acknowledged(replies, batch);
    }

    /** The loop until the queue is drained: a run of the system, in which every
        queued record is answered, in order. */
    method Serve(queue: seq<Message>, turns: nat -> TurnIo)
      returns (replies: seq<Option<nat>>, ghost events: seq<Event>)
      modifies this, file
      ensures forall i :: 0 <= i < |events| ==> events[i].Batch? || events[i].Tick?
      ensures |replies| == |Records(queue)|
      ensures System().(acked := Acknowledged(replies, Records(queue))) == RunFrom(env, old(System()), events)
      ensures !old(poisoned) && AllSynced(turns) && old(lastSeq) + 2 * |queue| < U64_MAX ==>
        forall i :: 0 <= i < |replies| ==> replies[i].Some?
    {
      hide Step, Acknowledged, Records, RunFrom;
      var rest, turn := queue, 0;
      ghost var done: seq<Bytes> := [];
      replies, events := [], [];
      NothingServed(env, old(System()), queue);
      while rest != []
        invariant forall i :: 0 <= i < |events| ==> events[i].Batch? || events[i].Tick?
        invariant |replies| == |done| && Records(queue) == done + Records(rest)
        invariant System().(acked := Acknowledged(replies, done)) == RunFrom(env, old(System()), events)
        invariant |rest| <= |queue|
        invariant !old(poisoned) && AllSynced(turns) && old(lastSeq) + 2 * |queue| < U64_MAX ==>
          !poisoned && lastSeq <= old(lastSeq) + 2 * (|queue| - |rest|) &&
          forall i :: 0 <= i < |replies| ==> replies[i].Some?
        decreases |rest|
      {
        ghost var before := System();
        var io := turns(turn);
        ghost var batch: seq<Bytes>;
        var answers;
        ghost var was := rest;
        rest, batch, answers := HandleQueue(rest, io.due, io.io, io.stamp, io.sealIo);
        ghost var e := if was[0].Prompt? then Tick(io.due, io.stamp, io.sealIo)
                       else Batch(batch, io.io, io.stamp, io.sealIo);
        HealthyStep(env, before, e);
        NextTurn(env, old(System()), events, before, System(), e, replies, done, answers, batch);
        Associative(done, batch, Records(rest));
        replies, done, events := replies + answers, done + batch, events + [e];
        turn := turn + 1;
      }
      NothingServed(env, old(System()), rest);
    }
  }

  /** What one turn of the loop meets: whether a tick is due, and its I/O. */
  datatype TurnIo = TurnIo(due: bool, io: Io, stamp: Bytes, sealIo: Io)

  /** Every write and sync of every turn works. */
  ghost predicate AllSynced(turns: nat -> TurnIo) { forall t: nat :: turns(t).io.Synced? && turns(t).sealIo.Synced? }

  /** A turn whose writes work leaves a healthy writer, at most one checkpoint further than its records. */
  lemma HealthyStep(env: Env, s: Journal.System, e: Event)
    requires e.Tick? || e.Batch?
    ensures var n := if e.Tick? then 0 else |e.bodies|;
      s.proc.Up? && !s.proc.poisoned && (e.Batch? ==> e.io.Synced?) && e.sealIo.Synced? &&
      s.proc.w.lastSeq + n + 1 < U64_MAX ==>
        var s' := Step(env, s, e);
        s'.proc.Up? && !s'.proc.poisoned && s'.proc.w.lastSeq <= s.proc.w.lastSeq + n + 1
  {
    hide Write, SealLine, StampAll, ExtendAll, Acknowledged, Numbers;
  }

  /** One more turn of a run: what it acknowledges comes after what was before. */
  lemma NextTurn(env: Env, start: Journal.System, events: seq<Event>, before: Journal.System, after: Journal.System,
                 e: Event, replies: seq<Option<nat>>, done: seq<Bytes>, answers: seq<Option<nat>>, batch: seq<Bytes>)
    requires |replies| == |done| && |answers| == |batch| && before.acked == [] && after.acked == []
    requires before.(acked := Acknowledged(replies, done)) == RunFrom(env, start, events)
    requires e.Tick? ==> batch == [] && after == Step(env, before, e)
    requires e.Batch? ==> after.(acked := Acknowledged(answers, batch)) == Step(env, before, e)
    requires e.Tick? || e.Batch?
    ensures after.(acked := Acknowledged(replies + answers, done + batch)) == RunFrom(env, start, events + [e])
  {
    hide Step, Acknowledged, RunFrom;
    AckedAdds(env, before, Acknowledged(replies, done), e);
    AcknowledgedConcat(replies, done, answers, batch);
    RunPush(env, start, events, e);
    if e.Tick? { NoAnswers(answers, batch); }
  }

  lemma NoAnswers(answers: seq<Option<nat>>, batch: seq<Bytes>)
    requires batch == [] && |answers| == 0
    ensures Acknowledged(answers, batch) == []
  {
  }

  lemma NothingServed(env: Env, s: Journal.System, queue: seq<Message>)
    ensures Acknowledged([], []) == [] && [] + Records(queue) == Records(queue) && RunFrom(env, s, []) == s
    ensures queue == [] ==> forall done: seq<Bytes> :: done + Records(queue) == done
  {
  }

  lemma RunPush(env: Env, s: Journal.System, events: seq<Event>, e: Event)
    ensures RunFrom(env, s, events + [e]) == Step(env, RunFrom(env, s, events), e)
  {
    hide Step;
    assert (events + [e])[..|events|] == events;
  }

  /** A step adds its acknowledgements to those before it and reads none of them. */
  lemma AckedAdds(env: Env, s: Journal.System, acked: seq<(nat, Bytes)>, e: Event)
    requires s.acked == [] && (e.Batch? || e.Tick?)
    ensures var t := Step(env, s, e); Step(env, s.(acked := acked), e) == t.(acked := acked + t.acked)
    ensures e.Tick? ==> Step(env, s, e).acked == [] && acked + [] == acked
  {
    hide Commit, Seal;
    if e.Batch? && s.proc.Up? {
      var t := Commit(env, s.proc.policy, s.proc.w, s.disk, e.bodies, e.io, e.stamp, e.sealIo);
      assert [] + Acknowledged(t.replies, e.bodies) == Acknowledged(t.replies, e.bodies);
    }
  }

  lemma {:induction false} AcknowledgedConcat(r: seq<Option<nat>>, b: seq<Bytes>, more: seq<Option<nat>>,
                                              bodies: seq<Bytes>)
    requires |r| == |b| && |more| == |bodies|
    ensures Acknowledged(r + more, b + bodies) == Acknowledged(r, b) + Acknowledged(more, bodies)
    decreases |bodies|
  {
    if bodies == [] {
      assert r + more == r && b + bodies == b;
    } else {
      var n := |bodies| - 1;
      AcknowledgedConcat(r, b, more[..n], bodies[..n]);
      assert (r + more)[..|r| + n] == r + more[..n] && (b + bodies)[..|b| + n] == b + bodies[..n];
      Associative(Acknowledged(r, b), Acknowledged(more[..n], bodies[..n]),
                  if more[n].Some? then [(more[n].value, bodies[n])] else []);
    }
  }

  /** `boundaries[i]` is where the i-th line ends in the buffer. */
  ghost predicate Bounds(lines: seq<Bytes>, boundaries: seq<nat>) {
    |boundaries| == |lines| && forall i :: 0 <= i < |lines| ==> boundaries[i] == |Flat(lines[..i + 1])|
  }

  lemma NoBounds(first: nat)
    ensures Bounds(StampAll(first, []), []) && Flat(StampAll(first, [])) == []
  {
  }

  lemma BoundsLength(lines: seq<Bytes>, boundaries: seq<nat>)
    requires Bounds(lines, boundaries)
    ensures |boundaries| == |lines|
  {
  }

  lemma PushBound(first: nat, bodies: seq<Bytes>, body: Bytes, boundaries: seq<nat>)
    requires Bounds(StampAll(first, bodies), boundaries)
    ensures var line := Stamp(first + |bodies|, body);
      Flat(StampAll(first, bodies + [body])) == Flat(StampAll(first, bodies)) + line &&
      Bounds(StampAll(first, bodies + [body]), boundaries + [|Flat(StampAll(first, bodies)) + line|])
  {
    hide Stamp, Flat;
    var lines, line := StampAll(first, bodies), Stamp(first + |bodies|, body);
    assert (bodies + [body])[..|bodies|] == bodies;
    assert StampAll(first, bodies + [body]) == lines + [line];
    FlatPush(lines, line);
    assert (lines + [line])[..|lines| + 1] == lines + [line];
    forall i | 0 <= i < |lines| ensures boundaries[i] == |Flat((lines + [line])[..i + 1])| {
      assert (lines + [line])[..i + 1] == lines[..i + 1];
    }
  }

  /** Fold the lines of a written buffer into the chain, one at a time. */
  method FoldLines(sha: Hash, chain: Digest, buffer: Bytes, boundaries: seq<nat>, ghost lines: seq<Bytes>)
    returns (folded: Digest)
    requires buffer == Flat(lines) && Bounds(lines, boundaries)
    ensures folded == ExtendAll(sha, chain, lines)
  {
    folded := chain;
    var start := 0;
    for i := 0 to |boundaries|
      invariant folded == ExtendAll(sha, chain, lines[..i]) && start == |Flat(lines[..i])|
    {
      hide Extend, Flat;
      var end := boundaries[i];
      LineInBuffer(lines, i);
      folded := Extend(sha, folded, buffer[start..end]);
      assert lines[..i + 1][..i] == lines[..i];
      start := end;
    }
    assert lines[..|lines|] == lines;
  }

  lemma LineInBuffer(lines: seq<Bytes>, i: nat)
    requires i < |lines|
    ensures |Flat(lines[..i])| <= |Flat(lines[..i + 1])| <= |Flat(lines)|
    ensures Flat(lines)[|Flat(lines[..i])|..|Flat(lines[..i + 1])|] == lines[i]
  {
    hide Flat;
    FlatSplit(lines, i + 1);
    FlatPush(lines[..i], lines[i]);
    assert lines[..i + 1] == lines[..i] + [lines[i]];
  }

  /** The acknowledgements of a written batch. */
  method Answer(first: nat, n: nat) returns (replies: seq<Option<nat>>)
    ensures replies == Numbers(first, n) && forall i :: 0 <= i < n ==> replies[i] == Some(first + i)
  {
    replies := [];
    for i := 0 to n
      invariant replies == Numbers(first, i) && forall k :: 0 <= k < i ==> replies[k] == Some(first + k)
    {
      replies := replies + [Some(first + i)];
    }
  }
}
