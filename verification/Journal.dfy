/** The durable audit journal: what the writer appends, what recovery rebuilds
    from the bytes, and one process life as a step function on values. The
    imperative writer in JournalWriter.dfy is proved against these functions. */
module Journal {
  import opened Bytes
  import opened Decimal
  import opened Checkpoints

  /** What the code reads out of one parsed JSON line. */
  datatype Json = Json(at: Option<nat>, kind: Option<Bytes>, checkpoint: Option<Checkpoint>)

  /** The libraries: SHA-256, `serde_json` parsing, and rendering of a checkpoint. */
  datatype Env = Env(sha: Hash, parse: Bytes -> Option<Json>, render: Checkpoint -> Bytes)

  const CHECKPOINT_KIND: Bytes := Ascii("checkpoint")
  const SEQ_PREFIX: Bytes := Ascii("{\"seq\":")
  const OPEN_BRACE: byte := 123
  const COMMA: byte := 44

  /** A record with its sequence spliced in after the opening brace, as one line. */
  function Stamp(at: nat, body: Bytes): Bytes {
    SEQ_PREFIX + Digits(at) + [COMMA] + (if |body| > 0 then body[1..] else []) + [NL]
  }

  function Text(line: Bytes): Bytes { if line == [] then [] else line[..|line| - 1] }

  /** `enqueue` refuses anything else before it reaches the writer. */
  predicate Accepts(body: Bytes) { |body| >= 3 && body[0] == OPEN_BRACE }

  /** A serialized event: compact JSON whose kind is not a checkpoint's. */
  ghost predicate IsEvent(env: Env, body: Bytes) {
    && Accepts(body) && NL !in body
    && forall n: nat :: n <= U64_MAX ==> ReadsAsEvent(env.parse(Text(Stamp(n, body))), n)
  }

  predicate ReadsAsEvent(json: Option<Json>, n: nat) {
    json.Some? && json.value.at == Some(n) && json.value.kind.Some? && json.value.kind.value != CHECKPOINT_KIND
  }

  /** Rendering a checkpoint and parsing the line back returns the checkpoint. */
  ghost predicate Faithful(env: Env) {
    forall cp: Checkpoint :: CleanCheckpoint(cp) ==>
      Accepts(env.render(cp)) && NL !in env.render(cp) &&
      forall n: nat :: n <= U64_MAX ==>
        env.parse(Text(Stamp(n, env.render(cp)))) == Some(Json(Some(n), Some(CHECKPOINT_KIND), Some(cp)))
  }

  /** `parse_seq`. */
  function ParseSeq(env: Env, text: Bytes): Option<(nat, bool)> {
    match env.parse(text)
    case None => None
    case Some(json) =>
      if json.at.None? then None else Some((json.at.value, json.kind == Some(CHECKPOINT_KIND)))
  }

  // ---- The writer's state and how recovery rebuilds it ------------------------

  datatype Writer = Writer(lastSeq: nat, chain: Digest, lastCheckpoint: Option<nat>, since: nat)

  function Start(env: Env): Writer { Writer(0, Genesis(env.sha), None, 0) }

  function Account(env: Env, w: Writer, line: Bytes): Writer {
    var at := w.lastSeq + 1;
    var chain := Extend(env.sha, w.chain, line);
    var parsed := ParseSeq(env, Text(line));
    if parsed.Some? && parsed.value.1 then Writer(at, chain, Some(at), 0)
    else Writer(at, chain, w.lastCheckpoint, w.since + 1)
  }

  /** The state that accounts for `lines`. */
  function Replay(env: Env, lines: seq<Bytes>): (w: Writer)
    ensures w.lastSeq == |lines|
  {
    if lines == [] then Start(env)
    else Account(env, Replay(env, lines[..|lines| - 1]), lines[|lines| - 1])
  }

  predicate Numbered(env: Env, line: Bytes, at: nat) {
    var parsed := ParseSeq(env, Text(line));
    parsed.Some? && parsed.value.0 == at
  }

  /** Every complete line carries the sequence of its position, below the last u64. */
  predicate Readable(env: Env, lines: seq<Bytes>) {
    |lines| < U64_MAX && forall i :: 0 <= i < |lines| ==> Numbered(env, lines[i], i + 1)
  }

  /** `contents` is what a read sees; its first `durable` bytes survive a power loss. */
  datatype Disk = Disk(contents: Bytes, durable: nat)

  /** What `recover` establishes: the state that accounts for the complete
      lines, and a file cut back (durably) to them if it had a torn tail. */
  function Reopen(env: Env, disk: Disk): Option<(Writer, Disk)> {
    var lines := Lines(disk.contents);
    if !Readable(env, lines) then None
    else if Tail(disk.contents) == [] then Some((Replay(env, lines), disk))
    else Some((Replay(env, lines), Disk(Flat(lines), |Flat(lines)|)))
  }

  /** A repair whose sync failed: the tail is cut, but not durably. */
  function CutBack(disk: Disk): Disk {
    var kept := |Flat(Lines(disk.contents))|;
    Disk(Flat(Lines(disk.contents)), if disk.durable < kept then disk.durable else kept)
  }

  // ---- One write ---------------------------------------------------------------

  /** What the storage did with one `write_all` plus `sync_data`: all of it and
      the sync returned, or an error after `landed` bytes were written. */
  datatype Io = Synced | Failed(landed: nat)

  function Write(disk: Disk, buffer: Bytes, io: Io): Disk {
    match io
    case Synced => Disk(disk.contents + buffer, |disk.contents| + |buffer|)
    case Failed(k) => disk.(contents := disk.contents + buffer[..if k < |buffer| then k else |buffer|])
  }

  // ---- Checkpoints -------------------------------------------------------------

  datatype Policy = Policy(everyRecords: nat, signer: Option<Signer>)

  function NextCheckpoint(w: Writer, policy: Policy, stamp: Bytes): Checkpoint {
    var from := if w.lastCheckpoint.None? then 1 else w.lastCheckpoint.value + 1;
    var cp := NewCheckpoint(w.lastSeq + 1, from, w.chain, w.lastCheckpoint, stamp);
    if policy.signer.None? then cp else Sign(cp, w.lastSeq + 1, policy.signer.value)
  }

  function SealLine(env: Env, w: Writer, policy: Policy, stamp: Bytes): Bytes {
    Stamp(w.lastSeq + 1, env.render(NextCheckpoint(w, policy, stamp)))
  }

  /** `WriterState::checkpoint`: new state, new file, and whether it worked. */
  function Seal(env: Env, policy: Policy, w: Writer, disk: Disk, stamp: Bytes, io: Io): (Writer, Disk, bool) {
    if w.lastSeq >= U64_MAX then (w, disk, false)
    else
      var line := SealLine(env, w, policy, stamp);
      var disk' := Write(disk, line, io);
      if io.Failed? then (w, disk', false)
      else (Writer(w.lastSeq + 1, Extend(env.sha, w.chain, line), Some(w.lastSeq + 1), 0), disk', true)
  }

  // ---- A batch -----------------------------------------------------------------

  /** The lines of a batch, numbered from `first`. */
  function StampAll(first: nat, bodies: seq<Bytes>): (lines: seq<Bytes>)
    ensures |lines| == |bodies|
  {
    if bodies == [] then []
    else
      var n := |bodies| - 1;
      StampAll(first, bodies[..n]) + [Stamp(first + n, bodies[n])]
  }

  function ExtendAll(sha: Hash, chain: Digest, lines: seq<Bytes>): Digest {
    if lines == [] then chain
    else Extend(sha, ExtendAll(sha, chain, lines[..|lines| - 1]), lines[|lines| - 1])
  }

  function AfterBatch(env: Env, w: Writer, bodies: seq<Bytes>): Writer
  {
    Writer(w.lastSeq + |bodies|, ExtendAll(env.sha, w.chain, StampAll(w.lastSeq + 1, bodies)),
           w.lastCheckpoint, w.since + |bodies|)
  }

  /** What one turn of the writer loop leaves: state, file, poison, and one
      reply per record (its sequence, or `None` for an error). */
  datatype Turn = Turn(w: Writer, disk: Disk, poisoned: bool, replies: seq<Option<nat>>)

  function Refused(n: nat): (replies: seq<Option<nat>>)
    ensures |replies| == n
  {
    if n == 0 then [] else Refused(n - 1) + [None]
  }

  function Numbers(first: nat, n: nat): (replies: seq<Option<nat>>)
    ensures |replies| == n
  {
    if n == 0 then [] else Numbers(first, n - 1) + [Some(first + n - 1)]
  }

  function Commit(env: Env, policy: Policy, w: Writer, disk: Disk, bodies: seq<Bytes>,
                  io: Io, stamp: Bytes, sealIo: Io): (t: Turn)
    ensures |t.replies| == |bodies|
  {
    if w.lastSeq + |bodies| >= U64_MAX then Turn(w, disk, true, Refused(|bodies|))
    else
      var disk' := Write(disk, Flat(StampAll(w.lastSeq + 1, bodies)), io);
      if io.Failed? then Turn(w, disk', true, Refused(|bodies|))
      else
        var replies := Numbers(w.lastSeq + 1, |bodies|);
        var w' := AfterBatch(env, w, bodies);
        if w'.since < policy.everyRecords then Turn(w', disk', false, replies)
        else
          var sealed := Seal(env, policy, w', disk', stamp, sealIo);
          Turn(sealed.0, sealed.1, !sealed.2, replies)
  }

  // ---- Process lives, crashes and restarts -------------------------------------

  datatype Process = Down | Up(w: Writer, policy: Policy, poisoned: bool)

  /** `acked` is everything ever acknowledged, over all process lives. */
  datatype System = System(disk: Disk, proc: Process, acked: seq<(nat, Bytes)>)

  /** A failed open is one whose repair of a torn tail failed, before or after the
      cut. A power loss keeps some of the file; after a cut that was not synced it
      may bring bytes of the torn record back, so any newline-free bytes may follow. */
  datatype Event =
    | Open(policy: Policy)
    | FailedOpen(cut: bool)
    | Batch(bodies: seq<Bytes>, io: Io, stamp: Bytes, sealIo: Io)
    | Tick(due: bool, stamp: Bytes, sealIo: Io)
    | Close(stamp: Bytes, sealIo: Io)
    | Kill
    | PowerLoss(kept: nat, back: Bytes)

  /** The records of a batch that were answered with a sequence number. */
  function Acknowledged(replies: seq<Option<nat>>, bodies: seq<Bytes>): seq<(nat, Bytes)>
    requires |replies| == |bodies|
  {
    if bodies == [] then []
    else
      var n := |bodies| - 1;
      Acknowledged(replies[..n], bodies[..n]) +
        if replies[n].Some? then [(replies[n].value, bodies[n])] else []
  }

  lemma {:induction false} NoneAcknowledged(bodies: seq<Bytes>)
    ensures Acknowledged(Refused(|bodies|), bodies) == []
    decreases |bodies|
  {
    if bodies != [] {
      var n := |bodies| - 1;
      NoneAcknowledged(bodies[..n]);
      assert Refused(|bodies|)[..n] == Refused(n);
    }
  }

  function Clamp(low: nat, k: nat, high: nat): nat { if k < low then low else if high < k then high else k }

  function Step(env: Env, s: System, e: Event): System
  {
    match e
    case Open(policy) =>
      if s.proc.Up? then s
      else
        (match Reopen(env, s.disk)
         case None => s
         case Some((w, disk)) => s.(disk := disk, proc := Up(w, policy, false)))
    case FailedOpen(cut) =>
      if s.proc.Up? || !cut || Reopen(env, s.disk).None? || Tail(s.disk.contents) == [] then s
      else s.(disk := CutBack(s.disk))
    case Batch(bodies, io, stamp, sealIo) =>
      if s.proc.Down? || s.proc.poisoned then s
      else
        var t := Commit(env, s.proc.policy, s.proc.w, s.disk, bodies, io, stamp, sealIo);
        System(t.disk, Up(t.w, s.proc.policy, t.poisoned),
               s.acked + Acknowledged(t.replies, bodies))
    case Tick(due, stamp, sealIo) =>
      if s.proc.Down? || s.proc.poisoned || s.proc.w.since == 0 || !due then s
      else
        var t := Seal(env, s.proc.policy, s.proc.w, s.disk, stamp, sealIo);
        System(t.1, Up(t.0, s.proc.policy, !t.2), s.acked)
    case Close(stamp, sealIo) =>
      if s.proc.Down? || s.proc.poisoned || s.proc.w.since == 0 then s.(proc := Down)
      else System(Seal(env, s.proc.policy, s.proc.w, s.disk, stamp, sealIo).1, Down, s.acked)
    case Kill => s.(proc := Down)
    case PowerLoss(k, back) =>
      var kept := Clamp(s.disk.durable, k, |s.disk.contents|);
      if s.disk.durable <= |s.disk.contents|
      then System(Disk(s.disk.contents[..kept] + back, kept + |back|), Down, s.acked)
      else s.(proc := Down)
  }

  const EMPTY: System := System(Disk([], 0), Down, [])

  /** The system after a run of events. */
  function RunFrom(env: Env, s: System, events: seq<Event>): System {
    if events == [] then s
    else Step(env, RunFrom(env, s, events[..|events| - 1]), events[|events| - 1])
  }

  function Run(env: Env, events: seq<Event>): System { RunFrom(env, EMPTY, events) }
}
