/** What each line of a verification report means: which problems are named, at
    which checkpoint and why, and what the counts count, on files that pass and on
    files that do not. */
module VerifyReport {
  import opened Bytes
  import opened Checkpoints
  import opened Journal
  import opened Reader
  import opened Verify

  /** The checkpoint parsed from the line with number `at`. */
  function ParsedAt(env: Env, lines: seq<Bytes>, at: nat): Option<Checkpoint> {
    if 1 <= at <= |lines| && IsCheckpointLine(env, lines[at - 1]) then env.parse(Text(lines[at - 1])).value.checkpoint
    else None
  }

  ghost predicate NoneParsed(env: Env, lines: seq<Bytes>, from: nat, upto: nat) {
    forall m :: from < m <= upto ==> ParsedAt(env, lines, m).None?
  }

  /** `previous` is the last number up to `n` with a parsed checkpoint. */
  ghost predicate LastParsed(env: Env, lines: seq<Bytes>, n: nat, previous: Option<nat>) {
    match previous
    case None => NoneParsed(env, lines, 0, n)
    case Some(k) => k <= n && ParsedAt(env, lines, k).Some? && NoneParsed(env, lines, k, n)
  }

  // ---- What is wrong with a checkpoint --------------------------------------------------

  /** Its chain text is not the label of the chain over the lines before it. */
  ghost predicate ChainIsWrong(env: Env, lines: seq<Bytes>, at: nat) {
    ParsedAt(env, lines, at).Some? && ParsedAt(env, lines, at).value.chain != Label(ChainOf(env.sha, lines[..at - 1]))
  }

  /** It does not cover exactly the lines since the last parsed checkpoint, or
      names another one as the last. */
  ghost predicate CoverageIsWrong(env: Env, lines: seq<Bytes>, at: nat) {
    ParsedAt(env, lines, at).Some? &&
    var cp := ParsedAt(env, lines, at).value;
    exists previous :: LastParsed(env, lines, at - 1, previous) && CoversOther(cp, at, previous)
  }

  predicate CoversOther(cp: Checkpoint, at: nat, previous: Option<nat>) {
    || cp.coversFrom != (match previous case None => 1 case Some(k) => k + 1)
    || cp.coversTo != at - 1
    || cp.previous != previous
  }

  /** It is signed, and the first key of the name it gives does not accept the
      signature for its payload. */
  ghost predicate SignatureIsWrong(env: Env, keys: seq<VerifyingKey>, lines: seq<Bytes>, at: nat) {
    ParsedAt(env, lines, at).Some? &&
    var cp := ParsedAt(env, lines, at).value;
    !(cp.keyId.None? && cp.signature.None?) && !ValidlySigned(cp, at, keys)
  }

  ghost predicate ValidlySigned(cp: Checkpoint, at: nat, keys: seq<VerifyingKey>) {
    cp.keyId.Some? && cp.signature.Some? &&
    exists k: nat :: Judges(keys, cp.keyId.value, k) && keys[k].accepts(Payload(cp, at), cp.signature.value)
  }

  ghost predicate IsUnsigned(env: Env, lines: seq<Bytes>, at: nat) {
    ParsedAt(env, lines, at).Some? &&
    ParsedAt(env, lines, at).value.keyId.None? && ParsedAt(env, lines, at).value.signature.None?
  }

  /** It is a checkpoint by kind and does not parse as one. */
  predicate IsGarbled(env: Env, lines: seq<Bytes>, at: nat) {
    1 <= at <= |lines| && IsCheckpointLine(env, lines[at - 1]) && ParsedAt(env, lines, at).None?
  }

  // ---- The report names exactly that --------------------------------------------------------

  lemma JudgedLine(env: Env, lines: seq<Bytes>, n: nat)
    requires n < |lines| && Judge(env, lines, n).Got?
    ensures var r := Judge(env, lines, n).record;
      && r.at == n + 1 && r.line == lines[n] && r.chainBefore == ChainOf(env.sha, lines[..n])
      && (r.IsCheckpoint() <==> IsCheckpointLine(env, lines[n]))
      && (r.IsCheckpoint() ==> r.json.checkpoint == ParsedAt(env, lines, n + 1))
  {
    hide ChainOf;
  }

  lemma LastParsedUnique(env: Env, lines: seq<Bytes>, n: nat, a: Option<nat>, b: Option<nat>)
    requires LastParsed(env, lines, n, a) && LastParsed(env, lines, n, b)
    ensures a == b
  {
    assert ParsedAt(env, lines, 0).None?;
    hide ParsedAt;
  }

  lemma {:induction false} ScanPrevious(env: Env, keys: seq<VerifyingKey>, lines: seq<Bytes>, n: nat)
    requires n <= |lines| && forall i :: 0 <= i < n ==> Judge(env, lines, i).Got?
    ensures LastParsed(env, lines, n, ScanTo(env, keys, lines, n).previous)
  {
    hide Judge, Findings, Extend, ParsedAt, CheckSignature;
    if n > 0 {
      ScanPrevious(env, keys, lines, n - 1);
      JudgedLine(env, lines, n - 1);
      NotACheckpoint(env, lines, n);
    }
  }

  lemma NotACheckpoint(env: Env, lines: seq<Bytes>, at: nat)
    requires 1 <= at <= |lines|
    ensures !IsCheckpointLine(env, lines[at - 1]) ==> ParsedAt(env, lines, at).None?
  {
  }

  /** What one record adds to the list of problems. */
  function Added(s: Scan, r: Record, keys: seq<VerifyingKey>): seq<Problem> {
    if !r.IsCheckpoint() then []
    else
      match r.json.checkpoint
      case None => [Unreadable]
      case Some(cp) => Findings(cp, r.at, r.chainBefore, s.previous, keys)
  }

  lemma VisitAdds(env: Env, keys: seq<VerifyingKey>, s: Scan, r: Record)
    ensures Visit(env, keys, s, r).report.problems == s.report.problems + Added(s, r, keys)
  {
    hide Findings, Extend, CheckSignature;
    assert s.report.problems + [] == s.report.problems;
  }

  lemma FindingsNamed(cp: Checkpoint, at: nat, chain: Digest, previous: Option<nat>, keys: seq<VerifyingKey>, m: nat)
    requires at >= 1
    ensures var found := Findings(cp, at, chain, previous, keys);
      && (ChainMismatch(m) in found <==> m == at && cp.chain != Label(chain))
      && (CoverageMismatch(m) in found <==> m == at && CoversOther(cp, at, previous))
      && (BadSignature(m) in found <==>
           m == at && keys != [] && !(cp.keyId.None? && cp.signature.None?) && !ValidlySigned(cp, at, keys))
      && (UnsignedCheckpoint(m) in found <==> m == at && keys != [] && cp.keyId.None? && cp.signature.None?)
      && Unreadable !in found
  {
    SignatureMeans(cp, at, keys);
    hide Label, CheckSignature, Judges, Payload;
  }

  /** What the line with number `at` adds, in terms of the lines. */
  lemma AddedNamed(env: Env, keys: seq<VerifyingKey>, lines: seq<Bytes>, n: nat, s: Scan, m: nat)
    requires n < |lines| && Judge(env, lines, n).Got? && LastParsed(env, lines, n, s.previous)
    ensures var added := Added(s, Judge(env, lines, n).record, keys);
      && (ChainMismatch(m) in added <==> m == n + 1 && ChainIsWrong(env, lines, m))
      && (CoverageMismatch(m) in added <==> m == n + 1 && CoverageIsWrong(env, lines, m))
      && (BadSignature(m) in added <==> m == n + 1 && keys != [] && SignatureIsWrong(env, keys, lines, m))
      && (UnsignedCheckpoint(m) in added <==> m == n + 1 && keys != [] && IsUnsigned(env, lines, m))
      && (Unreadable in added <==> IsGarbled(env, lines, n + 1))
  {
    hide Judge, Findings, ChainOf, Label, ValidlySigned, ParsedAt, CoversOther, LastParsed;
    JudgedLine(env, lines, n);
    NotACheckpoint(env, lines, n + 1);
    var r := Judge(env, lines, n).record;
    if r.IsCheckpoint() && r.json.checkpoint.Some? {
      var cp := r.json.checkpoint.value;
      FindingsNamed(cp, n + 1, r.chainBefore, s.previous, keys, m);
      OnlyOnePrevious(env, lines, n, s.previous, cp);
    }
  }

  lemma OnlyOnePrevious(env: Env, lines: seq<Bytes>, n: nat, previous: Option<nat>, cp: Checkpoint)
    requires LastParsed(env, lines, n, previous) && ParsedAt(env, lines, n + 1) == Some(cp)
    ensures CoverageIsWrong(env, lines, n + 1) <==> CoversOther(cp, n + 1, previous)
  {
    hide LastParsed, ParsedAt, CoversOther;
    if other :| LastParsed(env, lines, n, other) && CoversOther(cp, n + 1, other) {
      LastParsedUnique(env, lines, n, previous, other);
    }
  }

  /** The scan names a problem at a number exactly if that is what is wrong there. */
  lemma {:induction false} ScanNames(env: Env, keys: seq<VerifyingKey>, lines: seq<Bytes>, n: nat, m: nat)
    requires n <= |lines| && forall i :: 0 <= i < n ==> Judge(env, lines, i).Got?
    ensures var problems := ScanTo(env, keys, lines, n).report.problems;
      && (ChainMismatch(m) in problems <==> 1 <= m <= n && ChainIsWrong(env, lines, m))
      && (CoverageMismatch(m) in problems <==> 1 <= m <= n && CoverageIsWrong(env, lines, m))
      && (BadSignature(m) in problems <==> 1 <= m <= n && keys != [] && SignatureIsWrong(env, keys, lines, m))
      && (UnsignedCheckpoint(m) in problems <==> 1 <= m <= n && keys != [] && IsUnsigned(env, lines, m))
      && (Unreadable in problems <==> exists at :: 1 <= at <= n && IsGarbled(env, lines, at))
  {
    hide Judge, Visit, ChainIsWrong, CoverageIsWrong, SignatureIsWrong, IsUnsigned, IsGarbled, LastParsed, Added;
    if n > 0 {
      var before := ScanTo(env, keys, lines, n - 1);
      ScanNames(env, keys, lines, n - 1, m);
      ScanPrevious(env, keys, lines, n - 1);
      VisitAdds(env, keys, before, Judge(env, lines, n - 1).record);
      AddedNamed(env, keys, lines, n - 1, before, m);
    }
  }

  /** The report of a file, problem by problem: over the lines it could read, and
      with a note if it stopped before the end. */
  lemma ReportNames(env: Env, keys: seq<VerifyingKey>, contents: Bytes, m: nat)
    ensures var n, lines := GoodFrom(env, contents, 0), Lines(contents);
      var problems := Scanned(env, keys, contents).report.problems;
      && (ChainMismatch(m) in problems <==> 1 <= m <= n && ChainIsWrong(env, lines, m))
      && (CoverageMismatch(m) in problems <==> 1 <= m <= n && CoverageIsWrong(env, lines, m))
      && (BadSignature(m) in problems <==> 1 <= m <= n && keys != [] && SignatureIsWrong(env, keys, lines, m))
      && (UnsignedCheckpoint(m) in problems <==> 1 <= m <= n && keys != [] && IsUnsigned(env, lines, m))
      && (Unreadable in problems <==>
           !ItemAt(env, contents, n).End? || exists at :: 1 <= at <= n && IsGarbled(env, lines, at))
  {
    hide Lines, GoodFrom, ScanTo, ChainIsWrong, CoverageIsWrong, SignatureIsWrong, IsUnsigned, IsGarbled, ItemAt;
    ScanNames(env, keys, Lines(contents), GoodFrom(env, contents, 0), m);
  }

  // ---- The counts ------------------------------------------------------------------------------

  /** How many of the lines `from + 1 .. upto` are events. */
  function EventsIn(env: Env, lines: seq<Bytes>, from: nat, upto: nat): nat
    requires from <= upto <= |lines|
    decreases upto
  {
    if upto == from then 0
    else EventsIn(env, lines, from, upto - 1) + if IsCheckpointLine(env, lines[upto - 1]) then 0 else 1
  }

  /** How many of the first `n` lines are checkpoints with an accepted signature. */
  ghost function SignedIn(env: Env, keys: seq<VerifyingKey>, lines: seq<Bytes>, n: nat): nat {
    if n == 0 then 0
    else
      var cp := ParsedAt(env, lines, n);
      SignedIn(env, keys, lines, n - 1) + if cp.Some? && ValidlySigned(cp.value, n, keys) then 1 else 0
  }

  /** What the counts count, on every file. */
  ghost predicate CountsRight(env: Env, keys: seq<VerifyingKey>, lines: seq<Bytes>, n: nat, s: Scan)
    requires n <= |lines|
  {
    && s.report.records == s.report.lastSeq == n && s.report.chain == ChainOf(env.sha, lines[..n])
    && s.report.checkpoints == n - EventsIn(env, lines, 0, n)
    && s.report.signed == (if keys == [] then 0 else SignedIn(env, keys, lines, n))
    && (match s.previous
        case None => s.report.sealedThrough == None && s.report.unsealed == EventsIn(env, lines, 0, n)
        case Some(k) =>
          k <= n && ParsedAt(env, lines, k).Some? &&
          s.report.sealedThrough == Some(ParsedAt(env, lines, k).value.coversTo) &&
          s.report.unsealed == EventsIn(env, lines, k, n))
  }

  lemma NoLinesCounted(env: Env, keys: seq<VerifyingKey>, lines: seq<Bytes>)
    ensures CountsRight(env, keys, lines, 0, Fresh(env))
  {
    assert lines[..0] == [];
  }

  lemma VisitCounts(env: Env, keys: seq<VerifyingKey>, lines: seq<Bytes>, n: nat, s: Scan)
    requires n < |lines| && Judge(env, lines, n).Got? && CountsRight(env, keys, lines, n, s)
    ensures CountsRight(env, keys, lines, n + 1, Visit(env, keys, s, Judge(env, lines, n).record))
  {
    JudgedLine(env, lines, n);
    NotACheckpoint(env, lines, n + 1);
    ChainStep(env.sha, lines, n);
    if ParsedAt(env, lines, n + 1).Some? { SignatureMeans(ParsedAt(env, lines, n + 1).value, n + 1, keys); }
    hide Judge, ChainOf, Extend, Findings, ParsedAt, CheckSignature, Judges, Payload, IsCheckpointLine;
  }

  lemma {:induction false} ScanCounts(env: Env, keys: seq<VerifyingKey>, lines: seq<Bytes>, n: nat)
    requires n <= |lines| && forall i :: 0 <= i < n ==> Judge(env, lines, i).Got?
    ensures CountsRight(env, keys, lines, n, ScanTo(env, keys, lines, n))
    ensures LastParsed(env, lines, n, ScanTo(env, keys, lines, n).previous)
  {
    hide Judge, Visit, CountsRight, LastParsed;
    ScanPrevious(env, keys, lines, n);
    if n == 0 {
      NoLinesCounted(env, keys, lines);
    } else {
      ScanCounts(env, keys, lines, n - 1);
      VisitCounts(env, keys, lines, n - 1, ScanTo(env, keys, lines, n - 1));
    }
  }
}
