/** Comparing the exported checkpoints with those the journal holds. */
module Exports {
  import opened Bytes
  import opened Checkpoints
  import opened Issues
  import opened Journal
  import opened JournalRuns
  import opened Reader
  import opened Verify

  type Entry = (nat, Bytes)

  /** Sorted by sequence, as `read_all` leaves the exports. */
  predicate Ascending(s: seq<Entry>) { forall i, j :: 0 <= i < j < |s| ==> s[i].0 <= s[j].0 }

  /** Sorted with no sequence twice, as the scan leaves the journal's checkpoints. */
  predicate Increasing(s: seq<Entry>) { forall i, j :: 0 <= i < j < |s| ==> s[i].0 < s[j].0 }

  predicate Within(s: seq<Entry>, last: nat) { forall i :: 0 <= i < |s| ==> s[i].0 <= last }

  predicate Included(a: seq<Entry>, b: seq<Entry>) { forall i :: 0 <= i < |a| ==> a[i] in b }

  /** `binary_search_by_key`. */
  method FindSealed(sealed: seq<Entry>, at: nat) returns (r: Option<nat>)
    requires Increasing(sealed)
    ensures r.Some? ==> r.value < |sealed| && sealed[r.value].0 == at
    ensures r.None? ==> forall i :: 0 <= i < |sealed| ==> sealed[i].0 != at
  {
    var low, high := 0, |sealed|;
    while low < high
      invariant 0 <= low <= high <= |sealed|
      invariant forall i :: 0 <= i < |sealed| && !(low <= i < high) ==> sealed[i].0 != at
    {
      var mid := (low + high) / 2;
      if sealed[mid].0 == at { return Some(mid); }
      if sealed[mid].0 < at { low := mid + 1; } else { high := mid; }
    }
    r := None;
  }

  /** No sequence is exported twice and every export is a journal checkpoint. */
  predicate Vouched(exported: seq<Entry>, sealed: seq<Entry>) { Increasing(exported) && Included(exported, sealed) }

  /** The first export of its number. */
  predicate First(exported: seq<Entry>, i: nat) { i < |exported| && (i == 0 || exported[i - 1].0 != exported[i].0) }

  /** The first export of its number is this very checkpoint. */
  ghost predicate Vouches(exported: seq<Entry>, entry: Entry) {
    exists i: nat :: First(exported, i) && exported[i] == entry
  }

  ghost predicate Exported(exported: seq<Entry>, at: nat) { exists i :: 0 <= i < |exported| && exported[i].0 == at }

  ghost predicate Sealed(sealed: seq<Entry>, at: nat) { exists k :: 0 <= k < |sealed| && sealed[k].0 == at }

  ghost predicate Repeated(exported: seq<Entry>, at: nat) {
    exists i :: 0 < i < |exported| && exported[i].0 == at && exported[i - 1].0 == at
  }

  /** The first export of a number has another line than the journal's checkpoint of that number. */
  ghost predicate Differs(sealed: seq<Entry>, exported: seq<Entry>, at: nat) {
    exists i: nat, k :: First(exported, i) && exported[i].0 == at && 0 <= k < |sealed| && sealed[k].0 == at &&
      sealed[k].1 != exported[i].1
  }

  /** What export `j` is reported for, if anything. */
  ghost function Reported(sealed: seq<Entry>, last: nat, exported: seq<Entry>, j: nat): Option<Problem>
    requires j < |exported|
  {
    var at := exported[j].0;
    if !First(exported, j) then Some(ExportDuplicate(at))
    else if at > last then Some(ExportBeyondJournal(at, last))
    else if exported[j] in sealed then None
    else if Sealed(sealed, at) then Some(ExportDiffers(at))
    else Some(ExportMissingFromJournal(at))
  }

  /** `problems` are those of the first `n` exports. */
  ghost predicate Reports(sealed: seq<Entry>, last: nat, exported: seq<Entry>, n: nat, problems: seq<Problem>) {
    n <= |exported| &&
    forall p :: p in problems <==> exists j :: 0 <= j < n && Reported(sealed, last, exported, j) == Some(p)
  }

  lemma ReportNext(sealed: seq<Entry>, last: nat, exported: seq<Entry>, n: nat, problems: seq<Problem>)
    requires n < |exported| && Reports(sealed, last, exported, n, problems)
    ensures var r := Reported(sealed, last, exported, n);
      Reports(sealed, last, exported, n + 1, if r.Some? then problems + [r.value] else problems)
  {
    hide Reported;
  }

  lemma {:induction false} FirstOf(exported: seq<Entry>, i: nat) returns (j: nat)
    requires i < |exported|
    ensures j <= i && First(exported, j) && exported[j].0 == exported[i].0
  {
    if First(exported, i) {
      j := i;
    } else {
      j := FirstOf(exported, i - 1);
    }
  }

  lemma SealedOnce(sealed: seq<Entry>, j: nat, k: nat)
    requires Increasing(sealed) && j < |sealed| && k < |sealed| && sealed[j].0 == sealed[k].0
    ensures j == k
  {
  }

  lemma OtherLine(sealed: seq<Entry>, entry: Entry, k: nat)
    requires Increasing(sealed) && k < |sealed| && sealed[k].0 == entry.0
    ensures entry in sealed <==> sealed[k] == entry
  {
    forall m: nat | m < |sealed| && sealed[m].0 == entry.0 ensures m == k {
      SealedOnce(sealed, m, k);
    }
  }

  /** The problems at a number are what is wrong with its exports: repeated, past
      the journal's end, no checkpoint of that number, or another line. */
  ghost predicate Named(sealed: seq<Entry>, last: nat, exported: seq<Entry>, problems: seq<Problem>, at: nat) {
    && (ExportDuplicate(at) in problems <==> Repeated(exported, at))
    && (forall l: nat :: ExportBeyondJournal(at, l) in problems <==> l == last && at > last && Exported(exported, at))
    && (ExportMissingFromJournal(at) in problems <==> at <= last && Exported(exported, at) && !Sealed(sealed, at))
    && (ExportDiffers(at) in problems <==> Differs(sealed, exported, at))
  }

  predicate OfAnExport(p: Problem) {
    p.ExportDuplicate? || p.ExportBeyondJournal? || p.ExportMissingFromJournal? || p.ExportDiffers?
  }

  /** Each kind of problem, in terms of the two lists. */
  lemma ReportsMean(sealed: seq<Entry>, last: nat, exported: seq<Entry>, problems: seq<Problem>, at: nat)
    requires Increasing(sealed) && Within(sealed, last) && Reports(sealed, last, exported, |exported|, problems)
    ensures Named(sealed, last, exported, problems, at)
  {
    hide Increasing, Exported, Repeated, Differs, Sealed, Reported;
    RepeatedReported(sealed, last, exported, at);
    ExportedReported(sealed, last, exported, at);
    DiffersReported(sealed, last, exported, at);
  }

  lemma RepeatedReported(sealed: seq<Entry>, last: nat, exported: seq<Entry>, at: nat)
    ensures Repeated(exported, at) <==>
      exists j :: 0 <= j < |exported| && Reported(sealed, last, exported, j) == Some(ExportDuplicate(at))
  {
    hide Sealed;
    if Repeated(exported, at) {
      var i :| 0 < i < |exported| && exported[i].0 == at && exported[i - 1].0 == at;
      assert Reported(sealed, last, exported, i) == Some(ExportDuplicate(at));
    }
  }

  lemma ExportedReported(sealed: seq<Entry>, last: nat, exported: seq<Entry>, at: nat)
    requires Within(sealed, last)
    ensures forall l: nat :: l == last && at > last && Exported(exported, at) <==>
      exists j :: 0 <= j < |exported| && Reported(sealed, last, exported, j) == Some(ExportBeyondJournal(at, l))
    ensures at <= last && Exported(exported, at) && !Sealed(sealed, at) <==>
      exists j :: 0 <= j < |exported| && Reported(sealed, last, exported, j) == Some(ExportMissingFromJournal(at))
  {
    if Exported(exported, at) {
      var i :| 0 <= i < |exported| && exported[i].0 == at;
      var j := FirstOf(exported, i);
      assert Reported(sealed, last, exported, j) != Some(ExportDuplicate(at));
    }
  }

  lemma DiffersReported(sealed: seq<Entry>, last: nat, exported: seq<Entry>, at: nat)
    requires Increasing(sealed) && Within(sealed, last)
    ensures Differs(sealed, exported, at) <==>
      exists j :: 0 <= j < |exported| && Reported(sealed, last, exported, j) == Some(ExportDiffers(at))
  {
    hide Increasing;
    if Differs(sealed, exported, at) {
      var i: nat, k :| First(exported, i) && exported[i].0 == at && 0 <= k < |sealed| && sealed[k].0 == at &&
        sealed[k].1 != exported[i].1;
      OtherLine(sealed, exported[i], k);
      assert Reported(sealed, last, exported, i) == Some(ExportDiffers(at));
    }
  }

  /** The journal checkpoint each export vouches for, marked in `covered`; and a
      problem for each export that vouches for none, saying which and why. */
  method CompareExports(sealed: seq<Entry>, last: nat, exported: seq<Entry>, covered: array<bool>)
    returns (problems: seq<Problem>)
    requires Increasing(sealed) && Within(sealed, last) && Ascending(exported)
    requires covered.Length == |sealed| && forall k :: 0 <= k < |sealed| ==> !covered[k]
    modifies covered
    ensures problems == [] <==> Vouched(exported, sealed)
    ensures forall k :: 0 <= k < |sealed| ==> (covered[k] <==> Vouches(exported, sealed[k]))
    ensures forall at: nat :: Named(sealed, last, exported, problems, at)
    ensures forall p :: p in problems ==> OfAnExport(p)
  {
    hide Named, Vouched, Reported, Reports, Vouches, Sealed, Exported, Repeated, Differs;
    problems := [];
    var previous: Option<nat> := None;
    NothingExported(sealed, last, exported);
    for i := 0 to |exported|
      invariant problems == [] <==> Vouched(exported[..i], sealed)
      invariant previous == if i == 0 then None else Some(exported[i - 1].0)
      invariant forall k :: 0 <= k < |sealed| ==> (covered[k] <==> Vouches(exported[..i], sealed[k]))
      invariant Reports(sealed, last, exported, i, problems)
    {
      var (at, line) := exported[i];
      ExtendClean(exported, sealed, i);
      ReportNext(sealed, last, exported, i, problems);
      VouchesNext(exported, i);
      ReportedIs(sealed, last, exported, i);
      if previous == Some(at) {
        problems := problems + [ExportDuplicate(at)];
        continue;
      }
      previous := Some(at);
      if at > last {
        problems := problems + [ExportBeyondJournal(at, last)];
        continue;
      }
      var found := FindSealed(sealed, at);
      if found.None? {
        problems := problems + [ExportMissingFromJournal(at)];
      } else if sealed[found.value].1 != line {
        problems := problems + [ExportDiffers(at)];
      } else {
        covered[found.value] := true;
      }
    }
    assert exported[..|exported|] == exported;
    forall at: nat {
      ReportsMean(sealed, last, exported, problems, at);
    }
    OnlyThose(sealed, last, exported, problems);
  }

  /** What the loop has to look at to know what an export is reported for. */
  lemma ReportedIs(sealed: seq<Entry>, last: nat, exported: seq<Entry>, i: nat)
    requires Increasing(sealed) && Within(sealed, last) && i < |exported|
    ensures var at := exported[i].0;
      && (i > 0 && exported[i - 1].0 == at ==> Reported(sealed, last, exported, i) == Some(ExportDuplicate(at)))
      && ((i == 0 || exported[i - 1].0 != at) && at > last ==>
           Reported(sealed, last, exported, i) == Some(ExportBeyondJournal(at, last)))
      && ((i == 0 || exported[i - 1].0 != at) && at <= last && (forall k :: 0 <= k < |sealed| ==> sealed[k].0 != at) ==>
           Reported(sealed, last, exported, i) == Some(ExportMissingFromJournal(at)))
      && (forall k :: (i == 0 || exported[i - 1].0 != at) && 0 <= k < |sealed| && sealed[k].0 == at ==>
           Reported(sealed, last, exported, i) == if sealed[k] == exported[i] then None else Some(ExportDiffers(at)))
  {
    forall k, m | 0 <= k < |sealed| && 0 <= m < |sealed| && sealed[k].0 == sealed[m].0 ensures k == m {
      SealedOnce(sealed, k, m);
    }
  }

  lemma VouchesNext(exported: seq<Entry>, i: nat)
    requires i < |exported|
    ensures forall entry :: Vouches(exported[..i + 1], entry) <==>
      Vouches(exported[..i], entry) || (First(exported, i) && exported[i] == entry)
  {
    var a, b := exported[..i], exported[..i + 1];
    forall entry ensures Vouches(b, entry) <==> Vouches(a, entry) || (First(exported, i) && exported[i] == entry) {
      if Vouches(b, entry) {
        var k: nat :| First(b, k) && b[k] == entry;
        if k < i { assert First(a, k) && a[k] == entry; }
      }
      if Vouches(a, entry) {
        var k: nat :| First(a, k) && a[k] == entry;
        assert First(b, k) && b[k] == entry;
      }
      if First(exported, i) && exported[i] == entry { assert First(b, i) && b[i] == entry; }
    }
  }

  lemma OnlyThose(sealed: seq<Entry>, last: nat, exported: seq<Entry>, problems: seq<Problem>)
    requires Reports(sealed, last, exported, |exported|, problems)
    ensures forall p :: p in problems ==> OfAnExport(p)
  {
  }

  lemma NothingExported(sealed: seq<Entry>, last: nat, exported: seq<Entry>)
    ensures Vouched(exported[..0], sealed) && Reports(sealed, last, exported, 0, [])
    ensures forall entry :: !Vouches(exported[..0], entry)
  {
  }

  /** The export phase of `verify`: exact, and each problem says what is wrong. */
  method Reconcile(sealed: seq<Entry>, last: nat, exported: seq<Entry>) returns (problems: seq<Problem>)
    requires Increasing(sealed) && Within(sealed, last) && Ascending(exported)
    ensures problems == [] <==> exported == sealed
    ensures forall at: nat :: Named(sealed, last, exported, problems, at)
    ensures forall at: nat :: ExportMissing(at) in problems <==> Unvouched(sealed, exported, at)
    ensures forall p :: p in problems ==> OfAnExport(p) || p.ExportMissing?
  {
    hide Vouched, Vouches, Sealed, Exported, Repeated, Differs;
    var covered := new bool[|sealed|](_ => false);
    var found := CompareExports(sealed, last, exported, covered);
    problems := found;
    for k := 0 to |sealed|
      invariant found <= problems
      invariant forall p :: p in problems <==>
        p in found || (p.ExportMissing? && MissingBelow(sealed, covered[..], k, p.at))
      invariant problems == [] <==> found == [] && forall j :: 0 <= j < k ==> covered[j]
    {
      if !covered[k] { problems := problems + [ExportMissing(sealed[k].0)]; }
    }
    AllVouched(sealed, exported, covered[..]);
    forall at: nat ensures Named(sealed, last, exported, problems, at) {
      NamedAlike(sealed, last, exported, found, problems, at);
    }
    forall at: nat ensures MissingBelow(sealed, covered[..], |sealed|, at) <==> Unvouched(sealed, exported, at) {
      MissingIs(sealed, exported, covered[..], at);
    }
  }

  lemma NamedAlike(sealed: seq<Entry>, last: nat, exported: seq<Entry>, a: seq<Problem>, b: seq<Problem>, at: nat)
    requires Named(sealed, last, exported, a, at) && forall p :: OfAnExport(p) ==> (p in a <==> p in b)
    ensures Named(sealed, last, exported, b, at)
  {
    hide Repeated, Exported, Sealed, Differs;
    assert OfAnExport(ExportDuplicate(at)) && OfAnExport(ExportDiffers(at)) && OfAnExport(ExportMissingFromJournal(at));
    assert forall l: nat :: OfAnExport(ExportBeyondJournal(at, l));
  }

  /** The journal has a checkpoint of that number, and no export vouches for it. */
  ghost predicate Unvouched(sealed: seq<Entry>, exported: seq<Entry>, at: nat) {
    exists k :: 0 <= k < |sealed| && sealed[k].0 == at && !Vouches(exported, sealed[k])
  }

  lemma MissingIs(sealed: seq<Entry>, exported: seq<Entry>, covered: seq<bool>, at: nat)
    requires |covered| == |sealed| && forall k :: 0 <= k < |sealed| ==> (covered[k] <==> Vouches(exported, sealed[k]))
    ensures MissingBelow(sealed, covered, |sealed|, at) <==> Unvouched(sealed, exported, at)
  {
    hide Vouches;
  }

  ghost predicate MissingBelow(sealed: seq<Entry>, covered: seq<bool>, n: nat, at: nat) {
    exists k :: 0 <= k < n && k < |sealed| && k < |covered| && sealed[k].0 == at && !covered[k]
  }

  lemma AllVouched(sealed: seq<Entry>, exported: seq<Entry>, covered: seq<bool>)
    requires Increasing(sealed) && |covered| == |sealed|
    requires forall k :: 0 <= k < |sealed| ==> (covered[k] <==> Vouches(exported, sealed[k]))
    ensures Vouched(exported, sealed) && (forall j :: 0 <= j < |sealed| ==> covered[j]) <==> exported == sealed
  {
    if Vouched(exported, sealed) && forall j :: 0 <= j < |sealed| ==> covered[j] {
      forall j | 0 <= j < |sealed| ensures sealed[j] in exported {
        assert Vouches(exported, sealed[j]);
      }
      SameEntries(exported, sealed);
    }
    if exported == sealed {
      forall j | 0 <= j < |sealed| ensures Vouches(exported, sealed[j]) {
        assert First(exported, j);
      }
    }
  }

  /** One more export keeps a clean prefix clean exactly when it is a new
      sequence and one of the journal's checkpoints. */
  lemma ExtendClean(exported: seq<Entry>, sealed: seq<Entry>, i: nat)
    requires i < |exported| && Ascending(exported)
    ensures Vouched(exported[..i + 1], sealed) <==>
      Vouched(exported[..i], sealed) && exported[i] in sealed && (i == 0 || exported[i - 1].0 != exported[i].0)
    ensures exported[..i + 1] == exported[..i] + [exported[i]]
  {
    var a, b := exported[..i], exported[..i + 1];
    assert b == a + [exported[i]];
    assert forall j :: 0 <= j < i ==> a[j] == b[j];
    if Vouched(b, sealed) {
      assert b[i] in sealed;
      assert i > 0 ==> b[i - 1].0 < b[i].0;
    }
    if Vouched(a, sealed) && i > 0 && exported[i - 1].0 != exported[i].0 {
      assert exported[i - 1].0 <= exported[i].0;
      assert forall j :: 0 <= j < i ==> a[j].0 <= a[i - 1].0;
    }
  }

  lemma LastIsGreatest(s: seq<Entry>, x: Entry)
    requires Increasing(s) && x in s
    ensures x.0 <= s[|s| - 1].0 && (x.0 == s[|s| - 1].0 ==> x == s[|s| - 1])
  {
  }

  lemma IncludedInit(a: seq<Entry>, b: seq<Entry>)
    requires Increasing(a) && Increasing(b) && Included(a, b) && a != [] && b != [] && a[|a| - 1] == b[|b| - 1]
    ensures Increasing(a[..|a| - 1]) && Included(a[..|a| - 1], b[..|b| - 1])
  {
    var init := a[..|a| - 1];
    forall i | 0 <= i < |init| ensures init[i] in b[..|b| - 1] {
      assert a[i] in b;
      assert a[i].0 < a[|a| - 1].0;
    }
  }

  /** Two increasing sequences with the same entries are the same sequence. */
  lemma {:induction false} SameEntries(a: seq<Entry>, b: seq<Entry>)
    requires Increasing(a) && Increasing(b) && Included(a, b) && Included(b, a)
    ensures a == b
    decreases |a|
  {
    assert a != [] ==> a[0] in b;
    assert b != [] ==> b[0] in a;
    if a != [] {
      var x, y := a[|a| - 1], b[|b| - 1];
      LastIsGreatest(b, x);
      LastIsGreatest(a, y);
      IncludedInit(a, b);
      IncludedInit(b, a);
      SameEntries(a[..|a| - 1], b[..|b| - 1]);
      assert a == a[..|a| - 1] + [x] && b == b[..|b| - 1] + [y];
    }
  }

  // ---- The whole verification ---------------------------------------------------------

  /** The scan lists its checkpoints in increasing order, none past the last record. */
  lemma {:induction false} ScanListsInOrder(env: Env, keys: seq<VerifyingKey>, lines: seq<Bytes>, n: nat)
    requires n <= |lines| && forall i :: 0 <= i < n ==> Judge(env, lines, i).Got?
    ensures var s := ScanTo(env, keys, lines, n);
      Increasing(s.sealed) && Within(s.sealed, s.report.lastSeq) && s.report.lastSeq == n
  {
    hide Visit, ChainOf, Text;
    if n > 0 {
      ScanListsInOrder(env, keys, lines, n - 1);
      VisitLists(env, keys, ScanTo(env, keys, lines, n - 1), Judge(env, lines, n - 1).record);
    }
  }

  lemma VisitLists(env: Env, keys: seq<VerifyingKey>, s: Scan, r: Record)
    ensures var t := Visit(env, keys, s, r);
      t.report.lastSeq == r.at && (t.sealed == s.sealed || t.sealed == s.sealed + [(r.at, r.line)])
  {
    hide Findings, Extend, CheckSignature;
  }

  /** `verify` with exports: it reports no problem if and only if the journal
      passes on its own and the exports are exactly its checkpoint lines. */
  method VerifyWithExports(env: Env, keys: seq<VerifyingKey>, contents: Bytes, exported: seq<Entry>)
    returns (report: Report)
    requires Ascending(exported)
    ensures report == Scanned(env, keys, contents).report.(problems := report.problems)
    ensures report.problems == [] <==>
      Tail(contents) == [] && AllOk(env, keys, Lines(contents), |Lines(contents)|) &&
      exported == CheckpointLines(env, Lines(contents))
    ensures forall at: nat :: at > report.lastSeq && Exported(exported, at) ==>
      ExportBeyondJournal(at, report.lastSeq) in report.problems
    ensures forall p :: p in Scanned(env, keys, contents).report.problems ==> p in report.problems
  {
    hide Lines, Tail, GoodFrom, ScanTo, AllOk, CheckpointLines;
    var s := ScanJournal(env, keys, contents);
    ScanListsInOrder(env, keys, Lines(contents), GoodFrom(env, contents, 0));
    VerifyIsExact(env, keys, contents);
    var found := Reconcile(s.sealed, s.report.lastSeq, exported);
    report := s.report.(problems := s.report.problems + found);
    forall at: nat | at > report.lastSeq && Exported(exported, at)
      ensures ExportBeyondJournal(at, report.lastSeq) in report.problems
    {
      assert Named(s.sealed, s.report.lastSeq, exported, found, at);
    }
  }

  // ---- What the writer exports ------------------------------------------------------------

  function EntryOf(i: Issue): Entry { (|i.lines| + 1, i.line) }

  /** The entries a run exports: its synced checkpoints, as far as the sink took them. */
  function ExportsOf(issues: seq<Issue>, taken: nat -> bool): seq<Entry> {
    if issues == [] then []
    else
      var n := |issues| - 1;
      ExportsOf(issues[..n], taken) +
        if issues[n].synced && taken(n) then [EntryOf(issues[n])] else []
  }

  lemma {:induction false} CheckpointListed(env: Env, lines: seq<Bytes>, k: nat)
    requires k < |lines| && IsCheckpointLine(env, lines[k])
    ensures (k + 1, lines[k]) in CheckpointLines(env, lines)
    decreases |lines|
  {
    hide IsCheckpointLine;
    var n := |lines| - 1;
    if k < n { CheckpointListed(env, lines[..n], k); }
  }

  lemma {:induction false} ExportsAreIssues(issues: seq<Issue>, taken: nat -> bool, k: nat) returns (j: nat)
    requires k < |ExportsOf(issues, taken)|
    ensures j < |issues| && issues[j].synced && ExportsOf(issues, taken)[k] == EntryOf(issues[j])
  {
    var n := |issues| - 1;
    if k < |ExportsOf(issues[..n], taken)| {
      j := ExportsAreIssues(issues[..n], taken, k);
    } else {
      j := n;
    }
  }

  /** Exports of increasing issues are increasing. */
  lemma {:induction false} ExportsIncrease(issues: seq<Issue>, taken: nat -> bool)
    requires forall i, j :: 0 <= i < j < |issues| && issues[i].synced ==> |issues[i].lines| < |issues[j].lines|
    ensures Increasing(ExportsOf(issues, taken))
  {
    if issues != [] {
      var n := |issues| - 1;
      var before := ExportsOf(issues[..n], taken);
      ExportsIncrease(issues[..n], taken);
      forall k | 0 <= k < |before| ensures before[k].0 < |issues[n].lines| + 1 {
        var j := ExportsAreIssues(issues[..n], taken, k);
        assert issues[j] == issues[..n][j];
      }
    }
  }

  /** Whatever the run went through and whichever exports the sink lost, the
      exported checkpoints are the journal's own, each once and in order; so the
      verifier can only miss some, and finds nothing exactly if it misses none. */
  lemma ExportsAreVouched(env: Env, ok: Allowed, events: seq<Event>, taken: nat -> bool)
    requires Faithful(env) && ValidRun(env, ok, events)
    ensures Vouched(ExportsOf(Issued(env, events), taken), CheckpointLines(env, Lines(Run(env, events).disk.contents)))
  {
    var issues, disk := Issued(env, events), Run(env, events).disk;
    RunIssues(env, ok, events);
    var lines, exports := Lines(disk.contents), ExportsOf(issues, taken);
    hide Issued, Run, Lines, Faithful, AllIssued, Genuine, MadeBy, Flat;
    ExportsIncrease(issues, taken);
    hide ExportsOf, CheckpointLines, IssueOk, Keeps;
    forall k | 0 <= k < |exports| ensures exports[k] in CheckpointLines(env, lines) {
      var j := ExportsAreIssues(issues, taken, k);
      IssueListed(env, ok, disk, issues[j]);
    }
  }

  lemma IssueListed(env: Env, ok: Allowed, disk: Disk, i: Issue)
    requires Faithful(env) && IssueOk(env, ok, i) && Keeps(disk, i.lines + [i.line])
    ensures EntryOf(i) in CheckpointLines(env, Lines(disk.contents))
  {
    var lines := Lines(disk.contents);
    assert lines[|i.lines|] == (i.lines + [i.line])[|i.lines|] == i.line;
    hide Lines, Faithful, CheckpointLines, IssueOk;
    IssueIsCheckpoint(env, ok, i);
    CheckpointListed(env, lines, |i.lines|);
  }

  lemma IssueIsCheckpoint(env: Env, ok: Allowed, i: Issue)
    requires Faithful(env) && IssueOk(env, ok, i)
    ensures IsCheckpointLine(env, i.line)
  {
    var policy, stamp :| MadeBy(env, ok, i, policy, stamp);
    hide Faithful, Replay, SealLine, IsLine, Genuine;
    SealFacts(env, ok, i.lines, policy, stamp);
  }
}
