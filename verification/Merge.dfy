/** The bounded k-way merge of canonical partitions: one heap slot per
    partition, deduplication across partitions by a one-record memory, and a
    result limit. */
module Merge {
  import opened Bytes

  /** A record; `labels` and `metadata` as their JSON text. */
  datatype Canonical = Canonical(
    timestamp: Option<int>,
    source: string,
    payload: string,
    labels: Option<string>,
    metadata: Option<string>)

  /** `stable_key`, with SHA-256 taken as the text it hashes: payload and labels
      run together, metadata left out. */
  function StableKey(r: Canonical): (Option<int>, string, string) {
    (r.timestamp, r.source, r.payload + if r.labels.Some? then r.labels.value else "")
  }

  datatype Item = Item(record: Canonical, partition: nat, sequence: nat)

  /** `Option<i128>` order: `None` first. */
  predicate TimeLess(a: Option<int>, b: Option<int>) {
    b.Some? && (a.None? || a.value < b.value)
  }

  /** The natural order of `HeapRecord`: timestamp, partition, sequence. */
  predicate NaturalLess(a: Item, b: Item) {
    TimeLess(a.record.timestamp, b.record.timestamp) ||
    (a.record.timestamp == b.record.timestamp &&
     (a.partition < b.partition || (a.partition == b.partition && a.sequence < b.sequence)))
  }

  /** `a` leaves the max-heap before `b`. */
  predicate PopsBefore(reverse: bool, a: Item, b: Item) {
    if reverse then NaturalLess(b, a) else NaturalLess(a, b)
  }

  /** The declared global order: by timestamp, then partition (both descending
      when reversed), and by file order inside a partition. */
  predicate MergeBefore(reverse: bool, a: Item, b: Item) {
    var (ta, tb) := (a.record.timestamp, b.record.timestamp);
    (if reverse then TimeLess(tb, ta) else TimeLess(ta, tb)) ||
    (ta == tb &&
     ((if reverse then b.partition < a.partition else a.partition < b.partition) ||
      (a.partition == b.partition && a.sequence < b.sequence)))
  }

  type Parts = seq<seq<Canonical>>

  /** A partition file is ordered as declared; `validate_partition` refuses others. */
  predicate Ordered(reverse: bool, part: seq<Canonical>) {
    forall i, j :: 0 <= i < j < |part| ==>
      if reverse then !TimeLess(part[i].timestamp, part[j].timestamp)
      else !TimeLess(part[j].timestamp, part[i].timestamp)
  }

  /** The ordering check of `validate_partition`, one remembered timestamp at a time. */
  method CheckOrdering(reverse: bool, part: seq<Canonical>) returns (ordered: bool)
    ensures ordered <==> Ordered(reverse, part)
  {
    var previous: Option<Option<int>> := None;
    for i := 0 to |part|
      invariant previous == if i == 0 then None else Some(part[i - 1].timestamp)
      invariant Ordered(reverse, part[..i])
    {
      var now := part[i].timestamp;
      if previous.Some? && (if reverse then TimeLess(previous.value, now) else TimeLess(now, previous.value)) {
        assert part[i - 1].timestamp == previous.value;
        return false;
      }
      previous := Some(now);
    }
    assert part[..|part|] == part;
    ordered := true;
  }

  predicate AllOrdered(reverse: bool, parts: Parts) {
    forall p :: 0 <= p < |parts| ==> Ordered(reverse, parts[p])
  }

  /** `x` is a record of the input. */
  predicate Holds(parts: Parts, x: Item) {
    x.partition < |parts| && x.sequence < |parts[x.partition]| && x.record == parts[x.partition][x.sequence]
  }

  // ---- The merge on values: always take the best head ----------------------------------

  predicate Progress(parts: Parts, taken: seq<nat>) {
    |taken| == |parts| && forall p :: 0 <= p < |parts| ==> taken[p] <= |parts[p]|
  }

  function Head(parts: Parts, taken: seq<nat>, p: nat): Item
    requires Progress(parts, taken) && p < |parts| && taken[p] < |parts[p]|
  {
    Item(parts[p][taken[p]], p, taken[p])
  }

  /** The next unread record of each partition that has one. */
  ghost function Heads(parts: Parts, taken: seq<nat>): set<Item>
    requires Progress(parts, taken)
  {
    set p | 0 <= p < |parts| && taken[p] < |parts[p]| :: Head(parts, taken, p)
  }

  /** At most one record of each partition. */
  ghost predicate OneEach(items: set<Item>) {
    forall a, b :: a in items && b in items && a.partition == b.partition ==> a == b
  }

  ghost predicate IsBest(reverse: bool, x: Item, items: set<Item>) {
    x in items && forall y :: y in items ==> y == x || PopsBefore(reverse, x, y)
  }

  lemma PopsTransitive(reverse: bool, a: Item, b: Item, c: Item)
    requires PopsBefore(reverse, a, b) && PopsBefore(reverse, b, c)
    ensures PopsBefore(reverse, a, c)
  {
  }

  lemma PopsTotal(reverse: bool, a: Item, b: Item)
    requires a.partition != b.partition
    ensures PopsBefore(reverse, a, b) || PopsBefore(reverse, b, a)
  {
  }

  /** Adding one record to a set with a known best one. */
  lemma BetterOf(reverse: bool, items: set<Item>, x: Item, y: Item)
    requires IsBest(reverse, x, items) && x.partition != y.partition
    ensures IsBest(reverse, if PopsBefore(reverse, y, x) then y else x, items + {y})
  {
    hide PopsBefore;
    PopsTotal(reverse, x, y);
    if PopsBefore(reverse, y, x) {
      forall z | z in items && z != x ensures PopsBefore(reverse, y, z) {
        PopsTransitive(reverse, y, x, z);
      }
    }
  }

  lemma {:induction false} BestExists(reverse: bool, items: set<Item>)
    requires items != {} && OneEach(items)
    ensures exists x :: IsBest(reverse, x, items)
  {
    var y :| y in items;
    var others := items - {y};
    if others == {} {
      assert items == {y};
      assert IsBest(reverse, y, items);
    } else {
      BestExists(reverse, others);
      var x :| IsBest(reverse, x, others);
      BetterOf(reverse, others, x, y);
      assert items == others + {y};
    }
  }

  lemma BestUnique(reverse: bool, x: Item, y: Item, items: set<Item>)
    requires IsBest(reverse, x, items) && IsBest(reverse, y, items)
    ensures x == y
  {
  }

  ghost function Best(reverse: bool, items: set<Item>): (x: Item)
    requires items != {} && OneEach(items)
    ensures IsBest(reverse, x, items)
  {
    BestExists(reverse, items);
    var x :| IsBest(reverse, x, items);
    x
  }

  function Remaining(parts: Parts, taken: seq<nat>, n: nat): nat
    requires Progress(parts, taken) && n <= |parts|
  {
    if n == 0 then 0 else Remaining(parts, taken, n - 1) + (|parts[n - 1]| - taken[n - 1])
  }

  function Advance(taken: seq<nat>, p: nat): seq<nat>
    requires p < |taken|
  {
    taken[p := taken[p] + 1]
  }

  lemma {:induction false} RemainingDrops(parts: Parts, taken: seq<nat>, p: nat, n: nat)
    requires Progress(parts, taken) && n <= |parts| && p < |parts| && taken[p] < |parts[p]|
    ensures Progress(parts, Advance(taken, p))
    ensures Remaining(parts, taken, n) == Remaining(parts, Advance(taken, p), n) + if p < n then 1 else 0
  {
    if n > 0 { RemainingDrops(parts, taken, p, n - 1); }
  }

  /** Every record still to come, in the order the merge emits it. */
  ghost function PopOrder(reverse: bool, parts: Parts, taken: seq<nat>): seq<Item>
    requires Progress(parts, taken)
    decreases Remaining(parts, taken, |parts|)
  {
    var heads := Heads(parts, taken);
    if heads == {} then []
    else
      var x := Best(reverse, heads);
      RemainingDrops(parts, taken, x.partition, |parts|);
      [x] + PopOrder(reverse, parts, Advance(taken, x.partition))
  }

  function Start(parts: Parts): seq<nat> { seq(|parts|, _ => 0) }

  // ---- The merge order is the global sort -----------------------------------------------

  predicate Unread(parts: Parts, taken: seq<nat>, x: Item)
    requires |taken| == |parts|
  {
    Holds(parts, x) && x.sequence >= taken[x.partition]
  }

  lemma UnreadAdvance(parts: Parts, taken: seq<nat>, x: Item, y: Item)
    requires Progress(parts, taken) && Holds(parts, x) && x.sequence == taken[x.partition]
    ensures Unread(parts, taken, y) <==> y == x || Unread(parts, Advance(taken, x.partition), y)
  {
  }

  lemma UnreadHasHead(parts: Parts, taken: seq<nat>, y: Item)
    requires Progress(parts, taken)
    ensures Unread(parts, taken, y) ==> Heads(parts, taken) != {}
  {
    if Unread(parts, taken, y) { HeadInHeads(parts, taken, y.partition); }
  }

  /** The merge emits exactly the records that were still unread. */
  lemma {:induction false} EmitsUnread(reverse: bool, parts: Parts, taken: seq<nat>, y: Item)
    requires Progress(parts, taken)
    ensures y in PopOrder(reverse, parts, taken) <==> Unread(parts, taken, y)
    decreases Remaining(parts, taken, |parts|)
  {
    var heads := Heads(parts, taken);
    UnreadHasHead(parts, taken, y);
    if heads != {} {
      hide Heads, Best, IsBest;
      var x := Best(reverse, heads);
      BestIsHead(reverse, parts, taken);
      RemainingDrops(parts, taken, x.partition, |parts|);
      EmitsUnread(reverse, parts, Advance(taken, x.partition), y);
      UnreadAdvance(parts, taken, x, y);
    }
  }

  lemma HeadInHeads(parts: Parts, taken: seq<nat>, p: nat)
    requires Progress(parts, taken) && p < |parts| && taken[p] < |parts[p]|
    ensures Head(parts, taken, p) in Heads(parts, taken) && OneEach(Heads(parts, taken))
  {
  }

  lemma BestIsHead(reverse: bool, parts: Parts, taken: seq<nat>)
    requires Progress(parts, taken) && Heads(parts, taken) != {}
    ensures var x := Best(reverse, Heads(parts, taken)); Holds(parts, x) && x.sequence == taken[x.partition]
  {
    hide Best, PopsBefore;
  }

  lemma EmitsAll(reverse: bool, parts: Parts, taken: seq<nat>)
    requires Progress(parts, taken)
    ensures forall y :: y in PopOrder(reverse, parts, taken) <==> Unread(parts, taken, y)
  {
    forall y ensures y in PopOrder(reverse, parts, taken) <==> Unread(parts, taken, y) {
      EmitsUnread(reverse, parts, taken, y);
    }
  }

  /** Between partitions the heap order is the declared order. */
  lemma PopsInMergeOrder(reverse: bool, a: Item, b: Item)
    requires a.partition != b.partition
    ensures PopsBefore(reverse, a, b) <==> MergeBefore(reverse, a, b)
  {
  }

  lemma MergeTransitive(reverse: bool, a: Item, b: Item, c: Item)
    requires MergeBefore(reverse, a, b) && MergeBefore(reverse, b, c)
    ensures MergeBefore(reverse, a, c)
  {
  }

  /** On ordered inputs the head of a partition precedes the rest of it. */
  lemma HeadFirst(reverse: bool, parts: Parts, taken: seq<nat>, y: Item)
    requires Progress(parts, taken) && AllOrdered(reverse, parts) && Unread(parts, taken, y)
    ensures taken[y.partition] < |parts[y.partition]|
    ensures var h := Head(parts, taken, y.partition); h == y || MergeBefore(reverse, h, y)
  {
    assert Ordered(reverse, parts[y.partition]);
  }

  lemma BestFirst(reverse: bool, parts: Parts, taken: seq<nat>, y: Item)
    requires Progress(parts, taken) && AllOrdered(reverse, parts) && Unread(parts, taken, y)
    requires Heads(parts, taken) != {}
    ensures var x := Best(reverse, Heads(parts, taken)); x == y || MergeBefore(reverse, x, y)
  {
    hide Heads, Best, PopsBefore, MergeBefore, AllOrdered;
    HeadFirst(reverse, parts, taken, y);
    HeadInHeads(parts, taken, y.partition);
    var h := Head(parts, taken, y.partition);
    var x := Best(reverse, Heads(parts, taken));
    if x != h {
      PopsInMergeOrder(reverse, x, h);
      if h != y { MergeTransitive(reverse, x, h, y); }
    }
  }

  predicate Sorted(reverse: bool, items: seq<Item>) {
    forall i, j :: 0 <= i < j < |items| ==> MergeBefore(reverse, items[i], items[j])
  }

  /** `items` is the global sort of all input records in the declared order. */
  ghost predicate IsGlobalSort(reverse: bool, parts: Parts, items: seq<Item>) {
    Sorted(reverse, items) && forall x :: x in items <==> Holds(parts, x)
  }

  lemma {:induction false} EmitsSorted(reverse: bool, parts: Parts, taken: seq<nat>)
    requires Progress(parts, taken) && AllOrdered(reverse, parts)
    ensures Sorted(reverse, PopOrder(reverse, parts, taken))
    decreases Remaining(parts, taken, |parts|)
  {
    var heads := Heads(parts, taken);
    if heads != {} {
      hide Heads, Best, IsBest, AllOrdered, MergeBefore;
      var x := Best(reverse, heads);
      BestIsHead(reverse, parts, taken);
      RemainingDrops(parts, taken, x.partition, |parts|);
      var next := Advance(taken, x.partition);
      var rest := PopOrder(reverse, parts, next);
      EmitsSorted(reverse, parts, next);
      forall j | 0 <= j < |rest| ensures MergeBefore(reverse, x, rest[j]) {
        EmitsUnread(reverse, parts, next, rest[j]);
        UnreadAdvance(parts, taken, x, rest[j]);
        BestFirst(reverse, parts, taken, rest[j]);
        assert x != rest[j];
      }
    }
  }

  /** Inside a partition the merge keeps file order, ordered input or not. */
  lemma {:induction false} EmitsInFileOrder(reverse: bool, parts: Parts, taken: seq<nat>)
    requires Progress(parts, taken)
    ensures var all := PopOrder(reverse, parts, taken);
      forall i, j :: 0 <= i < j < |all| && all[i].partition == all[j].partition ==> all[i].sequence < all[j].sequence
    decreases Remaining(parts, taken, |parts|)
  {
    var heads := Heads(parts, taken);
    if heads != {} {
      hide Heads, Best, IsBest;
      var x := Best(reverse, heads);
      BestIsHead(reverse, parts, taken);
      RemainingDrops(parts, taken, x.partition, |parts|);
      var next := Advance(taken, x.partition);
      var rest := PopOrder(reverse, parts, next);
      EmitsInFileOrder(reverse, parts, next);
      forall j | 0 <= j < |rest| && rest[j].partition == x.partition ensures x.sequence < rest[j].sequence {
        EmitsUnread(reverse, parts, next, rest[j]);
      }
      assert PopOrder(reverse, parts, taken) == [x] + rest;
      hide PopOrder;
    }
  }

  /** The one-slot-per-partition merge refines the global sort, and needs its
      inputs ordered for it: its pop order is the global sort of the input if
      and only if every partition is ordered as declared. */
  lemma MergeIsGlobalSort(reverse: bool, parts: Parts)
    ensures IsGlobalSort(reverse, parts, PopOrder(reverse, parts, Start(parts))) <==> AllOrdered(reverse, parts)
  {
    var all := PopOrder(reverse, parts, Start(parts));
    EmitsAll(reverse, parts, Start(parts));
    if AllOrdered(reverse, parts) {
      EmitsSorted(reverse, parts, Start(parts));
    }
    if Sorted(reverse, all) {
      hide PopOrder;
      forall p | 0 <= p < |parts| ensures Ordered(reverse, parts[p]) {
        SortedMeansOrdered(reverse, parts, p);
      }
    }
  }

  /** A sorted pop order can only come from ordered partitions. */
  lemma SortedMeansOrdered(reverse: bool, parts: Parts, p: nat)
    requires p < |parts| && Sorted(reverse, PopOrder(reverse, parts, Start(parts)))
    ensures Ordered(reverse, parts[p])
  {
    var all := PopOrder(reverse, parts, Start(parts));
    EmitsInFileOrder(reverse, parts, Start(parts));
    hide PopOrder, MergeBefore;
    forall i, j | 0 <= i < j < |parts[p]|
      ensures if reverse then !TimeLess(parts[p][i].timestamp, parts[p][j].timestamp)
              else !TimeLess(parts[p][j].timestamp, parts[p][i].timestamp)
    {
      var a, b := Item(parts[p][i], p, i), Item(parts[p][j], p, j);
      EmitsUnread(reverse, parts, Start(parts), a);
      EmitsUnread(reverse, parts, Start(parts), b);
      var m :| 0 <= m < |all| && all[m] == a;
      var n :| 0 <= n < |all| && all[n] == b;
      assert MergeBefore(reverse, all[m], all[n]);
      MergeInTime(reverse, a, b);
    }
  }

  lemma MergeInTime(reverse: bool, a: Item, b: Item)
    requires MergeBefore(reverse, a, b)
    ensures if reverse then !TimeLess(a.record.timestamp, b.record.timestamp)
            else !TimeLess(b.record.timestamp, a.record.timestamp)
  {
  }

  lemma InTail(reverse: bool, a: seq<Item>, b: seq<Item>, y: Item)
    requires a != [] && b != [] && Sorted(reverse, a) && a[0] == b[0]
    requires y in a[1..] && forall x :: x in a ==> x in b
    ensures y in b[1..]
  {
    var j :| 0 <= j < |a[1..]| && a[1..][j] == y;
    assert a[j + 1] == y && MergeBefore(reverse, a[0], y);
    assert y in b && y != b[0];
  }

  lemma MergeAsymmetric(reverse: bool, a: Item, b: Item)
    ensures !(MergeBefore(reverse, a, b) && MergeBefore(reverse, b, a))
  {
  }

  lemma SameFirst(reverse: bool, a: seq<Item>, b: seq<Item>)
    requires a != [] && b != [] && Sorted(reverse, a) && Sorted(reverse, b) && a[0] in b && b[0] in a
    ensures a[0] == b[0]
  {
    var i :| 0 <= i < |b| && b[i] == a[0];
    var j :| 0 <= j < |a| && a[j] == b[0];
    MergeAsymmetric(reverse, a[0], b[0]);
  }

  /** A global sort of the input is unique. */
  lemma {:induction false} SortUnique(reverse: bool, a: seq<Item>, b: seq<Item>)
    requires Sorted(reverse, a) && Sorted(reverse, b) && forall x :: x in a <==> x in b
    ensures a == b
    decreases |a|
  {
    assert a != [] ==> a[0] in b;
    assert b != [] ==> b[0] in a;
    if a != [] {
      SameFirst(reverse, a, b);
      forall y ensures y in a[1..] <==> y in b[1..] {
        if y in a[1..] { InTail(reverse, a, b, y); }
        if y in b[1..] { InTail(reverse, b, a, y); }
      }
      SortUnique(reverse, a[1..], b[1..]);
      assert a == [a[0]] + a[1..] && b == [b[0]] + b[1..];
    }
  }

  /** The order in plain terms: `a` comes before `b` if its time is earlier (later
      when reversed), where no time is earlier than any; at equal times if its
      partition is lower (higher when reversed); and inside a partition by file order. */
  predicate ComesFirst(reverse: bool, a: Item, b: Item) {
    match (a.record.timestamp, b.record.timestamp)
    case (None, None) => SameTimeFirst(reverse, a, b)
    case (None, Some(_)) => !reverse
    case (Some(_), None) => reverse
    case (Some(s), Some(t)) => if s == t then SameTimeFirst(reverse, a, b) else (s < t) != reverse
  }

  predicate SameTimeFirst(reverse: bool, a: Item, b: Item) {
    if a.partition == b.partition then a.sequence < b.sequence else (a.partition < b.partition) != reverse
  }

  /** On ordered inputs every record comes out after all that come first. */
  lemma MergeOrderInPlainTerms(reverse: bool, parts: Parts, i: nat, j: nat)
    requires AllOrdered(reverse, parts) && i < j < |PopOrder(reverse, parts, Start(parts))|
    ensures var all := PopOrder(reverse, parts, Start(parts)); ComesFirst(reverse, all[i], all[j])
  {
    EmitsSorted(reverse, parts, Start(parts));
    var all := PopOrder(reverse, parts, Start(parts));
    hide PopOrder, AllOrdered;
    assert MergeBefore(reverse, all[i], all[j]);
  }

  /** And a file counts as ordered exactly if its times do not turn back. */
  lemma OrderedInPlainTerms(reverse: bool, part: seq<Canonical>)
    ensures Ordered(reverse, part) <==>
      forall i, j :: 0 <= i < j < |part| ==>
        ComesFirst(reverse, Item(part[i], 0, i), Item(part[j], 0, j))
  {
    forall i, j | 0 <= i < j < |part|
      ensures ComesFirst(reverse, Item(part[i], 0, i), Item(part[j], 0, j)) <==>
        if reverse then !TimeLess(part[i].timestamp, part[j].timestamp)
        else !TimeLess(part[j].timestamp, part[i].timestamp)
    {
    }
  }

  /** How many records the input holds. */
  function Total(parts: Parts): nat { Remaining(parts, Start(parts), |parts|) }

  lemma {:induction false} NothingRemains(parts: Parts, taken: seq<nat>, n: nat)
    requires Progress(parts, taken) && n <= |parts| && forall p :: 0 <= p < n ==> taken[p] == |parts[p]|
    ensures Remaining(parts, taken, n) == 0
  {
    if n > 0 { NothingRemains(parts, taken, n - 1); }
  }

  /** The merge emits each unread record once. */
  lemma {:induction false} EmitsEachOnce(reverse: bool, parts: Parts, taken: seq<nat>)
    requires Progress(parts, taken)
    ensures |PopOrder(reverse, parts, taken)| == Remaining(parts, taken, |parts|)
    decreases Remaining(parts, taken, |parts|)
  {
    var heads := Heads(parts, taken);
    forall p | 0 <= p < |parts| && taken[p] < |parts[p]| ensures heads != {} {
      HeadInHeads(parts, taken, p);
    }
    if heads == {} {
      NothingRemains(parts, taken, |parts|);
    } else {
      hide Heads, Best, IsBest;
      var x := Best(reverse, heads);
      BestIsHead(reverse, parts, taken);
      RemainingDrops(parts, taken, x.partition, |parts|);
      EmitsEachOnce(reverse, parts, Advance(taken, x.partition));
    }
  }

  // ---- Deduplication and the limit ---------------------------------------------------------

  /** Record `k` of the merge order is dropped: its immediate predecessor has
      the same key and came from another partition. */
  predicate Dropped(items: seq<Item>, k: nat)
    requires k < |items|
  {
    k > 0 && StableKey(items[k - 1].record) == StableKey(items[k].record) &&
    items[k - 1].partition != items[k].partition
  }

  /** The records that are not dropped, in order. */
  function Written(items: seq<Item>): (w: seq<Canonical>)
    ensures |w| <= |items|
  {
    if items == [] then []
    else
      var n := |items| - 1;
      Written(items[..n]) + if Dropped(items, n) then [] else [items[n].record]
  }

  lemma WrittenStep(items: seq<Item>, k: nat)
    requires k < |items|
    ensures Written(items[..k + 1]) == Written(items[..k]) + if Dropped(items, k) then [] else [items[k].record]
  {
    assert items[..k + 1][..k] == items[..k];
    assert k > 0 ==> items[..k + 1][k - 1] == items[k - 1];
  }

  lemma {:induction false} WrittenPrefix(items: seq<Item>, k: nat)
    requires k <= |items|
    ensures Written(items[..k]) <= Written(items)
    decreases |items| - k
  {
    if k < |items| {
      WrittenStep(items, k);
      WrittenPrefix(items, k + 1);
    } else {
      assert items[..k] == items;
    }
  }

  /** No key is lost: every input key is among the written ones. */
  lemma {:induction false} NoKeyLost(items: seq<Item>, k: nat)
    requires k < |items|
    ensures exists w :: w in Written(items) && StableKey(w) == StableKey(items[k].record)
    decreases k
  {
    if Dropped(items, k) {
      NoKeyLost(items, k - 1);
    } else {
      WrittenStep(items, k);
      WrittenPrefix(items, k + 1);
      var w := items[k].record;
      assert w in Written(items[..k + 1]);
      assert w in Written(items) && StableKey(w) == StableKey(items[k].record);
    }
  }

  /** Repeated records inside a partition stay distinct: a record whose predecessor
      is of the same partition is written, whatever its key. */
  lemma NeighboursBothWritten(items: seq<Item>, k: nat)
    requires 0 < k < |items| && items[k - 1].partition == items[k].partition
    ensures Written(items[..k + 1]) == Written(items[..k]) + [items[k].record]
  {
    WrittenStep(items, k);
  }

  lemma {:induction false} OnePartitionWritten(items: seq<Item>)
    requires forall i :: 0 <= i < |items| ==> items[i].partition == 0
    ensures |Written(items)| == |items| && forall i :: 0 <= i < |items| ==> Written(items)[i] == items[i].record
  {
    if items != [] { OnePartitionWritten(items[..|items| - 1]); }
  }

  lemma {:induction false} CountedUp(items: seq<Item>, i: nat)
    requires i < |items| && forall a, b :: 0 <= a < b < |items| ==> items[a].sequence < items[b].sequence
    requires forall a :: 0 <= a < |items| ==> items[a].sequence < |items|
    ensures items[i].sequence >= i && items[i].sequence + (|items| - 1 - i) < |items|
  {
    FromBelow(items, i);
    FromAbove(items, i);
  }

  lemma {:induction false} FromBelow(items: seq<Item>, i: nat)
    requires i < |items| && forall a, b :: 0 <= a < b < |items| ==> items[a].sequence < items[b].sequence
    ensures items[i].sequence >= i
  {
    if i > 0 { FromBelow(items, i - 1); }
  }

  lemma {:induction false} FromAbove(items: seq<Item>, i: nat)
    requires i < |items| && forall a, b :: 0 <= a < b < |items| ==> items[a].sequence < items[b].sequence
    requires forall a :: 0 <= a < |items| ==> items[a].sequence < |items|
    ensures items[i].sequence + (|items| - 1 - i) < |items|
    decreases |items| - i
  {
    if i + 1 < |items| { FromAbove(items, i + 1); }
  }

  /** Merging a single partition without a limit returns it as it is, repeated
      records and all, and counts no duplicate. */
  lemma SinglePartitionUnchanged(reverse: bool, part: seq<Canonical>, written: seq<Canonical>, duplicates: nat,
                                 limited: bool)
    requires IsMergeOf(PopOrder(reverse, [part], Start([part])), None, written, duplicates, limited)
    ensures written == part && duplicates == 0 && !limited
  {
    var parts := [part];
    var all := PopOrder(reverse, parts, Start(parts));
    EmitsAll(reverse, parts, Start(parts));
    EmitsInFileOrder(reverse, parts, Start(parts));
    EmitsEachOnce(reverse, parts, Start(parts));
    assert Remaining(parts, Start(parts), 1) == Remaining(parts, Start(parts), 0) + |part|;
    hide PopOrder, Drops, StopsAt;
    forall i | 0 <= i < |all| ensures Holds(parts, all[i]) && all[i].partition == 0 && all[i].sequence < |part| {
      assert all[i] in all;
    }
    OnePartitionWritten(all);
    forall i | 0 <= i < |all| ensures Written(all)[i] == part[i] {
      CountedUp(all, i);
    }
    assert written == part;
  }

  /** Equal keys need not mean equal records: metadata is no part of the key,
      and payload and labels are hashed without a separator. They do exactly when
      the metadata agree and the label texts agree in presence and length. */
  lemma KeyIdentifies(a: Canonical, b: Canonical)
    requires StableKey(a) == StableKey(b)
    ensures a == b <==>
      a.metadata == b.metadata && a.labels.Some? == b.labels.Some? &&
      (a.labels.Some? ==> |a.labels.value| == |b.labels.value|)
  {
    var x, y := StableKey(a).2, StableKey(b).2;
    assert a.labels.None? ==> x == a.payload;
    assert b.labels.None? ==> y == b.payload;
    assert a.labels.Some? ==> x[..|a.payload|] == a.payload && x[|a.payload|..] == a.labels.value;
    assert b.labels.Some? ==> y[..|b.payload|] == b.payload && y[|b.payload|..] == b.labels.value;
  }

  /** Merging one record from each of two partitions at the same instant: the
      second is dropped exactly when the keys agree. */
  lemma MergeOfTwo(a: Canonical, b: Canonical)
    requires a.timestamp == b.timestamp
    ensures Written(PopOrder(false, [[a], [b]], Start([[a], [b]]))) ==
      if StableKey(a) == StableKey(b) then [a] else [a, b]
  {
    var parts := [[a], [b]];
    var items := [Item(a, 0, 0), Item(b, 1, 0)];
    var all := PopOrder(false, parts, Start(parts));
    MergeIsGlobalSort(false, parts);
    hide PopOrder, StableKey;
    assert AllOrdered(false, parts);
    forall x ensures x in items <==> Holds(parts, x) {
      if Holds(parts, x) { assert x == items[x.partition]; }
    }
    SortUnique(false, all, items);
    assert items[..0] == [] && items[..1] == [items[0]] && items[..1][..0] == [];
    WrittenStep(items, 0);
    WrittenStep(items, 1);
    assert items[..2] == items;
  }

  /** So different records are merged into one: when they differ in metadata
      only, and when the labels of one continue its payload to the other's. */
  lemma DifferentRecordsDropped()
    ensures var a := Canonical(Some(1), "s", "x", None, Some("1"));
      var b := Canonical(Some(1), "s", "x", None, Some("2"));
      a != b && Written(PopOrder(false, [[a], [b]], Start([[a], [b]]))) == [a]
    ensures var a := Canonical(Some(1), "s", "x{}", None, None);
      var b := Canonical(Some(1), "s", "x", Some("{}"), None);
      a != b && Written(PopOrder(false, [[a], [b]], Start([[a], [b]]))) == [a]
  {
    assert "x" + "{}" == "x{}" && "x{}" + "" == "x{}" && "1" != "2";
    hide PopOrder, Written;
    MergeOfTwo(Canonical(Some(1), "s", "x", None, Some("1")), Canonical(Some(1), "s", "x", None, Some("2")));
    MergeOfTwo(Canonical(Some(1), "s", "x{}", None, None), Canonical(Some(1), "s", "x", Some("{}"), None));
  }

  /** How many of the records are dropped. */
  function Drops(items: seq<Item>): nat {
    if items == [] then 0
    else
      var n := |items| - 1;
      Drops(items[..n]) + if Dropped(items, n) then 1 else 0
  }

  lemma {:induction false} DropsAndWritten(items: seq<Item>)
    ensures |Written(items)| + Drops(items) == |items|
  {
    if items != [] { DropsAndWritten(items[..|items| - 1]); }
  }

  /** How much of the merge order is consumed from `k` on before the limit stops it. */
  function CutFrom(items: seq<Item>, limit: nat, k: nat): (cut: nat)
    requires k <= |items|
    ensures k <= cut <= |items|
    decreases |items| - k
  {
    if k < |items| && |Written(items[..k])| < limit then CutFrom(items, limit, k + 1) else k
  }

  /** A limit was hit with the merge order going on past it. */
  ghost predicate StopsAt(items: seq<Item>, limit: nat, k: nat) {
    k < |items| && |Written(items[..k])| >= limit
  }

  // ---- The merge loop ------------------------------------------------------------------------

  function Max(a: nat, b: nat): nat { if a < b then b else a }

  /** `BinaryHeap::pop`: remove the greatest of the queued records. */
  method PopHeap(reverse: bool, heap: set<Item>) returns (x: Item, rest: set<Item>)
    requires heap != {} && OneEach(heap)
    ensures IsBest(reverse, x, heap) && rest == heap - {x}
  {
    x :| x in heap;
    var left := heap - {x};
    assert heap - left == {x};
    while left != {}
      invariant left <= heap && IsBest(reverse, x, heap - left)
      decreases left
    {
      var y :| y in left;
      BetterOf(reverse, heap - left, x, y);
      assert heap - (left - {y}) == (heap - left) + {y};
      left := left - {y};
      if PopsBefore(reverse, y, x) { x := y; }
    }
    assert heap - left == heap;
    rest := heap - {x};
  }

  /** The first record of every non-empty partition. */
  method ReadHeads(parts: Parts) returns (heap: set<Item>)
    ensures heap == Heads(parts, Start(parts))
  {
    heap := {};
    for p := 0 to |parts|
      invariant forall x :: x in heap <==> x.partition < p && x in Heads(parts, Start(parts))
    {
      if |parts[p]| > 0 {
        HeadInHeads(parts, Start(parts), p);
        heap := heap + {Item(parts[p][0], p, 0)};
      }
    }
  }

  lemma NextHeads(parts: Parts, taken: seq<nat>, x: Item, heap: set<Item>)
    requires Progress(parts, taken) && x in Heads(parts, taken)
    requires var next := Advance(taken, x.partition);
      Progress(parts, next) &&
      heap == (Heads(parts, taken) - {x}) +
        if next[x.partition] < |parts[x.partition]| then {Head(parts, next, x.partition)} else {}
    ensures heap == Heads(parts, Advance(taken, x.partition))
  {
    var next := Advance(taken, x.partition);
    forall y ensures y in heap <==> y in Heads(parts, next) {
      if y.partition < |parts| && y.partition != x.partition && taken[y.partition] < |parts[y.partition]| {
        assert Head(parts, taken, y.partition) == Head(parts, next, y.partition);
      }
    }
  }

  /** Replace a popped record by the next one of its partition. */
  method ReadNext(parts: Parts, taken: seq<nat>, x: Item, rest: set<Item>) returns (heap: set<Item>)
    requires Progress(parts, taken) && x in Heads(parts, taken) && rest == Heads(parts, taken) - {x}
    ensures Progress(parts, Advance(taken, x.partition)) && heap == Heads(parts, Advance(taken, x.partition))
    ensures |heap| <= |rest| + 1
  {
    var next := Advance(taken, x.partition);
    heap := rest;
    if next[x.partition] < |parts[x.partition]| { heap := heap + {Head(parts, next, x.partition)}; }
    NextHeads(parts, taken, x, heap);
  }

  lemma {:induction false} AtMostOneEach(items: set<Item>, n: nat)
    requires OneEach(items) && forall x :: x in items ==> x.partition < n
    ensures |items| <= n
    decreases n
  {
    if n == 0 {
      assert items == {};
    } else if x :| x in items && x.partition == n - 1 {
      AtMostOneEach(items - {x}, n - 1);
    } else {
      AtMostOneEach(items, n - 1);
    }
  }

  lemma HeadsFit(parts: Parts, taken: seq<nat>)
    requires Progress(parts, taken)
    ensures |Heads(parts, taken)| <= |parts| && OneEach(Heads(parts, taken))
  {
    AtMostOneEach(Heads(parts, taken), |parts|);
  }

  lemma PopStep(reverse: bool, parts: Parts, taken: seq<nat>, x: Item)
    requires Progress(parts, taken) && IsBest(reverse, x, Heads(parts, taken))
    ensures x.partition < |parts| && Progress(parts, Advance(taken, x.partition))
    ensures PopOrder(reverse, parts, taken) == [x] + PopOrder(reverse, parts, Advance(taken, x.partition))
    ensures Remaining(parts, Advance(taken, x.partition), |parts|) < Remaining(parts, taken, |parts|)
  {
    hide PopsBefore, Best;
    HeadsFit(parts, taken);
    BestUnique(reverse, x, Best(reverse, Heads(parts, taken)), Heads(parts, taken));
    RemainingDrops(parts, taken, x.partition, |parts|);
  }

  /** Where the merge stands after `k` records of its order. */
  ghost predicate MergedTo(all: seq<Item>, limit: Option<nat>, k: nat, written: seq<Canonical>, duplicates: nat) {
    && k <= |all| && written == Written(all[..k]) && |written| + duplicates == k
    && (limit.Some? ==>
         |written| <= limit.value && (forall j :: 0 <= j < k ==> !StopsAt(all, limit.value, j)) &&
         CutFrom(all, limit.value, 0) == CutFrom(all, limit.value, k))
  }

  /** What a merge returns: the merge order with duplicates dropped, cut at the
      limit; how many were dropped on the way; and whether the order went on. */
  ghost predicate IsMergeOf(all: seq<Item>, limit: Option<nat>, written: seq<Canonical>, duplicates: nat,
                            limited: bool)
  {
    match limit
    case None => !limited && written == Written(all) && |written| + duplicates == |all| && duplicates == Drops(all)
    case Some(n) =>
      && written == Written(all)[..if n < |Written(all)| then n else |Written(all)|]
      && duplicates == Drops(all[..CutFrom(all, n, 0)]) && (limited <==> exists k :: StopsAt(all, n, k))
  }

  lemma MergeStart(all: seq<Item>, limit: Option<nat>)
    ensures MergedTo(all, limit, 0, [], 0)
  {
  }

  lemma MergeNext(all: seq<Item>, limit: Option<nat>, k: nat, written: seq<Canonical>, duplicates: nat)
    requires MergedTo(all, limit, k, written, duplicates) && k < |all| && (limit.Some? ==> |written| < limit.value)
    ensures if Dropped(all, k) then MergedTo(all, limit, k + 1, written, duplicates + 1)
            else MergedTo(all, limit, k + 1, written + [all[k].record], duplicates)
  {
    hide Written, Dropped;
    WrittenStep(all, k);
  }

  lemma MergeStops(all: seq<Item>, limit: nat, k: nat, written: seq<Canonical>, duplicates: nat)
    requires MergedTo(all, Some(limit), k, written, duplicates) && k < |all| && |written| >= limit
    ensures IsMergeOf(all, Some(limit), written, duplicates, true)
  {
    hide Written, Drops;
    WrittenPrefix(all, k);
    DropsAndWritten(all[..k]);
    assert StopsAt(all, limit, k);
  }

  lemma MergeEnds(all: seq<Item>, limit: Option<nat>, written: seq<Canonical>, duplicates: nat)
    requires MergedTo(all, limit, |all|, written, duplicates)
    ensures IsMergeOf(all, limit, written, duplicates, false)
  {
    hide Written, Drops;
    assert all[..|all|] == all;
    DropsAndWritten(all);
  }

  /** `merge_partitions`: its result is that of merging the whole order of one
      slot per partition, and the heap is never larger than at the start, when it
      holds one record of each partition that has one. */
  method MergePartitions(parts: Parts, reverse: bool, limit: Option<nat>)
    returns (written: seq<Canonical>, duplicates: nat, limited: bool, maxHeap: nat)
    ensures maxHeap == |Heads(parts, Start(parts))| <= |parts|
    ensures |PopOrder(reverse, parts, Start(parts))| == Total(parts)
    ensures IsMergeOf(PopOrder(reverse, parts, Start(parts)), limit, written, duplicates, limited)
  {
    hide PopOrder, Heads, IsBest, StableKey, MergedTo, IsMergeOf;
    var taken := Start(parts);
    var heap := ReadHeads(parts);
    HeadsFit(parts, taken);
    EmitsEachOnce(reverse, parts, taken);
    ghost var all := PopOrder(reverse, parts, taken);
    ghost var k := 0;
    written, duplicates, limited, maxHeap := [], 0, false, |heap|;
    var last: Option<Item> := None;
    MergeStart(all, limit);
    while heap != {}
      invariant Progress(parts, taken) && heap == Heads(parts, taken) && OneEach(heap)
      invariant |heap| <= maxHeap == |Heads(parts, Start(parts))| <= |parts|
      invariant k <= |all| && all[k..] == PopOrder(reverse, parts, taken)
      invariant MergedTo(all, limit, k, written, duplicates) && !limited
      invariant last == if k == 0 then None else Some(all[k - 1])
      decreases Remaining(parts, taken, |parts|)
    {
      var x, rest := PopHeap(reverse, heap);
      PopStep(reverse, parts, taken, x);
      assert all[k..][0] == x && all[k + 1..] == all[k..][1..];
      if limit.Some? && |written| >= limit.value {
        MergeStops(all, limit.value, k, written, duplicates);
        limited := true;
        return;
      }
      MergeNext(all, limit, k, written, duplicates);
      if last.Some? && StableKey(last.value.record) == StableKey(x.record) && last.value.partition != x.partition {
        duplicates := duplicates + 1;
      } else {
        written := written + [x.record];
      }
      last := Some(x);
      k := k + 1;
      BestIn(reverse, x, heap);
      heap := ReadNext(parts, taken, x, rest);
      taken := Advance(taken, x.partition);
      HeadsFit(parts, taken);
      maxHeap := Max(maxHeap, |heap|);
    }
    PopNothing(reverse, parts, taken);
    assert k == |all|;
    MergeEnds(all, limit, written, duplicates);
  }

  lemma BestIn(reverse: bool, x: Item, items: set<Item>)
    requires IsBest(reverse, x, items)
    ensures x in items
  {
  }

  lemma PopNothing(reverse: bool, parts: Parts, taken: seq<nat>)
    requires Progress(parts, taken) && Heads(parts, taken) == {}
    ensures PopOrder(reverse, parts, taken) == []
  {
  }
}
