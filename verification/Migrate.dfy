/** `creds migrate`: move plaintext secrets of the config file into the
    keychain and leave a sentinel behind, as one transaction. */
module Migrate {
  import opened Bytes
  import opened Resolver

  // ---- The config file ------------------------------------------------------------------

  /** A value under `environments`; `Scalar` is a bool or number as text. */
  datatype Json = Null | Text(text: string) | Scalar(rendered: string) | Other

  type Section = map<string, Json>

  /** Section name to its `environments`. */
  type Root = map<string, Section>

  /** The secret registry, and each vendor's section names, highest priority first. */
  datatype Registry = Registry(rows: seq<Row>, aliases: map<string, seq<string>>)

  const SENTINEL: string := "keychain"

  function AliasesOf(reg: Registry, vendor: string): seq<string> {
    if vendor in reg.aliases then reg.aliases[vendor] else []
  }

  function EntryAt(root: Root, name: string, key: string): Json {
    if name in root && key in root[name] then root[name][key] else Null
  }

  /** What the loader makes of a key: the first section that has text for it wins. */
  function Loaded(root: Root, names: seq<string>, key: string): Option<string> {
    if names == [] then None
    else
      match EntryAt(root, names[0], key)
      case Text(s) => Some(s)
      case Scalar(s) => Some(s)
      case _ => Loaded(root, names[1..], key)
  }

  datatype Read = Value(text: Option<string>) | Refusal

  /** What `read_vendor_string` makes of it: the one non-empty string all
      sections agree on; other JSON types and disagreement are refused. */
  function ReadVendor(root: Root, names: seq<string>, key: string): Read {
    if names == [] then Value(None)
    else
      var n := |names| - 1;
      var before := ReadVendor(root, names[..n], key);
      match EntryAt(root, names[n], key)
      case Null => before
      case Text(s) =>
        if s == "" || before == Value(Some(s)) then before
        else if before == Value(None) then Value(Some(s))
        else Refusal
      case _ => Refusal
  }

  predicate Unset(entry: Json) { entry.Null? || entry == Text("") }

  /** Every section leaves the key unset or gives it the text `s`, and one gives it. */
  ghost predicate AgreeOn(root: Root, names: seq<string>, key: string, s: string) {
    && s != ""
    && (forall i :: 0 <= i < |names| ==> Unset(EntryAt(root, names[i], key)) || EntryAt(root, names[i], key) == Text(s))
    && exists i :: 0 <= i < |names| && EntryAt(root, names[i], key) == Text(s)
  }

  /** What the scan means: a text exactly if the sections agree on it, nothing
      exactly if all leave the key unset, and a refusal otherwise. */
  lemma {:induction false} ReadVendorMeans(root: Root, names: seq<string>, key: string)
    ensures forall s :: ReadVendor(root, names, key) == Value(Some(s)) <==> AgreeOn(root, names, key, s)
    ensures ReadVendor(root, names, key) == Value(None) <==>
      forall i :: 0 <= i < |names| ==> Unset(EntryAt(root, names[i], key))
  {
    if names != [] {
      var n := |names| - 1;
      var init, entry := names[..n], EntryAt(root, names[n], key);
      ReadVendorMeans(root, init, key);
      forall s ensures AgreeOn(root, names, key, s) <==>
        s != "" &&
        ((AgreeOn(root, init, key, s) && (Unset(entry) || entry == Text(s))) ||
          (entry == Text(s) && forall i :: 0 <= i < n ==> Unset(EntryAt(root, init[i], key))))
      {
        AgreeNext(root, names, key, s);
      }
      assert forall i :: 0 <= i < n ==> names[i] == init[i];
      hide AgreeOn;
    }
  }

  lemma AgreeNext(root: Root, names: seq<string>, key: string, s: string)
    requires names != []
    ensures var n := |names| - 1;
      var init, entry := names[..n], EntryAt(root, names[n], key);
      AgreeOn(root, names, key, s) <==>
        s != "" &&
        ((AgreeOn(root, init, key, s) && (Unset(entry) || entry == Text(s))) ||
          (entry == Text(s) && forall i :: 0 <= i < n ==> Unset(EntryAt(root, init[i], key))))
  {
    hide EntryAt;
    var n := |names| - 1;
    var init, entry := names[..n], EntryAt(root, names[n], key);
    assert forall i :: 0 <= i < n ==> names[i] == init[i];
    if AgreeOn(root, names, key, s) {
      var i :| 0 <= i < |names| && EntryAt(root, names[i], key) == Text(s);
      if i < n { assert EntryAt(root, init[i], key) == Text(s); }
    }
    if AgreeOn(root, init, key, s) {
      var i :| 0 <= i < n && EntryAt(root, init[i], key) == Text(s);
      assert EntryAt(root, names[i], key) == Text(s);
    }
  }

  method ReadVendorString(root: Root, names: seq<string>, key: string) returns (r: Read)
    ensures r == ReadVendor(root, names, key)
    ensures forall s :: r == Value(Some(s)) <==> AgreeOn(root, names, key, s)
    ensures r == Value(None) <==> forall i :: 0 <= i < |names| ==> Unset(EntryAt(root, names[i], key))
  {
    ReadVendorMeans(root, names, key);
    hide AgreeOn, Unset;
    var chosen: Option<string> := None;
    var conflict := false;
    for i := 0 to |names|
      invariant ReadVendor(root, names[..i], key) == if conflict then Refusal else Value(chosen)
    {
      assert names[..i + 1][..i] == names[..i];
      match EntryAt(root, names[i], key) {
        case Null =>
        case Text(s) =>
          if s != "" {
            if chosen.None? && !conflict {
              chosen := Some(s);
            } else if chosen != Some(s) {
              conflict := true;
            }
          }
        case Scalar(_) =>
          RefusalStays(root, names, key, i + 1);
          return Refusal;
        case Other =>
          RefusalStays(root, names, key, i + 1);
          return Refusal;
      }
    }
    assert names[..|names|] == names;
    r := if conflict then Refusal else Value(chosen);
  }

  lemma {:induction false} RefusalStays(root: Root, names: seq<string>, key: string, i: nat)
    requires i <= |names| && ReadVendor(root, names[..i], key) == Refusal
    ensures ReadVendor(root, names, key) == Refusal
    decreases |names| - i
  {
    if i < |names| {
      assert names[..i + 1][..i] == names[..i];
      RefusalStays(root, names, key, i + 1);
    } else {
      assert names[..i] == names;
    }
  }

  // ---- Planning ---------------------------------------------------------------------------

  datatype Plan = Plan(row: Row, principal: string, value: string, write: bool)

  datatype Planned = Act(plan: Plan) | Skip | Reject

  function SlotFor(plan: Plan): Slot { (plan.row.kind, plan.row.vendor, plan.principal) }

  /** `plan_candidate`. */
  function PlanRow(reg: Registry, root: Root, row: Row): Planned {
    var names := AliasesOf(reg, row.vendor);
    var principal := if row.principalKey.None? then Value(Some(row.secretKey))
                     else ReadVendor(root, names, row.principalKey.value);
    var secret := ReadVendor(root, names, row.secretKey);
    match (principal, secret)
    case (Value(None), Value(None)) => Skip
    case (Value(Some(p)), Value(None)) => Skip
    case (Value(Some(p)), Value(Some(s))) =>
      if s == SENTINEL then Act(Plan(row, p, "", false)) else Act(Plan(row, p, s, true))
    case _ => Reject
  }

  /** No section gives the key a text. */
  ghost predicate AllUnset(root: Root, names: seq<string>, key: string) {
    forall i :: 0 <= i < |names| ==> Unset(EntryAt(root, names[i], key))
  }

  /** Some section gives the key another type, or two give it different texts. */
  ghost predicate Disputed(root: Root, names: seq<string>, key: string) {
    !AllUnset(root, names, key) && forall s :: !AgreeOn(root, names, key, s)
  }

  /** What becomes of a row: rejected if a setting is disputed, or a secret has no
      account; skipped if there is no secret; and otherwise planned under its
      account, to be checked if the secret is the sentinel and written if not. */
  lemma PlanRowMeans(reg: Registry, root: Root, row: Row)
    ensures var names, key := AliasesOf(reg, row.vendor), row.secretKey;
      var disputed := Disputed(root, names, key) ||
        (row.principalKey.Some? && Disputed(root, names, row.principalKey.value));
      var orphan := row.principalKey.Some? && AllUnset(root, names, row.principalKey.value) &&
        !AllUnset(root, names, key);
      && (PlanRow(reg, root, row).Reject? <==> disputed || orphan)
      && (PlanRow(reg, root, row).Skip? <==> !disputed && AllUnset(root, names, key))
    ensures PlanRow(reg, root, row).Act? ==>
      var p, names := PlanRow(reg, root, row).plan, AliasesOf(reg, row.vendor);
      && p.row == row
      && (if row.principalKey.None? then p.principal == row.secretKey
          else AgreeOn(root, names, row.principalKey.value, p.principal))
      && (if p.write then AgreeOn(root, names, row.secretKey, p.value) && p.value != "keychain"
          else AgreeOn(root, names, row.secretKey, "keychain"))
  {
    hide ReadVendor, AgreeOn, AllUnset, Disputed, AliasesOf;
    var names := AliasesOf(reg, row.vendor);
    ReadOutcome(root, names, row.secretKey);
    if row.principalKey.Some? { ReadOutcome(root, names, row.principalKey.value); }
  }

  lemma ReadOutcome(root: Root, names: seq<string>, key: string)
    ensures var r := ReadVendor(root, names, key);
      && (r == Refusal <==> Disputed(root, names, key)) && (r == Value(None) <==> AllUnset(root, names, key))
      && (forall s :: r == Value(Some(s)) <==> AgreeOn(root, names, key, s))
      && !(Disputed(root, names, key) && AllUnset(root, names, key))
  {
    ReadVendorMeans(root, names, key);
    hide ReadVendor, AgreeOn, EntryAt, Unset;
    match ReadVendor(root, names, key)
    case Value(Some(s)) => assert AgreeOn(root, names, key, s);
    case _ =>
  }

  /** The plans of all rows, or `None` if one is rejected. */
  function PlanRows(reg: Registry, root: Root, rows: seq<Row>): Option<seq<Plan>> {
    if rows == [] then Some([])
    else
      var n := |rows| - 1;
      match (PlanRows(reg, root, rows[..n]), PlanRow(reg, root, rows[n]))
      case (None, _) => None
      case (_, Reject) => None
      case (Some(plans), Skip) => Some(plans)
      case (Some(plans), Act(plan)) => Some(plans + [plan])
  }

  /** No two writes file different secrets under one slot. */
  predicate NoConflicts(plans: seq<Plan>) {
    forall i, j :: 0 <= i < j < |plans| ==> Compatible(plans[i], plans[j])
  }

  predicate Compatible(p: Plan, q: Plan) {
    p.write && q.write && SlotFor(p) == SlotFor(q) ==> p.value == q.value
  }

  /** `reject_principal_conflicts`. */
  method CheckConflicts(plans: seq<Plan>) returns (ok: bool)
    ensures ok <==> NoConflicts(plans)
  {
    for i := 0 to |plans|
      invariant forall a, b :: 0 <= a < i && a < b < |plans| ==> Compatible(plans[a], plans[b])
    {
      if !plans[i].write { continue; }
      for j := i + 1 to |plans|
        invariant forall b :: i < b < j ==> Compatible(plans[i], plans[b])
      {
        if plans[j].write && SlotFor(plans[j]) == SlotFor(plans[i]) && plans[j].value != plans[i].value {
          return false;
        }
      }
    }
    ok := true;
  }

  // ---- What a successful run leaves ----------------------------------------------------------

  function Get(entries: map<Slot, string>, slot: Slot): Option<string> {
    if slot in entries then Some(entries[slot]) else None
  }

  /** Every planned write done, in order. */
  function WriteAll(entries: map<Slot, string>, plans: seq<Plan>): map<Slot, string> {
    if plans == [] then entries
    else
      var n := |plans| - 1;
      var before := WriteAll(entries, plans[..n]);
      if plans[n].write then before[SlotFor(plans[n]) := plans[n].value] else before
  }

  function SentinelAt(section: Section, key: string): Section {
    if key in section && section[key].Text? && section[key].text != "" then section[key := Text(SENTINEL)] else section
  }

  /** One key replaced by the sentinel in every named section that has text for it. */
  function RewriteKey(root: Root, names: seq<string>, key: string): Root {
    map name | name in root :: if name in names then SentinelAt(root[name], key) else root[name]
  }

  /** `rewrite_vendor_aliases_to_sentinel`. */
  method RewriteAliases(root: Root, names: seq<string>, key: string) returns (r: Root)
    ensures r == RewriteKey(root, names, key)
  {
    r := root;
    for i := 0 to |names|
      invariant r == RewriteKey(root, names[..i], key)
    {
      var name := names[i];
      SentinelTwice(root, name, key);
      if name in r { r := r[name := SentinelAt(r[name], key)]; }
      assert forall n :: n in names[..i + 1] <==> n in names[..i] || n == name;
    }
    assert names[..|names|] == names;
  }

  lemma SentinelTwice(root: Root, name: string, key: string)
    ensures name in root ==> SentinelAt(SentinelAt(root[name], key), key) == SentinelAt(root[name], key)
  {
  }

  function RewriteAll(reg: Registry, root: Root, plans: seq<Plan>): Root {
    if plans == [] then root
    else
      var n := |plans| - 1;
      var before := RewriteAll(reg, root, plans[..n]);
      if plans[n].write then RewriteKey(before, AliasesOf(reg, plans[n].row.vendor), plans[n].row.secretKey) else before
  }

  // ---- The transaction -------------------------------------------------------------------------

  /** How the keychain answers one plan: its pre-read, its write, whether a write
      it reports as done was stored, and its readback. */
  datatype PlanIo = PlanIo(readOk: bool, setOk: bool, stores: bool, readbackOk: bool)

  datatype Why =
    | Rejected
    | ReadFailed
    | StaleConfig
    | SetFailed
    | ReadbackFailed
    | UnbackedSentinel
    | BackupFailed
    | WriteFailed

  datatype Outcome = Migrated | Aborted(why: Why, at: nat)

  type Undo = (Slot, Option<string>)

  function Restore(entries: map<Slot, string>, undo: Undo): map<Slot, string> {
    match undo.1 case Some(prior) => entries[undo.0 := prior] case None => entries - {undo.0}
  }

  /** The applied writes taken back, most recent first. */
  function Undone(entries: map<Slot, string>, applied: seq<Undo>): map<Slot, string>
    decreases |applied|
  {
    if applied == [] then entries
    else Undone(Restore(entries, applied[|applied| - 1]), applied[..|applied| - 1])
  }

  /** The same where only some undo operations work; the others are passed over. */
  function UndoneWhere(entries: map<Slot, string>, applied: seq<Undo>, works: nat -> bool): map<Slot, string>
    decreases |applied|
  {
    if applied == [] then entries
    else
      var n := |applied| - 1;
      UndoneWhere(if works(n) then Restore(entries, applied[n]) else entries, applied[..n], works)
  }

  /** A write among the first `at` plans changed the keychain. */
  ghost predicate Touched(entries: map<Slot, string>, plans: seq<Plan>, at: nat) {
    exists j :: 0 <= j < at <= |plans| && plans[j].write && Get(entries, SlotFor(plans[j])) != Some(plans[j].value)
  }

  /** What stops the transaction at plan `i`, given that the plans before it went through. */
  function Failure(start: map<Slot, string>, plans: seq<Plan>, force: bool, io: PlanIo, i: nat): Option<Why>
    requires i < |plans|
  {
    var prior := Get(WriteAll(start, plans[..i]), SlotFor(plans[i]));
    if !io.readOk then Some(ReadFailed)
    else if !plans[i].write then (if prior.Some? && prior.value != "" then None else Some(UnbackedSentinel))
    else if prior == Some(plans[i].value) then None
    else if prior.Some? && !force then Some(StaleConfig)
    else if !io.setOk then Some(SetFailed)
    else if !io.stores || !io.readbackOk then Some(ReadbackFailed)
    else None
  }

  /** Nothing stops the transaction before plan `n`. */
  ghost predicate GoesThrough(start: map<Slot, string>, plans: seq<Plan>, force: bool, io: nat -> PlanIo, n: nat) {
    n <= |plans| && forall j :: 0 <= j < n ==> Failure(start, plans, force, io(j), j).None?
  }

  predicate WritesAny(plans: seq<Plan>) { exists i :: 0 <= i < |plans| && plans[i].write }

  lemma {:induction false} WriteAllElsewhere(start: map<Slot, string>, plans: seq<Plan>, slot: Slot)
    requires forall j :: 0 <= j < |plans| && plans[j].write ==> SlotFor(plans[j]) != slot
    ensures Get(WriteAll(start, plans), slot) == Get(start, slot)
  {
    if plans != [] { WriteAllElsewhere(start, plans[..|plans| - 1], slot); }
  }

  /** A slot some plan writes ends with that plan's value. */
  lemma {:induction false} WriteAllAt(start: map<Slot, string>, plans: seq<Plan>, j: nat)
    requires NoConflicts(plans) && j < |plans| && plans[j].write
    ensures Get(WriteAll(start, plans), SlotFor(plans[j])) == Some(plans[j].value)
    decreases |plans|
  {
    var n := |plans| - 1;
    if j < n {
      assert Compatible(plans[j], plans[n]);
      WriteAllAt(start, plans[..n], j);
    }
  }

  /** Without force a run that goes through leaves every entry that was there. */
  lemma {:induction false} WithoutForce(start: map<Slot, string>, plans: seq<Plan>, io: nat -> PlanIo, n: nat,
                                        slot: Slot)
    requires GoesThrough(start, plans, false, io, n) && slot in start
    ensures Get(WriteAll(start, plans[..n]), slot) == Some(start[slot])
  {
    if n > 0 {
      WithoutForce(start, plans, io, n - 1, slot);
      assert plans[..n][..n - 1] == plans[..n - 1];
      assert Failure(start, plans, false, io(n - 1), n - 1).None?;
    }
  }

  ghost predicate AllWorks(io: nat -> PlanIo) {
    forall j: nat :: io(j).readOk && io(j).setOk && io(j).stores && io(j).readbackOk
  }

  /** With a keychain that works, a run goes through exactly if every sentinel it
      meets has a non-empty entry behind it, and it is forced or no entry that was
      there differs from what the file says. */
  lemma GoesThroughMeans(start: map<Slot, string>, plans: seq<Plan>, force: bool, io: nat -> PlanIo)
    requires NoConflicts(plans) && AllWorks(io)
    ensures GoesThrough(start, plans, force, io, |plans|) <==>
      (forall j :: 0 <= j < |plans| && !plans[j].write ==> FilledAt(start, plans, j)) &&
      (force || forall j :: 0 <= j < |plans| && plans[j].write ==> !Stale(start, plans[j]))
  {
    hide WriteAll, NoConflicts;
    forall j | 0 <= j < |plans|
      ensures plans[j].write && (force || !Stale(start, plans[j])) ==> Failure(start, plans, force, io(j), j).None?
    {
      if plans[j].write { NotWrittenYet(start, plans, j); }
    }
    if GoesThrough(start, plans, force, io, |plans|) && !force {
      forall j | 0 <= j < |plans| && plans[j].write ensures !Stale(start, plans[j]) {
        assert GoesThrough(start, plans, false, io, j);
        assert Failure(start, plans, false, io(j), j).None?;
        if SlotFor(plans[j]) in start { WithoutForce(start, plans, io, j, SlotFor(plans[j])); }
      }
    }
    if GoesThrough(start, plans, force, io, |plans|) {
      forall j | 0 <= j < |plans| && !plans[j].write ensures FilledAt(start, plans, j) {
        assert Failure(start, plans, force, io(j), j).None?;
      }
    }
  }

  /** The keychain held another value for the plan's slot at the start. */
  predicate Stale(start: map<Slot, string>, p: Plan) { SlotFor(p) in start && start[SlotFor(p)] != p.value }

  ghost predicate FilledAt(start: map<Slot, string>, plans: seq<Plan>, j: nat) {
    j < |plans| &&
    var entry := Get(WriteAll(start, plans[..j]), SlotFor(plans[j])); entry.Some? && entry.value != ""
  }

  /** Why a run stops at a plan the others before it led to. An entry that was
      there and differs stops it unless forced, before anything is written. */
  lemma {:induction false} FailureMeans(start: map<Slot, string>, plans: seq<Plan>, force: bool, io: nat -> PlanIo,
                                        i: nat)
    requires NoConflicts(plans) && i < |plans| && GoesThrough(start, plans, force, io, i)
    ensures var p, why := plans[i], Failure(start, plans, force, io(i), i);
      var missing := p.write && Get(WriteAll(start, plans[..i]), SlotFor(p)) != Some(p.value);
      var stale := p.write && !force && Stale(start, p);
      && (why == Some(ReadFailed) <==> !io(i).readOk)
      && (why == Some(UnbackedSentinel) <==> io(i).readOk && !p.write && !FilledAt(start, plans, i))
      && (why == Some(StaleConfig) <==> io(i).readOk && stale)
      && (why == Some(SetFailed) <==> io(i).readOk && missing && !stale && !io(i).setOk)
      && (why == Some(ReadbackFailed) <==>
           io(i).readOk && missing && !stale && io(i).setOk && !(io(i).stores && io(i).readbackOk))
  {
    hide WriteAll, NoConflicts;
    if plans[i].write { NotWrittenYet(start, plans, i); }
    if !force && SlotFor(plans[i]) in start { WithoutForce(start, plans, io, i, SlotFor(plans[i])); }
  }

  /** Where the transaction stands after `i` plans: the writes so far are in,
      taking them back gives the start, and there are some exactly if a write
      changed something. */
  ghost predicate Applying(start: map<Slot, string>, plans: seq<Plan>, i: nat, entries: map<Slot, string>,
                           applied: seq<Undo>)
  {
    && i <= |plans| && entries == WriteAll(start, plans[..i]) && Undone(entries, applied) == start
    && (forall k :: 0 <= k < |applied| ==> Get(start, applied[k].0) != Get(entries, applied[k].0))
    && (forall k, m :: 0 <= k < m < |applied| ==> applied[k].0 != applied[m].0)
    && (applied == [] <==> !Touched(start, plans, i))
  }

  /** A slot that holds something else than the next plan's value was not
      written before in this run. */
  lemma NotWrittenYet(start: map<Slot, string>, plans: seq<Plan>, i: nat)
    requires i < |plans| && NoConflicts(plans) && plans[i].write
    ensures var e := WriteAll(start, plans[..i]); var slot := SlotFor(plans[i]);
      Get(e, slot) != Some(plans[i].value) ==> Get(e, slot) == Get(start, slot)
    ensures var e := WriteAll(start, plans[..i]); var slot := SlotFor(plans[i]);
      Get(e, slot) == Some(plans[i].value) && Get(start, slot) != Some(plans[i].value) ==> Touched(start, plans, i)
  {
    var slot, before := SlotFor(plans[i]), plans[..i];
    if j :| 0 <= j < i && plans[j].write && SlotFor(plans[j]) == slot {
      assert Compatible(plans[j], plans[i]);
      assert before[j] == plans[j];
      WriteAllAt(start, before, j);
    } else {
      WriteAllElsewhere(start, before, slot);
    }
  }

  lemma TouchedNext(start: map<Slot, string>, plans: seq<Plan>, i: nat)
    requires i < |plans|
    ensures Touched(start, plans, i + 1) <==>
      Touched(start, plans, i) || (plans[i].write && Get(start, SlotFor(plans[i])) != Some(plans[i].value))
  {
    if Touched(start, plans, i) {
      var j :| 0 <= j < i && plans[j].write && Get(start, SlotFor(plans[j])) != Some(plans[j].value);
    }
  }

  /** A plan that writes nothing: a sentinel, or a value already there. */
  lemma ApplyNothing(start: map<Slot, string>, plans: seq<Plan>, i: nat, entries: map<Slot, string>, applied: seq<Undo>)
    requires NoConflicts(plans) && i < |plans| && Applying(start, plans, i, entries, applied)
    requires !plans[i].write || Get(entries, SlotFor(plans[i])) == Some(plans[i].value)
    ensures Applying(start, plans, i + 1, entries, applied)
  {
    hide Touched, Undone;
    TouchedNext(start, plans, i);
    if plans[i].write { NotWrittenYet(start, plans, i); }
    assert plans[..i + 1][..i] == plans[..i];
  }

  /** A slot whose undo fails, or that has none, keeps what it holds. */
  lemma {:induction false} NotUndone(entries: map<Slot, string>, applied: seq<Undo>, works: nat -> bool, slot: Slot)
    requires forall k :: 0 <= k < |applied| && applied[k].0 == slot ==> !works(k)
    ensures Get(UndoneWhere(entries, applied, works), slot) == Get(entries, slot)
    decreases |applied|
  {
    if applied != [] {
      var n := |applied| - 1;
      NotUndone(if works(n) then Restore(entries, applied[n]) else entries, applied[..n], works, slot);
    }
  }

  lemma {:induction false} AllUndone(entries: map<Slot, string>, applied: seq<Undo>, works: nat -> bool)
    requires forall k :: 0 <= k < |applied| ==> works(k)
    ensures UndoneWhere(entries, applied, works) == Undone(entries, applied)
    decreases |applied|
  {
    if applied != [] {
      var n := |applied| - 1;
      AllUndone(Restore(entries, applied[n]), applied[..n], works);
    }
  }

  /** The rollback restores the keychain exactly if every undo works. */
  lemma RollbackIsExact(start: map<Slot, string>, plans: seq<Plan>, i: nat, entries: map<Slot, string>,
                        applied: seq<Undo>, works: nat -> bool)
    requires Applying(start, plans, i, entries, applied)
    ensures UndoneWhere(entries, applied, works) == start <==> forall k :: 0 <= k < |applied| ==> works(k)
  {
    if k :| 0 <= k < |applied| && !works(k) {
      NotUndone(entries, applied, works, applied[k].0);
    } else {
      AllUndone(entries, applied, works);
    }
  }

  /** A changed slot without an undo stays changed. */
  lemma {:induction false} NoUndoRestores(start: map<Slot, string>, entries: map<Slot, string>, applied: seq<Undo>,
                                          slot: Slot)
    requires Get(entries, slot) != Get(start, slot) && forall k :: 0 <= k < |applied| ==> applied[k].0 != slot
    ensures forall works: nat -> bool :: UndoneWhere(entries, applied, works) != start
  {
    hide UndoneWhere;
    forall works: nat -> bool ensures UndoneWhere(entries, applied, works) != start {
      NotUndone(entries, applied, works, slot);
    }
  }

  lemma UndoneLast(entries: map<Slot, string>, applied: seq<Undo>, slot: Slot, value: string)
    ensures Undone(entries[slot := value], applied + [(slot, Get(entries, slot))]) == Undone(entries, applied)
  {
    var undo := (slot, Get(entries, slot));
    assert (applied + [undo])[..|applied|] == applied;
    assert Restore(entries[slot := value], undo) == entries;
  }

  /** A plan that writes: with the undo recorded it can be taken back; without
      it, as after a failed readback, no undo of the others takes it back. */
  lemma {:induction false} ApplyWrite(start: map<Slot, string>, plans: seq<Plan>, i: nat, entries: map<Slot, string>,
                                      applied: seq<Undo>)
    requires NoConflicts(plans) && i < |plans| && Applying(start, plans, i, entries, applied)
    requires plans[i].write && Get(entries, SlotFor(plans[i])) != Some(plans[i].value)
    ensures var slot := SlotFor(plans[i]); var written := entries[slot := plans[i].value];
      Applying(start, plans, i + 1, written, applied + [(slot, Get(entries, slot))]) &&
      forall works: nat -> bool :: UndoneWhere(written, applied, works) != start
  {
    hide Touched, Undone, UndoneWhere, NoConflicts;
    var slot := SlotFor(plans[i]);
    TouchedNext(start, plans, i);
    NotWrittenYet(start, plans, i);
    assert plans[..i + 1][..i] == plans[..i];
    UndoneLast(entries, applied, slot, plans[i].value);
    NoUndoRestores(start, entries[slot := plans[i].value], applied, slot);
  }

  lemma KeepsWithoutForce(start: map<Slot, string>, plans: seq<Plan>, io: nat -> PlanIo)
    requires GoesThrough(start, plans, false, io, |plans|)
    ensures forall slot :: slot in start ==>
      slot in WriteAll(start, plans) && WriteAll(start, plans)[slot] == start[slot]
  {
    forall slot | slot in start ensures slot in WriteAll(start, plans) && WriteAll(start, plans)[slot] == start[slot] {
      WithoutForce(start, plans, io, |plans|, slot);
      assert plans[..|plans|] == plans;
    }
  }

  /** The reason given for an abort is the first thing that went wrong. */
  ghost predicate Explains(reg: Registry, root: Root, start: map<Slot, string>, force: bool, io: nat -> PlanIo,
                           backupOk: bool, why: Why, at: nat) {
    match PlanRows(reg, root, reg.rows)
    case None => why.Rejected?
    case Some(plans) =>
      if !NoConflicts(plans) then why.Rejected?
      else if at < |plans| then
        GoesThrough(start, plans, force, io, at) && Failure(start, plans, force, io(at), at) == Some(why)
      else GoesThrough(start, plans, force, io, |plans|) && why == if backupOk then WriteFailed else BackupFailed
  }

  class Migration {
    const reg: Registry
    var entries: map<Slot, string>
    var root: Root

    constructor (reg: Registry, entries: map<Slot, string>, root: Root)
      ensures this.reg == reg && this.entries == entries && this.root == root
    {
      this.reg, this.entries, this.root := reg, entries, root;
    }

    /** `rollback`: an undo that fails is logged and passed over. */
    method Rollback(applied: seq<Undo>, works: nat -> bool)
      modifies this`entries
      ensures entries == UndoneWhere(old(entries), applied, works)
    {
      var i := |applied|;
      assert applied[..i] == applied;
      while i > 0
        invariant 0 <= i <= |applied|
        invariant UndoneWhere(entries, applied[..i], works) == UndoneWhere(old(entries), applied, works)
      {
        assert applied[..i][..i - 1] == applied[..i - 1];
        i := i - 1;
        if works(i) { entries := Restore(entries, applied[i]); }
      }
    }

    /** The keychain half: done, or aborted at the first plan that fails. An
        abort leaves the keychain as it was if every undo works, except after a
        failed readback of a stored value, and after a failed pre-read once
        something was written: those two undo too little. */
    method Execute(plans: seq<Plan>, force: bool, io: nat -> PlanIo, works: nat -> bool)
      returns (why: Option<Why>, at: nat, applied: seq<Undo>)
      requires NoConflicts(plans)
      modifies this`entries
      ensures why.None? ==> Applying(old(entries), plans, |plans|, entries, applied)
      ensures why.None? ==> GoesThrough(old(entries), plans, force, io, |plans|)
      ensures why.Some? ==>
        at < |plans| && GoesThrough(old(entries), plans, force, io, at) &&
        why == Failure(old(entries), plans, force, io(at), at) &&
        (entries == old(entries) <==>
          if why.value.ReadbackFailed? then !io(at).stores && forall k :: 0 <= k < |applied| ==> works(k)
          else if why.value.ReadFailed? then !Touched(old(entries), plans, at)
          else forall k :: 0 <= k < |applied| ==> works(k))
    {
      hide Undone, UndoneWhere, Touched, WriteAll;
      applied := [];
      StartApplying(entries, plans);
      for i := 0 to |plans|
        invariant Applying(old(entries), plans, i, entries, applied)
        invariant GoesThrough(old(entries), plans, force, io, i)
      {
        var plan := plans[i];
        var slot := SlotFor(plan);
        var prior := Get(entries, slot);
        AppliedMeansChanged(old(entries), plans, i, entries, applied);
        RollbackIsExact(old(entries), plans, i, entries, applied, works);
        if !io(i).readOk { return Some(ReadFailed), i, applied; }
        if plan.write {
          if prior == Some(plan.value) {
            ApplyNothing(old(entries), plans, i, entries, applied);
          } else {
            if prior.Some? && !force {
              Rollback(applied, works);
              return Some(StaleConfig), i, applied;
            }
            if !io(i).setOk {
              Rollback(applied, works);
              return Some(SetFailed), i, applied;
            }
            if io(i).stores {
              ApplyWrite(old(entries), plans, i, entries, applied);
              entries := entries[slot := plan.value];
            }
            if !io(i).readbackOk || Get(entries, slot) != Some(plan.value) {
              Rollback(applied, works);
              return Some(ReadbackFailed), i, applied;
            }
            applied := applied + [(slot, prior)];
          }
        } else if prior.Some? && prior.value != "" {
          ApplyNothing(old(entries), plans, i, entries, applied);
        } else {
          Rollback(applied, works);
          return Some(UnbackedSentinel), i, applied;
        }
      }
      why, at := None, |plans|;
    }

    /** `migrate_with`: the whole run. */
    method MigrateWith(force: bool, io: nat -> PlanIo, works: nat -> bool, backupOk: bool, writeOk: bool)
      returns (r: Outcome)
      modifies this
      ensures var plans := PlanRows(reg, old(root), reg.rows);
        (r.Migrated? <==>
          plans.Some? && NoConflicts(plans.value) && GoesThrough(old(entries), plans.value, force, io, |plans.value|) &&
          (WritesAny(plans.value) ==> backupOk && writeOk)) &&
        (r.Migrated? ==>
          entries == WriteAll(old(entries), plans.value) && root == RewriteAll(reg, old(root), plans.value)) &&
        (r.Migrated? && !force ==>
          forall slot :: slot in old(entries) ==> slot in entries && entries[slot] == old(entries)[slot]) &&
        (r.Aborted? ==>
          Explains(reg, old(root), old(entries), force, io, backupOk, r.why, r.at) &&
          root == old(root) &&
          ((forall k: nat :: works(k)) ==>
            (entries == old(entries) <==>
              !((r.why.ReadbackFailed? && io(r.at).stores) ||
                (r.why.ReadFailed? && plans.Some? && Touched(old(entries), plans.value, r.at))))))
    {
      hide Applying, Touched, WriteAll, PlanRows, RewriteAll, NoConflicts, Undone, UndoneWhere, Failure;
      var planned := PlanRows(reg, root, reg.rows);
      if planned.None? { return Aborted(Rejected, 0); }
      var plans := planned.value;
      var ok := CheckConflicts(plans);
      if !ok { return Aborted(Rejected, 0); }
      var why, at, applied := Execute(plans, force, io, works);
      if why.Some? { return Aborted(why.value, at); }
      RollbackIsExact(old(entries), plans, |plans|, entries, applied, works);
      DoneApplying(old(entries), plans, entries, applied);
      if !force { KeepsWithoutForce(old(entries), plans, io); }
      var rewritten := RewriteSites(plans);
      if WritesAny(plans) {
        if !backupOk {
          Rollback(applied, works);
          return Aborted(BackupFailed, |plans|);
        }
        if !writeOk {
          Rollback(applied, works);
          return Aborted(WriteFailed, |plans|);
        }
        root := rewritten;
      } else {
        RewriteNothing(reg, root, plans);
      }
      r := Migrated;
    }

    /** The file half: every migrated key replaced in its vendor's sections. */
    method RewriteSites(plans: seq<Plan>) returns (r: Root)
      ensures r == RewriteAll(reg, root, plans)
    {
      r := root;
      for i := 0 to |plans|
        invariant r == RewriteAll(reg, root, plans[..i])
      {
        assert plans[..i + 1][..i] == plans[..i];
        if plans[i].write { r := RewriteAliases(r, AliasesOf(reg, plans[i].row.vendor), plans[i].row.secretKey); }
      }
      assert plans[..|plans|] == plans;
    }
  }

  lemma StartApplying(entries: map<Slot, string>, plans: seq<Plan>)
    ensures Applying(entries, plans, 0, entries, [])
  {
  }

  lemma DoneApplying(start: map<Slot, string>, plans: seq<Plan>, entries: map<Slot, string>, applied: seq<Undo>)
    requires Applying(start, plans, |plans|, entries, applied)
    ensures entries == WriteAll(start, plans) && Undone(entries, applied) == start
  {
    assert plans[..|plans|] == plans;
  }

  lemma AppliedMeansChanged(start: map<Slot, string>, plans: seq<Plan>, i: nat, entries: map<Slot, string>,
                            applied: seq<Undo>)
    requires Applying(start, plans, i, entries, applied)
    ensures entries == start <==> !Touched(start, plans, i)
    ensures Undone(entries, applied) == start
    ensures entries == WriteAll(start, plans[..i])
  {
    hide Touched, WriteAll;
    if applied != [] { assert Get(start, applied[0].0) != Get(entries, applied[0].0); }
  }

  lemma {:induction false} RewriteNothing(reg: Registry, root: Root, plans: seq<Plan>)
    requires forall i :: 0 <= i < |plans| ==> !plans[i].write
    ensures RewriteAll(reg, root, plans) == root
  {
    if plans != [] { RewriteNothing(reg, root, plans[..|plans| - 1]); }
  }
}
