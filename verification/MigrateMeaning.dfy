/** Migration as a rewrite that keeps the meaning of the configuration: what
    the runtime resolves before and after, and what a second run does. */
module MigrateMeaning {
  import opened Bytes
  import opened Resolver
  import opened Migrate

  /** What the registry and the section names guarantee: no key is listed twice
      for a vendor, rows of one vendor that share a kind have no account key, no
      account key is itself a secret, and no two vendors share a section name. */
  ghost predicate WellFormed(reg: Registry) {
    && (forall i, j :: 0 <= i < |reg.rows| && 0 <= j < |reg.rows| && reg.rows[i].vendor == reg.rows[j].vendor ==>
         reg.rows[i].principalKey != Some(reg.rows[j].secretKey) &&
         (i != j ==> reg.rows[i].secretKey != reg.rows[j].secretKey && Apart(reg.rows[i], reg.rows[j])))
    && (forall v, w, name :: v != w && name in AliasesOf(reg, v) ==> name !in AliasesOf(reg, w))
  }

  predicate Apart(r: Row, q: Row) { r.kind != q.kind || (r.principalKey.None? && q.principalKey.None?) }

  /** The configuration the loader builds from the file, under an environment
      overlay and a snapshot of resolved references. */
  function Load(reg: Registry, root: Root, shared: map<string, string>, secrets: map<string, string>): Config {
    Config(shared,
           map v | v in reg.aliases :: map k | k in AllKeys(root) && Loaded(root, reg.aliases[v], k).Some? ::
             Loaded(root, reg.aliases[v], k).value,
           secrets)
  }

  function AllKeys(root: Root): set<string> { set name, key | name in root && key in root[name] :: key }

  lemma {:induction false} LoadedIsAKey(root: Root, names: seq<string>, key: string)
    requires Loaded(root, names, key).Some?
    ensures key in AllKeys(root)
  {
    if !EntryAt(root, names[0], key).Text? && !EntryAt(root, names[0], key).Scalar? {
      LoadedIsAKey(root, names[1..], key);
    } else {
      assert names[0] in root && key in root[names[0]];
    }
  }

  lemma RawIsLoaded(reg: Registry, root: Root, shared: map<string, string>, secrets: map<string, string>,
                    v: string, key: string)
    ensures RawFor(Load(reg, root, shared, secrets), v, key) ==
      if key in shared then Some(shared[key]) else Loaded(root, AliasesOf(reg, v), key)
  {
    var value := Loaded(root, AliasesOf(reg, v), key);
    if value.Some? { LoadedIsAKey(root, AliasesOf(reg, v), key); }
  }

  // ---- What the rewrite changes ---------------------------------------------------------------

  /** Some migrated key is `key` in section `name`. */
  ghost predicate Rewritten(reg: Registry, plans: seq<Plan>, name: string, key: string) {
    exists j :: 0 <= j < |plans| && plans[j].write && plans[j].row.secretKey == key &&
      name in AliasesOf(reg, plans[j].row.vendor)
  }

  function Replaced(j: Json, rewrite: bool): Json {
    if rewrite && j.Text? && j.text != "" then Text(SENTINEL) else j
  }

  lemma {:induction false} RewriteAllEntry(reg: Registry, root: Root, plans: seq<Plan>, name: string, key: string)
    ensures EntryAt(RewriteAll(reg, root, plans), name, key) ==
      Replaced(EntryAt(root, name, key), Rewritten(reg, plans, name, key))
  {
    if plans != [] {
      var n := |plans| - 1;
      RewriteAllEntry(reg, root, plans[..n], name, key);
      assert forall j :: 0 <= j < n ==> plans[..n][j] == plans[j];
    }
  }

  lemma {:induction false} LoadedSame(root: Root, root': Root, names: seq<string>, key: string)
    requires forall i :: 0 <= i < |names| ==> EntryAt(root', names[i], key) == EntryAt(root, names[i], key)
    ensures Loaded(root', names, key) == Loaded(root, names, key)
  {
    if names != [] {
      assert EntryAt(root', names[0], key) == EntryAt(root, names[0], key);
      LoadedSame(root, root', names[1..], key);
    }
  }

  lemma {:induction false} ReadSame(root: Root, root': Root, names: seq<string>, key: string)
    requires forall i :: 0 <= i < |names| ==> EntryAt(root', names[i], key) == EntryAt(root, names[i], key)
    ensures ReadVendor(root', names, key) == ReadVendor(root, names, key)
  {
    if names != [] {
      var n := |names| - 1;
      assert EntryAt(root', names[n], key) == EntryAt(root, names[n], key);
      ReadSame(root, root', names[..n], key);
    }
  }

  /** A key rewritten in all its sections reads as the sentinel. */
  lemma {:induction false} ReadReplaced(root: Root, root': Root, names: seq<string>, key: string)
    requires forall i :: 0 <= i < |names| ==>
      EntryAt(root', names[i], key) == Replaced(EntryAt(root, names[i], key), true)
    requires ReadVendor(root, names, key).Value?
    ensures ReadVendor(root', names, key) ==
      (match ReadVendor(root, names, key).text case None => Value(None) case Some(_) => Value(Some(SENTINEL)))
    ensures ReadVendor(root, names, key).text != Some("")
  {
    if names != [] {
      var n := |names| - 1;
      assert EntryAt(root', names[n], key) == Replaced(EntryAt(root, names[n], key), true);
      ReadReplaced(root, root', names[..n], key);
    }
  }

  lemma {:induction false} LoadedReplaced(root: Root, root': Root, names: seq<string>, key: string)
    requires forall i :: 0 <= i < |names| ==>
      EntryAt(root', names[i], key) == Replaced(EntryAt(root, names[i], key), true)
    requires forall i :: 0 <= i < |names| ==> !EntryAt(root, names[i], key).Scalar?
    requires Loaded(root, names, key).Some? && Loaded(root, names, key).value != ""
    ensures Loaded(root', names, key) == Some(SENTINEL)
  {
    assert EntryAt(root', names[0], key) == Replaced(EntryAt(root, names[0], key), true);
    assert !EntryAt(root, names[0], key).Scalar?;
    if !EntryAt(root, names[0], key).Text? { LoadedReplaced(root, root', names[1..], key); }
  }

  lemma {:induction false} ReadHasNoScalar(root: Root, names: seq<string>, key: string)
    requires ReadVendor(root, names, key).Value?
    ensures forall i :: 0 <= i < |names| ==> !EntryAt(root, names[i], key).Scalar?
  {
    if names != [] {
      var n := |names| - 1;
      ReadHasNoScalar(root, names[..n], key);
      assert forall i :: 0 <= i < n ==> names[..n][i] == names[i];
    }
  }

  // ---- Plans and rows ------------------------------------------------------------------------------

  lemma {:induction false} PlansAreRows(reg: Registry, root: Root, rows: seq<Row>, j: nat) returns (i: nat)
    requires PlanRows(reg, root, rows).Some? && j < |PlanRows(reg, root, rows).value|
    ensures i < |rows| && PlanRow(reg, root, rows[i]) == Act(PlanRows(reg, root, rows).value[j])
  {
    hide PlanRow;
    var n := |rows| - 1;
    var before := PlanRows(reg, root, rows[..n]).value;
    if j < |before| {
      i := PlansAreRows(reg, root, rows[..n], j);
    } else {
      i := n;
    }
  }

  lemma {:induction false} RowsArePlans(reg: Registry, root: Root, rows: seq<Row>, i: nat) returns (j: nat)
    requires PlanRows(reg, root, rows).Some? && i < |rows| && PlanRow(reg, root, rows[i]).Act?
    ensures j < |PlanRows(reg, root, rows).value|
    ensures PlanRows(reg, root, rows).value[j] == PlanRow(reg, root, rows[i]).plan
  {
    hide PlanRow;
    var n := |rows| - 1;
    if i < n {
      j := RowsArePlans(reg, root, rows[..n], i);
    } else {
      j := |PlanRows(reg, root, rows).value| - 1;
    }
  }

  /** The row is migrated in this run. */
  predicate Moves(reg: Registry, root: Root, row: Row) {
    PlanRow(reg, root, row).Act? && PlanRow(reg, root, row).plan.write
  }

  lemma PlanNamesItsRow(reg: Registry, root: Root, row: Row)
    requires PlanRow(reg, root, row).Act?
    ensures PlanRow(reg, root, row).plan.row == row
    ensures row.principalKey.None? ==> PlanRow(reg, root, row).plan.principal == row.secretKey
  {
    hide ReadVendor;
  }

  /** Section entries change exactly for the keys of migrated rows. */
  lemma RowEntries(reg: Registry, root: Root, r: nat, name: string, key: string)
    requires WellFormed(reg) && PlanRows(reg, root, reg.rows).Some? && r < |reg.rows|
    requires name in AliasesOf(reg, reg.rows[r].vendor)
    requires key == reg.rows[r].secretKey || Some(key) == reg.rows[r].principalKey
    ensures Rewritten(reg, PlanRows(reg, root, reg.rows).value, name, key) <==>
      key == reg.rows[r].secretKey && Moves(reg, root, reg.rows[r])
  {
    var plans, row := PlanRows(reg, root, reg.rows).value, reg.rows[r];
    hide PlanRows, PlanRow, AliasesOf;
    if Rewritten(reg, plans, name, key) {
      var j :| 0 <= j < |plans| && plans[j].write && plans[j].row.secretKey == key &&
        name in AliasesOf(reg, plans[j].row.vendor);
      var i := PlansAreRows(reg, root, reg.rows, j);
      PlanNamesItsRow(reg, root, reg.rows[i]);
      assert reg.rows[i].vendor == row.vendor;
      assert i == r;
    }
    if key == row.secretKey && Moves(reg, root, row) {
      var j := RowsArePlans(reg, root, reg.rows, r);
      PlanNamesItsRow(reg, root, row);
      assert plans[j].write;
    }
  }

  /** Both keys of a row after the rewrite, section by section. */
  lemma RowEntriesAfter(reg: Registry, root: Root, r: nat, key: string)
    requires WellFormed(reg) && PlanRows(reg, root, reg.rows).Some? && r < |reg.rows|
    requires key == reg.rows[r].secretKey || Some(key) == reg.rows[r].principalKey
    ensures var names := AliasesOf(reg, reg.rows[r].vendor);
      var root' := RewriteAll(reg, root, PlanRows(reg, root, reg.rows).value);
      var moves := key == reg.rows[r].secretKey && Moves(reg, root, reg.rows[r]);
      forall i :: 0 <= i < |names| ==> EntryAt(root', names[i], key) == Replaced(EntryAt(root, names[i], key), moves)
  {
    hide PlanRows, RewriteAll, EntryAt, Replaced, Moves, WellFormed, Rewritten, AliasesOf;
    var names, plans := AliasesOf(reg, reg.rows[r].vendor), PlanRows(reg, root, reg.rows).value;
    var root' := RewriteAll(reg, root, plans);
    var moves := key == reg.rows[r].secretKey && Moves(reg, root, reg.rows[r]);
    forall i | 0 <= i < |names| ensures EntryAt(root', names[i], key) == Replaced(EntryAt(root, names[i], key), moves) {
      RowEntries(reg, root, r, names[i], key);
      RewriteAllEntry(reg, root, plans, names[i], key);
    }
  }

  lemma NotReplaced(j: Json)
    ensures Replaced(j, false) == j
  {
  }

  /** What the loader sees of a row that is not migrated, and of any row's
      account, does not change. */
  lemma LoadedUnchanged(reg: Registry, root: Root, r: nat, key: string)
    requires WellFormed(reg) && PlanRows(reg, root, reg.rows).Some? && r < |reg.rows|
    requires Some(key) == reg.rows[r].principalKey || (key == reg.rows[r].secretKey && !Moves(reg, root, reg.rows[r]))
    ensures var names := AliasesOf(reg, reg.rows[r].vendor);
      var root' := RewriteAll(reg, root, PlanRows(reg, root, reg.rows).value);
      Loaded(root', names, key) == Loaded(root, names, key) &&
      ReadVendor(root', names, key) == ReadVendor(root, names, key)
  {
    assert Some(key) == reg.rows[r].principalKey ==> key != reg.rows[r].secretKey;
    hide PlanRows, RewriteAll, EntryAt, Replaced, Moves, WellFormed, AliasesOf, Loaded, ReadVendor;
    var names := AliasesOf(reg, reg.rows[r].vendor);
    var root' := RewriteAll(reg, root, PlanRows(reg, root, reg.rows).value);
    RowEntriesAfter(reg, root, r, key);
    forall i | 0 <= i < |names| ensures EntryAt(root', names[i], key) == EntryAt(root, names[i], key) {
      NotReplaced(EntryAt(root, names[i], key));
    }
    LoadedSame(root, root', names, key);
    ReadSame(root, root', names, key);
  }

  /** A migrated row's secret reads as the sentinel afterwards. */
  lemma SecretReplaced(reg: Registry, root: Root, r: nat)
    requires WellFormed(reg) && PlanRows(reg, root, reg.rows).Some? && r < |reg.rows| && Moves(reg, root, reg.rows[r])
    ensures var names := AliasesOf(reg, reg.rows[r].vendor); var key := reg.rows[r].secretKey;
      var root' := RewriteAll(reg, root, PlanRows(reg, root, reg.rows).value);
      var p := PlanRow(reg, root, reg.rows[r]).plan;
      && p.value != "" && ReadVendor(root, names, key) == Value(Some(p.value))
      && ReadVendor(root', names, key) == Value(Some(SENTINEL))
      && (Loaded(root, names, key) == Some(p.value) ==> Loaded(root', names, key) == Some(SENTINEL))
  {
    var names, key := AliasesOf(reg, reg.rows[r].vendor), reg.rows[r].secretKey;
    var root' := RewriteAll(reg, root, PlanRows(reg, root, reg.rows).value);
    RowEntriesAfter(reg, root, r, key);
    hide PlanRows, RewriteAll, EntryAt, Replaced, WellFormed, AliasesOf, Loaded, ReadVendor;
    ReadReplaced(root, root', names, key);
    ReadHasNoScalar(root, names, key);
    if Loaded(root, names, key) == Some(PlanRow(reg, root, reg.rows[r]).plan.value) {
      LoadedReplaced(root, root', names, key);
    }
  }

  // ---- The keychain side ------------------------------------------------------------------------------

  /** A slot of a row keeps its entry, unless it is the one the row is migrated to. */
  lemma SlotUnchanged(reg: Registry, root: Root, entries: map<Slot, string>, r: nat, principal: string)
    requires WellFormed(reg) && PlanRows(reg, root, reg.rows).Some? && r < |reg.rows|
    requires Moves(reg, root, reg.rows[r]) ==> principal != PlanRow(reg, root, reg.rows[r]).plan.principal
    requires reg.rows[r].principalKey.None? ==> principal == reg.rows[r].secretKey
    ensures var slot := (reg.rows[r].kind, reg.rows[r].vendor, principal);
      Get(WriteAll(entries, PlanRows(reg, root, reg.rows).value), slot) == Get(entries, slot)
  {
    var row, plans := reg.rows[r], PlanRows(reg, root, reg.rows).value;
    var slot := (row.kind, row.vendor, principal);
    hide PlanRows, PlanRow;
    forall j | 0 <= j < |plans| && plans[j].write ensures SlotFor(plans[j]) != slot {
      var i := PlansAreRows(reg, root, reg.rows, j);
      PlanNamesItsRow(reg, root, reg.rows[i]);
      if i != r && reg.rows[i].vendor == row.vendor {
        assert Apart(reg.rows[i], row) && reg.rows[i].secretKey != row.secretKey;
      }
    }
    WriteAllElsewhere(entries, plans, slot);
  }

  // ---- Meaning ------------------------------------------------------------------------------------------

  /** What the runtime resolves for a row, from a file, an environment overlay,
      a snapshot of resolved references, and a keychain. */
  function Meaning(reg: Registry, root: Root, shared: map<string, string>, secrets: map<string, string>,
                   b: Backend, row: Row): Resolution {
    ResolveRow(Load(reg, root, shared, secrets), b, row)
  }

  /** The loader's view of a key decides what is read of it. */
  lemma GetForFollowsLoaded(reg: Registry, root: Root, root': Root, shared: map<string, string>,
                            secrets: map<string, string>, v: string, key: string)
    requires Loaded(root, AliasesOf(reg, v), key) == Loaded(root', AliasesOf(reg, v), key)
    ensures GetFor(Load(reg, root, shared, secrets), v, key) == GetFor(Load(reg, root', shared, secrets), v, key)
  {
    hide Load, RawFor, Loaded, AliasesOf, IsReference;
    RawIsLoaded(reg, root, shared, secrets, v, key);
    RawIsLoaded(reg, root', shared, secrets, v, key);
    LoadKeepsSecrets(reg, root, root', shared, secrets);
  }

  /** Resolution depends on the row's two settings and on the slots it names. */
  lemma ResolutionFrame(c: Config, c': Config, entries: map<Slot, string>, entries': map<Slot, string>,
                        broken: set<Slot>, row: Row)
    requires GetFor(c, row.vendor, row.secretKey) == GetFor(c', row.vendor, row.secretKey)
    requires row.principalKey.Some? ==>
      GetFor(c, row.vendor, row.principalKey.value) == GetFor(c', row.vendor, row.principalKey.value)
    requires forall p :: (row.principalKey.None? ==> p == row.secretKey) ==>
      Get(entries, (row.kind, row.vendor, p)) == Get(entries', (row.kind, row.vendor, p))
    ensures ResolveRow(c, Backend(entries, broken), row) == ResolveRow(c', Backend(entries', broken), row)
  {
    hide GetFor, IsReference, IsSentinel;
    var p := if row.principalKey.None? then Some(row.secretKey) else GetFor(c, row.vendor, row.principalKey.value);
    if p.Some? {
      var slot := (row.kind, row.vendor, p.value);
      assert Get(entries, slot) == Get(entries', slot);
      assert Stored(Backend(entries, broken), slot) == Stored(Backend(entries', broken), slot);
    }
  }

  /** Rows that are not migrated mean the same afterwards, under every overlay,
      every snapshot, and whichever reads of the keychain fail. */
  lemma OtherRowsKeepTheirMeaning(reg: Registry, root: Root, entries: map<Slot, string>, broken: set<Slot>, r: nat,
                                  shared: map<string, string>, secrets: map<string, string>)
    requires WellFormed(reg) && PlanRows(reg, root, reg.rows).Some? && r < |reg.rows| && !Moves(reg, root, reg.rows[r])
    ensures var plans := PlanRows(reg, root, reg.rows).value;
      var b' := Backend(WriteAll(entries, plans), broken);
      Meaning(reg, RewriteAll(reg, root, plans), shared, secrets, b', reg.rows[r]) ==
      Meaning(reg, root, shared, secrets, Backend(entries, broken), reg.rows[r])
  {
    hide PlanRows, RewriteAll, WriteAll, Moves, WellFormed, AliasesOf, Loaded, ReadVendor,
      Load, GetFor, ResolveRow, Get;
    var row, plans := reg.rows[r], PlanRows(reg, root, reg.rows).value;
    var root', entries' := RewriteAll(reg, root, plans), WriteAll(entries, plans);
    LoadedUnchanged(reg, root, r, row.secretKey);
    GetForFollowsLoaded(reg, root, root', shared, secrets, row.vendor, row.secretKey);
    if row.principalKey.Some? {
      LoadedUnchanged(reg, root, r, row.principalKey.value);
      GetForFollowsLoaded(reg, root, root', shared, secrets, row.vendor, row.principalKey.value);
    }
    forall p | row.principalKey.None? ==> p == row.secretKey
      ensures Get(entries, (row.kind, row.vendor, p)) == Get(entries', (row.kind, row.vendor, p))
    {
      SlotUnchanged(reg, root, entries, r, p);
    }
    var c, c' := Load(reg, root, shared, secrets), Load(reg, root', shared, secrets);
    ResolutionFrame(c, c', entries, entries', broken, row);
  }

  lemma LoadKeepsSecrets(reg: Registry, root: Root, root': Root, shared: map<string, string>,
                         secrets: map<string, string>)
    ensures Load(reg, root, shared, secrets).secrets == Load(reg, root', shared, secrets).secrets == secrets
  {
  }

  // ---- What migration does to the meaning of a row ----------------------------------------------------

  /** Under which account the runtime resolves a row: one it reads, none, or a
      reference that did not resolve. */
  datatype Account = Refers | Absent | Under(principal: string)

  function AccountAt(c: Config, row: Row): Account {
    if row.principalKey.None? then Under(row.secretKey)
    else
      match GetFor(c, row.vendor, row.principalKey.value)
      case None => Absent
      case Some(p) => if IsReference(Trim(p)) then Refers else if p == "" then Absent else Under(p)
  }

  lemma ResolvesByAccount(c: Config, b: Backend, row: Row)
    ensures ResolveRow(c, b, row) ==
      (match AccountAt(c, row)
       case Refers => Failed
       case Absent => NoPrincipal(c, row)
       case Under(p) => WithPrincipal(c, b, row, p))
  {
    hide WithPrincipal, NoPrincipal, GetFor, IsReference;
  }

  /** The loader does not see the text that is migrated: an overlay replaces it,
      or an empty string in a section of higher priority hides it. */
  predicate Unseen(reg: Registry, root: Root, shared: map<string, string>, row: Row) {
    row.secretKey in shared || Loaded(root, AliasesOf(reg, row.vendor), row.secretKey) == Some("")
  }

  /** What a read of a setting gives: a reference that the snapshot resolved becomes its value. */
  function Expanded(value: string, secrets: map<string, string>): string {
    if IsReference(Trim(value)) && Trim(value) in secrets then secrets[Trim(value)] else value
  }

  /** Where the migration finds a text, the loader finds it or an empty string. */
  lemma {:induction false} LoadedOfRead(root: Root, names: seq<string>, key: string, s: string)
    requires forall i :: 0 <= i < |names| ==>
      Unset(EntryAt(root, names[i], key)) || EntryAt(root, names[i], key) == Text(s)
    requires exists i :: 0 <= i < |names| && EntryAt(root, names[i], key) == Text(s)
    ensures Loaded(root, names, key) == Some("") || Loaded(root, names, key) == Some(s)
  {
    var i :| 0 <= i < |names| && EntryAt(root, names[i], key) == Text(s);
    assert Unset(EntryAt(root, names[0], key)) || EntryAt(root, names[0], key) == Text(s);
    if EntryAt(root, names[0], key).Null? {
      assert EntryAt(root, names[1..][i - 1], key) == Text(s);
      LoadedOfRead(root, names[1..], key, s);
    }
  }

  /** An empty string that hides a text still does after the rewrite. */
  lemma {:induction false} StillHidden(root: Root, root': Root, names: seq<string>, key: string)
    requires forall i :: 0 <= i < |names| ==>
      EntryAt(root', names[i], key) == Replaced(EntryAt(root, names[i], key), true)
    requires forall i :: 0 <= i < |names| ==> !EntryAt(root, names[i], key).Scalar?
    requires Loaded(root, names, key) == Some("")
    ensures Loaded(root', names, key) == Some("")
  {
    assert EntryAt(root', names[0], key) == Replaced(EntryAt(root, names[0], key), true);
    assert !EntryAt(root, names[0], key).Scalar?;
    if !EntryAt(root, names[0], key).Text? { StillHidden(root, root', names[1..], key); }
  }

  /** How the loader sees a migrated secret, before and after. */
  lemma SecretLoaded(reg: Registry, root: Root, r: nat)
    requires WellFormed(reg) && PlanRows(reg, root, reg.rows).Some? && r < |reg.rows| && Moves(reg, root, reg.rows[r])
    ensures var names, key := AliasesOf(reg, reg.rows[r].vendor), reg.rows[r].secretKey;
      var root' := RewriteAll(reg, root, PlanRows(reg, root, reg.rows).value);
      var was, now := Loaded(root, names, key), Loaded(root', names, key);
      if was == Some("") then now == was
      else was == Some(PlanRow(reg, root, reg.rows[r]).plan.value) && now == Some(SENTINEL)
  {
    var names, key := AliasesOf(reg, reg.rows[r].vendor), reg.rows[r].secretKey;
    var root' := RewriteAll(reg, root, PlanRows(reg, root, reg.rows).value);
    var value := PlanRow(reg, root, reg.rows[r]).plan.value;
    SecretReplaced(reg, root, r);
    RowEntriesAfter(reg, root, r, key);
    ReadVendorMeans(root, names, key);
    hide PlanRows, PlanRow, RewriteAll, EntryAt, Replaced, WellFormed, AliasesOf, Loaded, ReadVendor;
    assert AgreeOn(root, names, key, value);
    LoadedOfRead(root, names, key, value);
    if Loaded(root, names, key) == Some("") {
      ReadHasNoScalar(root, names, key);
      StillHidden(root, root', names, key);
    }
  }

  /** What the runtime reads of a migrated secret, before and after. */
  lemma SecretRead(reg: Registry, root: Root, r: nat, shared: map<string, string>, secrets: map<string, string>)
    requires WellFormed(reg) && PlanRows(reg, root, reg.rows).Some? && r < |reg.rows| && Moves(reg, root, reg.rows[r])
    ensures var row := reg.rows[r];
      var root' := RewriteAll(reg, root, PlanRows(reg, root, reg.rows).value);
      var was := GetFor(Load(reg, root, shared, secrets), row.vendor, row.secretKey);
      var now := GetFor(Load(reg, root', shared, secrets), row.vendor, row.secretKey);
      was.Some? &&
      if Unseen(reg, root, shared, row) then now == was
      else was.value == Expanded(PlanRow(reg, root, row).plan.value, secrets) && now == Some(SENTINEL)
  {
    hide PlanRows, PlanRow, RewriteAll, WellFormed, AliasesOf, Loaded, Load, RawFor, Moves;
    var row, root' := reg.rows[r], RewriteAll(reg, root, PlanRows(reg, root, reg.rows).value);
    SecretLoaded(reg, root, r);
    RawIsLoaded(reg, root, shared, secrets, row.vendor, row.secretKey);
    RawIsLoaded(reg, root', shared, secrets, row.vendor, row.secretKey);
    LoadKeepsSecrets(reg, root, root', shared, secrets);
    assert Trim(SENTINEL) == SENTINEL && !IsReference(SENTINEL);
  }

  /** The account does not change. */
  lemma AccountRead(reg: Registry, root: Root, r: nat, shared: map<string, string>, secrets: map<string, string>)
    requires WellFormed(reg) && PlanRows(reg, root, reg.rows).Some? && r < |reg.rows|
    ensures var root' := RewriteAll(reg, root, PlanRows(reg, root, reg.rows).value);
      AccountAt(Load(reg, root', shared, secrets), reg.rows[r]) ==
      AccountAt(Load(reg, root, shared, secrets), reg.rows[r])
  {
    hide PlanRows, RewriteAll, WellFormed, AliasesOf, Loaded, Load, GetFor, Moves, IsReference;
    var row, root' := reg.rows[r], RewriteAll(reg, root, PlanRows(reg, root, reg.rows).value);
    if row.principalKey.Some? {
      LoadedUnchanged(reg, root, r, row.principalKey.value);
      GetForFollowsLoaded(reg, root, root', shared, secrets, row.vendor, row.principalKey.value);
    }
  }

  /** What a slot gives the runtime after the run, if `stored` is what it gave before. */
  function Later(p: Plan, b: Backend, slot: Slot): Option<string> {
    if slot == SlotFor(p) && slot !in b.broken then Some(p.value) else Stored(b, slot)
  }

  lemma SlotRead(reg: Registry, root: Root, entries: map<Slot, string>, broken: set<Slot>, r: nat, principal: string)
    requires WellFormed(reg) && PlanRows(reg, root, reg.rows).Some? && NoConflicts(PlanRows(reg, root, reg.rows).value)
    requires r < |reg.rows| && Moves(reg, root, reg.rows[r])
    requires reg.rows[r].principalKey.None? ==> principal == reg.rows[r].secretKey
    ensures var slot := (reg.rows[r].kind, reg.rows[r].vendor, principal);
      Stored(Backend(WriteAll(entries, PlanRows(reg, root, reg.rows).value), broken), slot) ==
      Later(PlanRow(reg, root, reg.rows[r]).plan, Backend(entries, broken), slot)
  {
    hide PlanRows, PlanRow, WellFormed, WriteAll, NoConflicts;
    var plans, p := PlanRows(reg, root, reg.rows).value, PlanRow(reg, root, reg.rows[r]).plan;
    var slot := (reg.rows[r].kind, reg.rows[r].vendor, principal);
    PlanNamesItsRow(reg, root, reg.rows[r]);
    if principal == p.principal {
      var j := RowsArePlans(reg, root, reg.rows, r);
      WriteAllAt(entries, plans, j);
      SecretReplaced(reg, root, r);
    } else {
      SlotUnchanged(reg, root, entries, r, principal);
    }
    assert Get(WriteAll(entries, plans), slot) ==
      if principal == p.principal then Some(p.value) else Get(entries, slot);
  }

  /** The text `text`, answered over a slot that gives `stored`, is answered as the
      sentinel is over a slot that gives `later`. */
  predicate AsTheSentinel(text: string, stored: Option<string>, later: Option<string>) {
    if IsSentinel(Trim(text)) then stored == later
    else if IsReference(Trim(text)) then later.None?
    else Trim(text) != "" && later == Some(Trim(text))
  }

  /** When migration keeps the meaning of a row, in terms of what is there before. */
  predicate MeaningKept(c: Config, b: Backend, row: Row, p: Plan, unseen: bool)
    requires GetFor(c, row.vendor, row.secretKey).Some?
  {
    var text := GetFor(c, row.vendor, row.secretKey).value;
    match AccountAt(c, row)
    case Refers => true
    case Absent => unseen || IsSentinel(Trim(text))
    case Under(a) =>
      var slot := (row.kind, row.vendor, a);
      if unseen then IsSentinel(Trim(text)) ==> Stored(b, slot) == Later(p, b, slot)
      else AsTheSentinel(text, Stored(b, slot), Later(p, b, slot))
  }

  lemma AnsweredAlike(b: Backend, b': Backend, slot: Slot, text: string)
    ensures ResolveConfigured(b, slot, Some(text)) == ResolveConfigured(b', slot, Some(SENTINEL)) <==>
      AsTheSentinel(text, Stored(b, slot), Stored(b', slot))
    ensures ResolveConfigured(b, slot, Some(text)) == ResolveConfigured(b', slot, Some(text)) <==>
      (IsSentinel(Trim(text)) ==> Stored(b, slot) == Stored(b', slot))
  {
    assert Trim(SENTINEL) == SENTINEL;
    hide IsReference;
  }

  /** One answer follows the other: same row, same account. */
  lemma SameCredential(c: Config, c': Config, b: Backend, b': Backend, row: Row, a: string)
    ensures WithPrincipal(c, b, row, a) == WithPrincipal(c', b', row, a) <==>
      ResolveConfigured(b, (row.kind, row.vendor, a), GetFor(c, row.vendor, row.secretKey)) ==
      ResolveConfigured(b', (row.kind, row.vendor, a), GetFor(c', row.vendor, row.secretKey))
  {
    hide ResolveConfigured, GetFor;
  }

  /** Migration preserves meaning, exactly: a migrated row resolves as before if
      and only if `MeaningKept` holds of the configuration and keychain before
      the run. Any overlay, any snapshot, any account setting, any failing read. */
  lemma MigratedRowKeepsItsMeaning(reg: Registry, root: Root, entries: map<Slot, string>, broken: set<Slot>, r: nat,
                                   shared: map<string, string>, secrets: map<string, string>)
    requires WellFormed(reg) && PlanRows(reg, root, reg.rows).Some? && NoConflicts(PlanRows(reg, root, reg.rows).value)
    requires r < |reg.rows| && Moves(reg, root, reg.rows[r])
    ensures var plans, row := PlanRows(reg, root, reg.rows).value, reg.rows[r];
      var c, b := Load(reg, root, shared, secrets), Backend(entries, broken);
      var b' := Backend(WriteAll(entries, plans), broken);
      GetFor(c, row.vendor, row.secretKey).Some? &&
      (Meaning(reg, root, shared, secrets, b, row) ==
         Meaning(reg, RewriteAll(reg, root, plans), shared, secrets, b', row) <==>
       MeaningKept(c, b, row, PlanRow(reg, root, row).plan, Unseen(reg, root, shared, row)))
  {
    hide PlanRows, RewriteAll, WriteAll, WellFormed, AliasesOf, Loaded, Load, ResolveRow, PlanRow, NoConflicts,
      GetFor, AccountAt, Unseen, WithPrincipal, ResolveConfigured, AsTheSentinel, Later, IsSentinel, Moves, Expanded;
    var plans, row := PlanRows(reg, root, reg.rows).value, reg.rows[r];
    var root', b := RewriteAll(reg, root, plans), Backend(entries, broken);
    var b' := Backend(WriteAll(entries, plans), broken);
    var c, c' := Load(reg, root, shared, secrets), Load(reg, root', shared, secrets);
    SecretRead(reg, root, r, shared, secrets);
    AccountRead(reg, root, r, shared, secrets);
    ResolvesByAccount(c, b, row);
    ResolvesByAccount(c', b', row);
    var text := GetFor(c, row.vendor, row.secretKey).value;
    match AccountAt(c, row)
    case Refers =>
    case Absent => SentinelIsSentinel();
    case Under(a) =>
      AccountOfPlain(c, row);
      SlotRead(reg, root, entries, broken, r, a);
      SameCredential(c, c', b, b', row, a);
      AnsweredAlike(b, b', (row.kind, row.vendor, a), text);
  }

  /** Where the loader sees the migrated text and the runtime account is the one
      in the file, the row resolves afterwards to that account and that text. */
  lemma MigratedRowResolves(reg: Registry, root: Root, entries: map<Slot, string>, broken: set<Slot>, r: nat,
                            shared: map<string, string>, secrets: map<string, string>)
    requires WellFormed(reg) && PlanRows(reg, root, reg.rows).Some? && NoConflicts(PlanRows(reg, root, reg.rows).value)
    requires r < |reg.rows| && Moves(reg, root, reg.rows[r]) && !Unseen(reg, root, shared, reg.rows[r])
    requires SlotFor(PlanRow(reg, root, reg.rows[r]).plan) !in broken
    requires AccountAt(Load(reg, root, shared, secrets), reg.rows[r]) ==
      Under(PlanRow(reg, root, reg.rows[r]).plan.principal)
    ensures var plans, row := PlanRows(reg, root, reg.rows).value, reg.rows[r];
      var b' := Backend(WriteAll(entries, plans), broken);
      var p := PlanRow(reg, root, row).plan;
      Meaning(reg, RewriteAll(reg, root, plans), shared, secrets, b', row) ==
      Resolved(Credential(row, p.principal, p.value))
  {
    hide PlanRows, RewriteAll, WriteAll, WellFormed, AliasesOf, Loaded, Load, ResolveRow, PlanRow, NoConflicts,
      GetFor, AccountAt, Unseen, Expanded, Stored;
    var plans, row := PlanRows(reg, root, reg.rows).value, reg.rows[r];
    var p, b' := PlanRow(reg, root, row).plan, Backend(WriteAll(entries, plans), broken);
    PlanNamesItsRow(reg, root, row);
    SecretRead(reg, root, r, shared, secrets);
    AccountRead(reg, root, r, shared, secrets);
    ResolvesByAccount(Load(reg, RewriteAll(reg, root, plans), shared, secrets), b', row);
    AccountOfPlain(Load(reg, root, shared, secrets), row);
    SlotRead(reg, root, entries, broken, r, p.principal);
    SentinelIsSentinel();
  }

  lemma SentinelIsSentinel()
    ensures Trim(SENTINEL) == SENTINEL && IsSentinel(SENTINEL)
  {
  }

  lemma AccountOfPlain(c: Config, row: Row)
    ensures row.principalKey.None? ==> AccountAt(c, row) == Under(row.secretKey)
  {
  }

  // ---- The ordinary case, and one where the meaning is lost -------------------------------------------

  /** Plaintext that means itself at run time: no surrounding white space, not
      a spelling of the sentinel, not a secret reference. */
  predicate MeansItself(s: string) { Trim(s) == s && !IsSentinel(s) && !IsReference(s) }

  /** For a row whose text the loader sees and whose runtime account is the one
      in the file, with keychain reads that work, the condition is short: the
      value means itself, or reads as a sentinel while the slot already holds it. */
  lemma OrdinaryRow(c: Config, entries: map<Slot, string>, row: Row, p: Plan, secrets: map<string, string>)
    requires AccountAt(c, row) == Under(p.principal) && p.row == row && p.value != ""
    requires GetFor(c, row.vendor, row.secretKey) == Some(Expanded(p.value, secrets))
    ensures MeaningKept(c, Backend(entries, {}), row, p, false) <==>
      MeansItself(p.value) ||
      (IsSentinel(Trim(Expanded(p.value, secrets))) && Get(entries, SlotFor(p)) == Some(p.value))
  {
    hide AccountAt, GetFor, IsReference, IsSentinel;
  }

  const LOST_ROW: Row := Row("v", "S", Some("A"), Password)
  const LOST_REGISTRY: Registry := Registry([LOST_ROW], map["v" := ["v"]])
  const LOST_ROOT: Root := map["v" := map["A" := Text("vault://a"), "S" := Text("pw")]]

  lemma LostPlan()
    ensures PlanRows(LOST_REGISTRY, LOST_ROOT, LOST_REGISTRY.rows) == Some([Plan(LOST_ROW, "vault://a", "pw", true)])
  {
    var rows := LOST_REGISTRY.rows;
    assert rows[..0] == [] && ["v"][..0] == [];
    assert ReadVendor(LOST_ROOT, ["v"], "A") == Value(Some("vault://a"));
    assert ReadVendor(LOST_ROOT, ["v"], "S") == Value(Some("pw"));
    assert |"pw"| != |SENTINEL|;
    var plan := Plan(LOST_ROW, "vault://a", "pw", true);
    assert PlanRow(LOST_REGISTRY, LOST_ROOT, LOST_ROW) == Act(plan);
    hide PlanRow;
    assert PlanRows(LOST_REGISTRY, LOST_ROOT, rows[..0]) == Some([]) && rows[0] == LOST_ROW && |rows| == 1;
    assert [] + [plan] == [plan];
  }

  lemma LostTexts(secret: string)
    requires secret == "pw" || secret == SENTINEL
    ensures Trim("vault://a") == "vault://a" && IsReference("vault://a")
    ensures Trim(secret) == secret && !IsReference(secret)
  {
    assert HasScheme("vault://a", "vault");
  }

  /** What the runtime reads of the row's two settings. */
  lemma LostSettings(root: Root, secret: string)
    requires EntryAt(root, "v", "A") == Text("vault://a") && EntryAt(root, "v", "S") == Text(secret)
    requires secret == "pw" || secret == SENTINEL
    ensures var c := Load(LOST_REGISTRY, root, map[], map["vault://a" := "me"]);
      GetFor(c, "v", "A") == Some("me") && GetFor(c, "v", "S") == Some(secret)
  {
    hide Load, RawFor, EntryAt, IsReference, Trim;
    var secrets := map["vault://a" := "me"];
    LostTexts(secret);
    RawIsLoaded(LOST_REGISTRY, root, map[], secrets, "v", "A");
    RawIsLoaded(LOST_REGISTRY, root, map[], secrets, "v", "S");
    assert AliasesOf(LOST_REGISTRY, "v") == ["v"];
    LoadKeepsSecrets(LOST_REGISTRY, root, root, map[], secrets);
  }

  lemma LostMeaning(c: Config, b: Backend, secret: string)
    requires GetFor(c, "v", "A") == Some("me") && GetFor(c, "v", "S") == Some(secret)
    requires (Password, "v", "me") !in b.entries && (secret == "pw" || secret == SENTINEL)
    ensures ResolveRow(c, b, LOST_ROW) == if secret == "pw" then Resolved(Credential(LOST_ROW, "me", "pw")) else Failed
  {
    hide GetFor;
    assert Trim("me") == "me" && !IsReference("me");
    assert Trim(secret) == secret && !IsReference(secret) && |"pw"| != |SENTINEL| && |"keychain://"| == 11;
  }

  lemma LostRewrite(plans: seq<Plan>)
    requires plans == [Plan(LOST_ROW, "vault://a", "pw", true)]
    ensures var root' := RewriteAll(LOST_REGISTRY, LOST_ROOT, plans);
      EntryAt(root', "v", "A") == Text("vault://a") && EntryAt(root', "v", "S") == Text(SENTINEL)
    ensures (Password, "v", "me") !in WriteAll(map[], plans)
  {
    RewriteAllEntry(LOST_REGISTRY, LOST_ROOT, plans, "v", "A");
    RewriteAllEntry(LOST_REGISTRY, LOST_ROOT, plans, "v", "S");
    assert plans[0].write && plans[0].row.secretKey == "S" && "v" in AliasesOf(LOST_REGISTRY, plans[0].row.vendor);
    assert Rewritten(LOST_REGISTRY, plans, "v", "S") && !Rewritten(LOST_REGISTRY, plans, "v", "A");
    hide RewriteAll, WriteAll;
    assert |"me"| != |"vault://a"|;
    WriteAllElsewhere(map[], plans, (Password, "v", "me"));
  }

  /** An account kept as a reference: the secret is filed under the reference
      and looked up under what it resolves to, so it is lost. */
  lemma AccountReferenceLosesItsSecret()
    ensures var secrets, plans := map["vault://a" := "me"], PlanRows(LOST_REGISTRY, LOST_ROOT, LOST_REGISTRY.rows);
      && plans == Some([Plan(LOST_ROW, "vault://a", "pw", true)])
      && Meaning(LOST_REGISTRY, LOST_ROOT, map[], secrets, Backend(map[], {}), LOST_ROW)
           == Resolved(Credential(LOST_ROW, "me", "pw"))
      && Meaning(LOST_REGISTRY, RewriteAll(LOST_REGISTRY, LOST_ROOT, plans.value), map[], secrets,
                 Backend(WriteAll(map[], plans.value), {}), LOST_ROW)
           == Failed
  {
    assert EntryAt(LOST_ROOT, "v", "A") == Text("vault://a") && EntryAt(LOST_ROOT, "v", "S") == Text("pw");
    hide PlanRows, RewriteAll, WriteAll, Load, GetFor, ResolveRow, EntryAt;
    var plans, secrets := [Plan(LOST_ROW, "vault://a", "pw", true)], map["vault://a" := "me"];
    var root', entries := RewriteAll(LOST_REGISTRY, LOST_ROOT, plans), WriteAll(map[], plans);
    LostPlan();
    LostRewrite(plans);
    LostSettings(LOST_ROOT, "pw");
    LostSettings(root', SENTINEL);
    LostMeaning(Load(LOST_REGISTRY, LOST_ROOT, map[], secrets), Backend(map[], {}), "pw");
    LostMeaning(Load(LOST_REGISTRY, root', map[], secrets), Backend(entries, {}), SENTINEL);
    assert |"pw"| != |SENTINEL|;
  }

  // ---- A second run ------------------------------------------------------------------------------------

  /** The plan a migrated row gets on the next run. */
  function Settled(p: Plan): Plan { if p.write then Plan(p.row, p.principal, "", false) else p }

  function SettledAll(plans: seq<Plan>): (r: seq<Plan>)
    ensures |r| == |plans|
  {
    if plans == [] then [] else SettledAll(plans[..|plans| - 1]) + [Settled(plans[|plans| - 1])]
  }

  lemma RowSettles(reg: Registry, root: Root, r: nat)
    requires WellFormed(reg) && PlanRows(reg, root, reg.rows).Some? && r < |reg.rows|
    ensures var root' := RewriteAll(reg, root, PlanRows(reg, root, reg.rows).value);
      PlanRow(reg, root', reg.rows[r]) ==
      (match PlanRow(reg, root, reg.rows[r]) case Act(p) => Act(Settled(p)) case other => other)
  {
    hide PlanRows, RewriteAll, WellFormed, AliasesOf, Loaded, ReadVendor;
    var row := reg.rows[r];
    if row.principalKey.Some? { LoadedUnchanged(reg, root, r, row.principalKey.value); }
    if Moves(reg, root, row) {
      SecretReplaced(reg, root, r);
    } else {
      LoadedUnchanged(reg, root, r, row.secretKey);
    }
  }

  lemma {:induction false} RowsSettle(reg: Registry, root: Root, n: nat)
    requires WellFormed(reg) && PlanRows(reg, root, reg.rows).Some? && n <= |reg.rows|
    requires PlanRows(reg, root, reg.rows[..n]).Some?
    ensures var root' := RewriteAll(reg, root, PlanRows(reg, root, reg.rows).value);
      PlanRows(reg, root', reg.rows[..n]) == Some(SettledAll(PlanRows(reg, root, reg.rows[..n]).value))
  {
    hide RewriteAll, WellFormed, PlanRow;
    if n > 0 {
      var rows := reg.rows[..n];
      assert rows[..n - 1] == reg.rows[..n - 1];
      RowsSettle(reg, root, n - 1);
      RowSettles(reg, root, n - 1);
      var before := PlanRows(reg, root, rows[..n - 1]).value;
      if PlanRow(reg, root, rows[n - 1]).Act? {
        assert (before + [PlanRow(reg, root, rows[n - 1]).plan])[..|before|] == before;
      }
    }
  }

  lemma {:induction false} SettledAt(plans: seq<Plan>, j: nat)
    requires j < |plans|
    ensures SettledAll(plans)[j] == Settled(plans[j])
    decreases |plans|
  {
    var n := |plans| - 1;
    if j < n { SettledAt(plans[..n], j); }
  }

  lemma {:induction false} SettledWritesNothing(entries: map<Slot, string>, reg: Registry, root: Root, plans: seq<Plan>)
    ensures WriteAll(entries, SettledAll(plans)) == entries && RewriteAll(reg, root, SettledAll(plans)) == root
  {
    if plans != [] {
      var n := |plans| - 1;
      SettledWritesNothing(entries, reg, root, plans[..n]);
      assert SettledAll(plans)[..n] == SettledAll(plans[..n]);
    }
  }

  /** A non-empty entry stays non-empty: planned values are never empty. */
  lemma {:induction false} EntriesStayFilled(entries: map<Slot, string>, plans: seq<Plan>, j: nat, slot: Slot)
    requires j <= |plans| && forall i :: 0 <= i < |plans| && plans[i].write ==> plans[i].value != ""
    requires var e := Get(WriteAll(entries, plans[..j]), slot); e.Some? && e.value != ""
    ensures var e := Get(WriteAll(entries, plans), slot); e.Some? && e.value != ""
    decreases |plans| - j
  {
    if j < |plans| {
      assert plans[..j + 1][..j] == plans[..j];
      EntriesStayFilled(entries, plans, j + 1, slot);
    } else {
      assert plans[..j] == plans;
    }
  }

  lemma {:induction false} SettledPrefix(plans: seq<Plan>, j: nat)
    requires j <= |plans|
    ensures SettledAll(plans)[..j] == SettledAll(plans[..j])
  {
    if j < |plans| {
      var n := |plans| - 1;
      SettledPrefix(plans[..n], j);
      assert plans[..n][..j] == plans[..j];
      assert SettledAll(plans)[..j] == SettledAll(plans[..n])[..j];
    } else {
      assert plans[..j] == plans;
    }
  }

  /** The entry behind a plan of a successful run is filled at its end. */
  lemma FilledAfter(reg: Registry, root: Root, entries: map<Slot, string>, force: bool, io: nat -> PlanIo, j: nat)
    requires WellFormed(reg) && PlanRows(reg, root, reg.rows).Some? && NoConflicts(PlanRows(reg, root, reg.rows).value)
    requires j < |PlanRows(reg, root, reg.rows).value|
    requires GoesThrough(entries, PlanRows(reg, root, reg.rows).value, force, io, |PlanRows(reg, root, reg.rows).value|)
    ensures var plans := PlanRows(reg, root, reg.rows).value; var e := Get(WriteAll(entries, plans), SlotFor(plans[j]));
      e.Some? && e.value != ""
  {
    hide WriteAll, WellFormed, PlanRow, PlanRows, RewriteAll;
    var plans := PlanRows(reg, root, reg.rows).value;
    forall i | 0 <= i < |plans| && plans[i].write ensures plans[i].value != "" {
      var r := PlansAreRows(reg, root, reg.rows, i);
      SecretReplaced(reg, root, r);
    }
    assert Failure(entries, plans, force, io(j), j).None?;
    if plans[j].write {
      WriteAllAt(entries, plans, j);
    } else {
      EntriesStayFilled(entries, plans, j, SlotFor(plans[j]));
    }
  }

  /** A second run changes nothing: after a successful run, planning again
      yields only sentinels, each with a non-empty entry behind it; so if the
      keychain can be read the run goes through, writes no entry and rewrites
      no key. */
  lemma SecondRunChangesNothing(reg: Registry, root: Root, entries: map<Slot, string>, force: bool, io: nat -> PlanIo,
                                forceAgain: bool, again: nat -> PlanIo)
    requires WellFormed(reg) && PlanRows(reg, root, reg.rows).Some? && NoConflicts(PlanRows(reg, root, reg.rows).value)
    requires GoesThrough(entries, PlanRows(reg, root, reg.rows).value, force, io, |PlanRows(reg, root, reg.rows).value|)
    requires forall i :: again(i).readOk
    ensures var plans := PlanRows(reg, root, reg.rows).value;
      var root' := RewriteAll(reg, root, plans);
      var entries' := WriteAll(entries, plans);
      var settled := SettledAll(plans);
      && PlanRows(reg, root', reg.rows) == Some(settled) && !WritesAny(settled) && NoConflicts(settled)
      && GoesThrough(entries', settled, forceAgain, again, |settled|)
      && WriteAll(entries', settled) == entries' && RewriteAll(reg, root', settled) == root'
  {
    hide RewriteAll, WriteAll, WellFormed, PlanRow, PlanRows, SettledAll, GoesThrough;
    var plans := PlanRows(reg, root, reg.rows).value;
    var root', entries', settled := RewriteAll(reg, root, plans), WriteAll(entries, plans), SettledAll(plans);
    assert reg.rows[..|reg.rows|] == reg.rows;
    RowsSettle(reg, root, |reg.rows|);
    SettledWritesNothing(entries', reg, root', plans);
    forall j | 0 <= j < |plans|
      ensures !settled[j].write && Failure(entries', settled, forceAgain, again(j), j).None?
    {
      SettledAt(plans, j);
      SettledPrefix(plans, j);
      SettledWritesNothing(entries', reg, root', plans[..j]);
      FilledAfter(reg, root, entries, force, io, j);
    }
    AllGoThrough(entries', settled, forceAgain, again);
  }

  lemma AllGoThrough(entries: map<Slot, string>, plans: seq<Plan>, force: bool, io: nat -> PlanIo)
    requires forall j :: 0 <= j < |plans| ==> Failure(entries, plans, force, io(j), j).None?
    ensures GoesThrough(entries, plans, force, io, |plans|)
  {
  }
}
