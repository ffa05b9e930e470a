/** Credential resolution from configuration and keychain, and the broker's
    prediction of which slot will act. */
module Resolver {
  import opened Bytes

  // ---- Text -----------------------------------------------------------------------

  /** The Unicode `White_Space` property, which `str::trim` strips. */
  predicate IsSpace(c: char) {
    var n := c as int;
    9 <= n <= 13 || n == 32 || n == 0x85 || n == 0xA0 || n == 0x1680 || 0x2000 <= n <= 0x200A ||
    n == 0x2028 || n == 0x2029 || n == 0x202F || n == 0x205F || n == 0x3000
  }

  function Trim(s: string): (t: string)
    ensures t == [] || (!IsSpace(t[0]) && !IsSpace(t[|t| - 1]))
    ensures t == s <==> s == [] || (!IsSpace(s[0]) && !IsSpace(s[|s| - 1]))
    ensures |t| <= |s|
  {
    if s == [] then s
    else if IsSpace(s[0]) then Trim(s[1..])
    else if IsSpace(s[|s| - 1]) then Trim(s[..|s| - 1])
    else s
  }

  predicate Blank(s: string) { Trim(s) == "" }

  predicate IsSentinel(s: string) { s == "keychain" || s == "keychain://" }

  predicate HasScheme(s: string, scheme: string) { |s| > |scheme| + 2 && scheme + "://" <= s }

  /** `is_reference`: a value that names a secret document. */
  predicate IsReference(s: string) {
    HasScheme(s, "file") || HasScheme(s, "vault") || HasScheme(s, "awssm") || HasScheme(s, "azkv")
  }

  // ---- Configuration and keychain ---------------------------------------------------

  datatype Config = Config(
    shared: map<string, string>,
    byVendor: map<string, map<string, string>>,
    secrets: map<string, string>)

  function RawFor(c: Config, vendor: string, key: string): Option<string> {
    if key in c.shared then Some(c.shared[key])
    else if vendor in c.byVendor && key in c.byVendor[vendor] then Some(c.byVendor[vendor][key])
    else None
  }

  /** `get_for`: a reference the snapshot resolved becomes its value. */
  function GetFor(c: Config, vendor: string, key: string): Option<string> {
    match RawFor(c, vendor, key)
    case None => None
    case Some(raw) =>
      if IsReference(Trim(raw)) && Trim(raw) in c.secrets then Some(c.secrets[Trim(raw)]) else Some(raw)
  }

  datatype Kind = ApiToken | AppPassword | Password | TotpSecret | PlainToken

  type Slot = (Kind, string, string)

  /** A keychain whose reads of some slots fail. */
  datatype Backend = Backend(entries: map<Slot, string>, broken: set<Slot>)

  /** A read that works and finds a non-empty secret. */
  function Stored(b: Backend, slot: Slot): Option<string> {
    if slot !in b.broken && slot in b.entries && b.entries[slot] != "" then Some(b.entries[slot]) else None
  }

  // ---- Resolution -------------------------------------------------------------------

  datatype Secret = Found(value: string) | Missing | Refused

  /** `resolve_configured_secret`. */
  function ResolveConfigured(b: Backend, slot: Slot, raw: Option<string>): Secret {
    match raw
    case None => (match Stored(b, slot) case Some(s) => Found(s) case None => Missing)
    case Some(text) =>
      var value := Trim(text);
      if IsSentinel(value) then (match Stored(b, slot) case Some(s) => Found(s) case None => Refused)
      else if IsReference(value) then Refused
      else if value != "" then Found(value)
      else Missing
  }

  /** One secret-bearing config key: `principalKey` is `None` when the key name is the account. */
  datatype Row = Row(vendor: string, secretKey: string, principalKey: Option<string>, kind: Kind)

  datatype Credential = Credential(row: Row, principal: string, secret: string)

  datatype Resolution = Resolved(credential: Credential) | Nothing | Failed

  function WithPrincipal(c: Config, b: Backend, row: Row, principal: string): Resolution {
    match ResolveConfigured(b, (row.kind, row.vendor, principal), GetFor(c, row.vendor, row.secretKey))
    case Found(s) => Resolved(Credential(row, principal, s))
    case Missing => Nothing
    case Refused => Failed
  }

  /** `try_resolve_kind` for a row with an account key, `vendor_secret_with` for one without. */
  function ResolveRow(c: Config, b: Backend, row: Row): Resolution {
    if row.principalKey.None? then WithPrincipal(c, b, row, row.secretKey)
    else
      match GetFor(c, row.vendor, row.principalKey.value)
      case Some(p) =>
        if IsReference(Trim(p)) then Failed
        else if p != "" then WithPrincipal(c, b, row, p)
        else NoPrincipal(c, row)
      case None => NoPrincipal(c, row)
  }

  function NoPrincipal(c: Config, row: Row): Resolution {
    var secret := GetFor(c, row.vendor, row.secretKey);
    if secret.Some? && IsSentinel(Trim(secret.value)) then Failed else Nothing
  }

  const BITBUCKET: string := "bitbucket"

  function ApiRow(vendor: string): Row {
    Row(vendor, "ATLASSIAN_API_TOKEN", Some("ATLASSIAN_USER_EMAIL"), ApiToken)
  }

  const APP_ROW: Row :=
    Row(BITBUCKET, "ATLASSIAN_BITBUCKET_APP_PASSWORD", Some("ATLASSIAN_BITBUCKET_USERNAME"), AppPassword)

  /** The registry rows of an Atlassian vendor, in declaration order. */
  function AtlassianRows(vendor: string): seq<Row> {
    if vendor == BITBUCKET then [ApiRow(vendor), APP_ROW] else [ApiRow(vendor)]
  }

  /** `resolve_with_for`. */
  function ResolveWithFor(c: Config, b: Backend, vendor: string): Resolution {
    match ResolveRow(c, b, ApiRow(vendor))
    case Failed => Failed
    case Resolved(credential) => Resolved(credential)
    case Nothing => if vendor == BITBUCKET then ResolveRow(c, b, APP_ROW) else Nothing
  }

  // ---- The broker's prediction ---------------------------------------------------------

  datatype Attribution = SlotOf(row: Row, principal: Option<string>) | NoSlot

  /** Whether `slot_label` stops at this row. */
  predicate Predicts(c: Config, b: Backend, row: Row) {
    var principal := AccountOf(c, row);
    !(row.principalKey.Some? && principal.None?) &&
    match GetFor(c, row.vendor, row.secretKey)
    case Some(text) => !Blank(text)
    case None => Stored(b, (row.kind, row.vendor, if principal.Some? then principal.value else row.secretKey)).Some?
  }

  function AccountOf(c: Config, row: Row): Option<string> {
    match row.principalKey
    case None => None
    case Some(key) =>
      (match GetFor(c, row.vendor, key)
       case None => None
       case Some(p) => if Blank(p) then None else Some(p))
  }

  /** `slot_label` over the rows of a vendor whose resolution is observable. */
  function SlotLabel(c: Config, b: Backend, rows: seq<Row>): Attribution {
    if rows == [] then NoSlot
    else if Predicts(c, b, rows[0]) then SlotOf(rows[0], AccountOf(c, rows[0]))
    else SlotLabel(c, b, rows[1..])
  }

  /** What a resolution says the label should be. */
  function LabelOf(r: Resolution): Attribution
    requires !r.Failed?
  {
    match r
    case Resolved(credential) => SlotOf(credential.row, Some(credential.principal))
    case Nothing => NoSlot
  }

  /** The account setting is there, not empty, and only white space. */
  predicate BlankAccount(c: Config, row: Row) {
    row.principalKey.Some? &&
    var account := GetFor(c, row.vendor, row.principalKey.value);
    account.Some? && account.value != "" && Blank(account.value)
  }

  /** The row has what resolution needs: a non-empty account, and a secret that
      is text, or is not configured and stored under that account. */
  predicate Usable(c: Config, b: Backend, row: Row) {
    row.principalKey.Some? &&
    var account := GetFor(c, row.vendor, row.principalKey.value);
    account.Some? && account.value != "" &&
    match GetFor(c, row.vendor, row.secretKey)
    case Some(text) => !Blank(text)
    case None => Stored(b, (row.kind, row.vendor, account.value)).Some?
  }

  /** One row: unless resolution fails, it resolves exactly when it is usable,
      and is predicted exactly when it is usable under an account that is not
      blank, and then with the account it resolves with. */
  lemma RowAgrees(c: Config, b: Backend, row: Row)
    requires row.principalKey.Some? && !ResolveRow(c, b, row).Failed?
    ensures ResolveRow(c, b, row).Resolved? <==> Usable(c, b, row)
    ensures Predicts(c, b, row) <==> Usable(c, b, row) && !BlankAccount(c, row)
    ensures ResolveRow(c, b, row).Resolved? ==> ResolveRow(c, b, row).credential.row == row
    ensures Predicts(c, b, row) ==> AccountOf(c, row) == Some(ResolveRow(c, b, row).credential.principal)
  {
    hide IsReference, IsSentinel;
    SentinelIsText();
  }

  /** When a row is refused: its account is a reference that did not resolve; or
      there is no account and the secret is the sentinel; or there is one and the
      secret is a sentinel with nothing behind it, or an unresolved reference. */
  lemma RowRefused(c: Config, b: Backend, row: Row)
    requires row.principalKey.Some?
    ensures var account, secret := GetFor(c, row.vendor, row.principalKey.value), GetFor(c, row.vendor, row.secretKey);
      var unresolved := account.Some? && IsReference(Trim(account.value));
      var sentinel := secret.Some? && IsSentinel(Trim(secret.value));
      ResolveRow(c, b, row).Failed? <==>
        || unresolved
        || (sentinel && (account.None? || account.value == "" ||
                         Stored(b, (row.kind, row.vendor, account.value)).None?))
        || (secret.Some? && IsReference(Trim(secret.value)) && account.Some? && account.value != "")
  {
    hide GetFor;
    var secret := GetFor(c, row.vendor, row.secretKey);
    if secret.Some? && IsSentinel(Trim(secret.value)) { SentinelIsNoReference(Trim(secret.value)); }
  }

  lemma SentinelIsNoReference(s: string)
    requires IsSentinel(s)
    ensures !IsReference(s)
  {
    assert s[0] == 'k';
    assert ("file" + "://")[0] == 'f' && ("vault" + "://")[0] == 'v';
    assert ("awssm" + "://")[0] == 'a' && ("azkv" + "://")[0] == 'a';
  }

  lemma SentinelIsText()
    ensures !IsSentinel("")
  {
  }

  /** The row would act under a blank account. */
  predicate Hidden(c: Config, b: Backend, row: Row) { Usable(c, b, row) && BlankAccount(c, row) }

  /** Prediction agrees with resolution: whenever the resolver answers, with a
      credential or with none, the label names that credential's row and
      account, or nothing, exactly if the row that would act is not hidden. */
  lemma PredictionAgrees(c: Config, b: Backend, vendor: string)
    requires !ResolveWithFor(c, b, vendor).Failed?
    ensures SlotLabel(c, b, AtlassianRows(vendor)) == LabelOf(ResolveWithFor(c, b, vendor)) <==>
      !Hidden(c, b, ApiRow(vendor)) && (vendor == BITBUCKET && !Usable(c, b, ApiRow(vendor)) ==> !Hidden(c, b, APP_ROW))
  {
    hide ResolveRow, Predicts, AccountOf, Usable, BlankAccount;
    var rows := AtlassianRows(vendor);
    RowAgrees(c, b, rows[0]);
    if vendor == BITBUCKET {
      assert rows[1..] == [rows[1]] && rows[1..][1..] == [];
      assert SlotLabel(c, b, rows[1..]) ==
        if Predicts(c, b, rows[1]) then SlotOf(rows[1], AccountOf(c, rows[1])) else NoSlot;
      if ResolveRow(c, b, rows[0]).Nothing? { RowAgrees(c, b, rows[1]); }
    } else {
      assert rows[1..] == [];
    }
  }

  /** The API token comes first: if it resolves it is the credential, and
      Bitbucket's app password is looked at only if it does not. */
  lemma ApiTokenComesFirst(c: Config, b: Backend, vendor: string)
    ensures ResolveRow(c, b, ApiRow(vendor)).Resolved? ==>
      ResolveWithFor(c, b, vendor) == ResolveRow(c, b, ApiRow(vendor))
    ensures ResolveRow(c, b, ApiRow(vendor)).Failed? ==> ResolveWithFor(c, b, vendor).Failed?
    ensures ResolveRow(c, b, ApiRow(vendor)).Nothing? ==>
      ResolveWithFor(c, b, vendor) == if vendor == "bitbucket" then ResolveRow(c, b, APP_ROW) else Nothing
  {
    hide ResolveRow;
  }

  /** What a row resolves to: the trimmed text of its setting, or what is stored
      under its account if the setting is the sentinel or missing; a sentinel with
      nothing behind it, and a reference that did not resolve, are refused. */
  lemma SecretMeans(b: Backend, slot: Slot, raw: Option<string>)
    ensures var r := ResolveConfigured(b, slot, raw);
      && (raw.Some? && !Blank(raw.value) && !IsSentinel(Trim(raw.value)) && !IsReference(Trim(raw.value)) ==>
           r == Found(Trim(raw.value)))
      && (raw.Some? && Blank(raw.value) ==> r == Missing)
      && (raw.Some? && (Trim(raw.value) == "keychain" || Trim(raw.value) == "keychain://") ==>
           r == if Stored(b, slot).Some? then Found(Stored(b, slot).value) else Refused)
      && (raw.Some? && IsReference(Trim(raw.value)) ==> r == Refused)
      && (raw.None? ==> r == if Stored(b, slot).Some? then Found(Stored(b, slot).value) else Missing)
    ensures Stored(b, slot).Some? ==>
      slot in b.entries && b.entries[slot] == Stored(b, slot).value != "" && slot !in b.broken
  {
  }

  /** The account condition matters: a plain token under an account of white
      space only resolves, and the label names nothing. */
  lemma BlankAccountIsNotPredicted()
    ensures var c := Config(map["ATLASSIAN_USER_EMAIL" := " ", "ATLASSIAN_API_TOKEN" := "token"], map[], map[]);
      var b := Backend(map[], {});
      ResolveWithFor(c, b, "jira").Resolved? && SlotLabel(c, b, AtlassianRows("jira")) == NoSlot
  {
    var row := ApiRow("jira");
    var c := Config(map["ATLASSIAN_USER_EMAIL" := " ", "ATLASSIAN_API_TOKEN" := "token"], map[], map[]);
    assert " "[1..] == "" && Trim(" ") == "" && !IsReference("");
    assert Trim("token") == "token" && !IsReference("token");
    assert GetFor(c, "jira", "ATLASSIAN_USER_EMAIL") == Some(" ");
    assert GetFor(c, "jira", "ATLASSIAN_API_TOKEN") == Some("token");
    assert AtlassianRows("jira")[1..] == [];
  }
}
