/** The journal's theorems assume that checkpoints survive JSON rendering and
    parsing, and speak of events. Here is a rendering, with its parser, for which
    both hold over any hash, so the theorems are about something. */
module JsonWitness {
  import opened Bytes
  import opened Decimal
  import opened Checkpoints
  import opened Journal

  const MARK: byte := 33
  const EVENT: Bytes := [OPEN_BRACE, 125, 125]

  /** Newlines exchanged with a byte no clean field holds. */
  function Swap(b: byte): byte { if b == NL then 1 else if b == 1 then NL else b }

  function SwapAll(s: Bytes): (r: Bytes)
    ensures |r| == |s| && forall i :: 0 <= i < |s| ==> r[i] == Swap(s[i])
  {
    if s == [] then [] else [Swap(s[0])] + SwapAll(s[1..])
  }

  lemma SwapInjective(a: Bytes, b: Bytes)
    requires SwapAll(a) == SwapAll(b)
    ensures a == b
  {
    assert |a| == |b|;
    forall i | 0 <= i < |a| ensures a[i] == b[i] {
      assert Swap(a[i]) == SwapAll(a)[i] == SwapAll(b)[i] == Swap(b[i]);
    }
  }

  function Optional(field: Option<Bytes>): Bytes { if field.None? then [] else [MARK] + field.value }

  function AllFields(cp: Checkpoint): seq<Bytes> {
    [Digits(cp.coversFrom), Digits(cp.coversTo), PreviousText(cp.previous), cp.chain, cp.timestamp,
     Optional(cp.keyId), Optional(cp.signature)]
  }

  lemma FieldsClean(cp: Checkpoint)
    requires CleanCheckpoint(cp)
    ensures forall i, k :: 0 <= i < 7 && 0 <= k < |AllFields(cp)[i]| ==> AllFields(cp)[i][k] >= 32
  {
    DigitsShape(cp.coversFrom);
    DigitsShape(cp.coversTo);
    if cp.previous.Some? { DigitsShape(cp.previous.value); }
  }

  /** The fields determine the checkpoint. */
  lemma FieldsInjective(a: Checkpoint, b: Checkpoint)
    requires AllFields(a) == AllFields(b)
    ensures a == b
  {
    var f, g := AllFields(a), AllFields(b);
    assert f[0] == g[0] && f[1] == g[1] && f[2] == g[2] && f[3] == g[3] && f[4] == g[4] && f[5] == g[5] && f[6] == g[6];
    DigitsInjective(a.coversFrom, b.coversFrom);
    DigitsInjective(a.coversTo, b.coversTo);
    if a.previous.Some? { DigitsShape(a.previous.value); }
    if b.previous.Some? { DigitsShape(b.previous.value); }
    if a.previous.Some? && b.previous.Some? { DigitsInjective(a.previous.value, b.previous.value); }
    OptionalInjective(a.keyId, b.keyId);
    OptionalInjective(a.signature, b.signature);
  }

  lemma OptionalInjective(a: Option<Bytes>, b: Option<Bytes>)
    requires Optional(a) == Optional(b)
    ensures a == b
  {
    if a.Some? && b.Some? { assert a.value == Optional(a)[1..] == Optional(b)[1..] == b.value; }
  }

  function Render(cp: Checkpoint): Bytes { [OPEN_BRACE] + SwapAll(Flat(Terminated(AllFields(cp)))) }

  /** Terminated clean fields: one byte each at least, and a newline at the end. */
  lemma {:induction false} FlatShape(fields: seq<Bytes>)
    requires forall i, k :: 0 <= i < |fields| && 0 <= k < |fields[i]| ==> fields[i][k] >= 32
    ensures var flat := Flat(Terminated(fields));
      |flat| >= |fields| && 1 !in flat && (fields != [] ==> flat[|flat| - 1] == NL)
    decreases |fields|
  {
    if fields != [] {
      var init, last := fields[..|fields| - 1], fields[|fields| - 1];
      FlatShape(init);
      TerminatedPush(init, last);
      hide Terminated, Flat;
      assert fields == init + [last];
    }
  }

  lemma TerminatedPush(init: seq<Bytes>, last: Bytes)
    ensures Flat(Terminated(init + [last])) == Flat(Terminated(init)) + last + [NL]
  {
    assert Terminated(init + [last]) == Terminated(init) + [last + [NL]];
    hide Terminated, Flat;
    FlatPush(Terminated(init), last + [NL]);
  }

  lemma SwapShape(flat: Bytes)
    requires |flat| >= 2 && 1 !in flat && flat[|flat| - 1] == NL
    ensures NL !in SwapAll(flat) && 1 in SwapAll(flat) && |SwapAll(flat)| >= 2
  {
    assert SwapAll(flat)[|flat| - 1] == 1;
  }

  lemma RenderShape(cp: Checkpoint)
    requires CleanCheckpoint(cp)
    ensures Accepts(Render(cp)) && NL !in Render(cp) && 1 in Render(cp)[1..]
  {
    FieldsClean(cp);
    FlatShape(AllFields(cp));
    var flat := Flat(Terminated(AllFields(cp)));
    assert |AllFields(cp)| == 7;
    hide Flat, Terminated, AllFields, CleanCheckpoint, SwapAll;
    SwapShape(flat);
    assert Render(cp)[1..] == SwapAll(flat);
  }

  lemma RenderInjective(a: Checkpoint, b: Checkpoint)
    requires CleanCheckpoint(a) && CleanCheckpoint(b) && Render(a)[1..] == Render(b)[1..]
    ensures a == b
  {
    var f, g := AllFields(a), AllFields(b);
    FieldsClean(a);
    FieldsClean(b);
    assert Render(a)[1..] == SwapAll(Flat(Terminated(f))) && Render(b)[1..] == SwapAll(Flat(Terminated(g)));
    SwapInjective(Flat(Terminated(f)), Flat(Terminated(g)));
    TerminatedLines(f);
    TerminatedLines(g);
    forall i | 0 <= i < 7 ensures f[i] == g[i] {
      assert Terminated(f)[i] == Terminated(g)[i];
      assert f[i] == Terminated(f)[i][..|f[i]|];
    }
    assert f == g;
    FieldsInjective(a, b);
  }

  /** A stamped line gives back its number and the rest of its body. */
  lemma StampInjective(m: nat, a: Bytes, n: nat, b: Bytes)
    requires |a| > 0 && |b| > 0 && Text(Stamp(m, a)) == Text(Stamp(n, b))
    ensures m == n && a[1..] == b[1..]
  {
    var p := |SEQ_PREFIX|;
    var s := Text(Stamp(m, a));
    assert s == SEQ_PREFIX + Digits(m) + [COMMA] + a[1..];
    assert s == SEQ_PREFIX + Digits(n) + [COMMA] + b[1..];
    DigitsShape(m);
    DigitsShape(n);
    SplitAt(Digits(m), a[1..], Digits(n), b[1..], s[p..]);
    DigitsInjective(m, n);
  }

  lemma SplitAt(d: Bytes, a: Bytes, e: Bytes, b: Bytes, s: Bytes)
    requires s == d + [COMMA] + a == e + [COMMA] + b && AllDigits(d) && AllDigits(e)
    ensures d == e && a == b
  {
    assert s[|d|] == COMMA && s[|e|] == COMMA;
    assert forall i :: 0 <= i < |d| ==> s[i] == d[i] != COMMA;
    assert forall i :: 0 <= i < |e| ==> s[i] == e[i] != COMMA;
    assert d == s[..|d|] && e == s[..|e|] && a == s[|d| + 1..] && b == s[|e| + 1..];
  }

  ghost predicate IsSealed(text: Bytes, n: nat, cp: Checkpoint) {
    CleanCheckpoint(cp) && text == Text(Stamp(n, Render(cp)))
  }

  ghost predicate IsNote(text: Bytes, n: nat) { text == Text(Stamp(n, EVENT)) }

  ghost function Parse(text: Bytes): Option<Json> {
    if exists n: nat, cp :: IsSealed(text, n, cp) then
      var n: nat, cp :| IsSealed(text, n, cp); Some(Json(Some(n), Some(CHECKPOINT_KIND), Some(cp)))
    else if exists n: nat :: IsNote(text, n) then
      var n: nat :| IsNote(text, n); Some(Json(Some(n), Some([]), None))
    else None
  }

  lemma ParsesSealed(n: nat, cp: Checkpoint)
    requires CleanCheckpoint(cp)
    ensures Parse(Text(Stamp(n, Render(cp)))) == Some(Json(Some(n), Some(CHECKPOINT_KIND), Some(cp)))
  {
    hide Render, Stamp, Text;
    var text := Text(Stamp(n, Render(cp)));
    assert IsSealed(text, n, cp);
    forall m: nat, other | IsSealed(text, m, other) ensures m == n && other == cp {
      RenderShape(cp);
      RenderShape(other);
      StampInjective(m, Render(other), n, Render(cp));
      RenderInjective(other, cp);
    }
  }

  lemma ParsesNote(n: nat)
    ensures Parse(Text(Stamp(n, EVENT))) == Some(Json(Some(n), Some([]), None))
  {
    hide Render, Stamp, Text;
    var text := Text(Stamp(n, EVENT));
    assert IsNote(text, n) && 1 !in EVENT[1..];
    forall m: nat, other | IsSealed(text, m, other) ensures false {
      RenderShape(other);
      StampInjective(m, Render(other), n, EVENT);
    }
    forall m: nat | IsNote(text, m) ensures m == n {
      StampInjective(m, EVENT, n, EVENT);
    }
  }

  /** Over any hash there is a faithful JSON, and it has events. */
  lemma FaithfulJsonExists(sha: Hash) returns (env: Env)
    ensures env.sha == sha && Faithful(env) && IsEvent(env, EVENT)
  {
    env := Env(sha, Parse, Render);
    hide Render, Parse, Stamp, Text, CleanCheckpoint;
    forall cp: Checkpoint | CleanCheckpoint(cp)
      ensures Accepts(env.render(cp)) && NL !in env.render(cp)
      ensures forall n: nat :: n <= U64_MAX ==>
        env.parse(Text(Stamp(n, env.render(cp)))) == Some(Json(Some(n), Some(CHECKPOINT_KIND), Some(cp)))
    {
      RenderShape(cp);
      forall n: nat | n <= U64_MAX
        ensures env.parse(Text(Stamp(n, env.render(cp)))) == Some(Json(Some(n), Some(CHECKPOINT_KIND), Some(cp)))
      {
        ParsesSealed(n, cp);
      }
    }
    forall n: nat | n <= U64_MAX ensures ReadsAsEvent(env.parse(Text(Stamp(n, EVENT))), n) {
      ParsesNote(n);
      assert CHECKPOINT_KIND != [];
    }
  }
}
