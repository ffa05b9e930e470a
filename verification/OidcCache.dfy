/** The validated-token cache against key rotation: requests snapshot the keys,
    verify, and only then try to cache, while refreshes install new keys. */
module OidcCache {
  import opened Bytes

  const VALIDATED_TTL: nat := 300
  const VALIDATED_CAPACITY: nat := 4096

  type Kid = string
  type Fingerprint = nat
  type Token = string
  type Principal = string

  /** The admitted keys: each key id with the fingerprint of its material. */
  type Keys = map<Kid, Fingerprint>

  /** JWT decoding with one key: the principal and the expiry, or a refusal. */
  type Decode = (Token, Fingerprint) -> Option<(Principal, nat)>

  datatype Validated = Validated(principal: Principal, expiresAt: nat, kid: Kid, fingerprint: Fingerprint)

  datatype Verified = Verified(principal: Principal, exp: nat, kid: Kid, fingerprint: Fingerprint, generation: nat)

  datatype Cache = Cache(keys: Keys, generation: nat, validated: map<Token, Validated>)

  function Min(a: nat, b: nat): nat { if a < b then a else b }

  // ---- The atomic steps on values ------------------------------------------------------

  /** The entries whose key is still published with the same material. */
  function Current(validated: map<Token, Validated>, keys: Keys): map<Token, Validated> {
    map t | t in validated && validated[t].kid in keys && keys[validated[t].kid] == validated[t].fingerprint ::
      validated[t]
  }

  function Install(c: Cache, keys: Keys): Cache { Cache(keys, c.generation + 1, Current(c.validated, keys)) }

  function Alive(validated: map<Token, Validated>, now: nat): map<Token, Validated> {
    map t | t in validated && validated[t].expiresAt > now :: validated[t]
  }

  /** The room made before an insertion: sweep what expired, and clear if that is not enough. */
  function Swept(validated: map<Token, Validated>, now: nat): (m: map<Token, Validated>)
    ensures |m| < VALIDATED_CAPACITY && forall t :: t in m ==> t in validated && m[t] == validated[t]
  {
    if |validated| < VALIDATED_CAPACITY then validated
    else if |Alive(validated, now)| < VALIDATED_CAPACITY then Alive(validated, now)
    else map[]
  }

  function Remember(c: Cache, token: Token, v: Verified, now: nat): Cache {
    var ttl := Min(if v.exp > now then v.exp - now else 0, VALIDATED_TTL);
    if ttl == 0 || v.generation != c.generation then c
    else c.(validated := Swept(c.validated, now)[token := Validated(v.principal, now + ttl, v.kid, v.fingerprint)])
  }

  function Lookup(c: Cache, token: Token, now: nat): Option<Principal> {
    if token in c.validated && c.validated[token].expiresAt > now then Some(c.validated[token].principal) else None
  }

  /** A validation under the current keys of a token still alive is kept. */
  predicate Keeps(c: Cache, v: Verified, now: nat) { v.generation == c.generation && v.exp > now }

  /** What was just remembered is answered until the token ends or five minutes
      have passed, and no longer. */
  lemma RememberedIsAnswered(c: Cache, token: Token, v: Verified, now: nat, at: nat)
    requires Keeps(c, v, now) && at >= now
    ensures Lookup(Remember(c, token, v, now), token, at) ==
      if at < v.exp && at < now + 300 then Some(v.principal) else None
  {
    hide Swept;
  }

  lemma RememberAnswers(c: Cache, token: Token, v: Verified, now: nat)
    ensures var c' := Remember(c, token, v, now);
      if Keeps(c, v, now) then Lookup(c', token, now) == Some(v.principal) else c' == c
  {
    if Keeps(c, v, now) { RememberedIsAnswered(c, token, v, now, now); }
    hide Swept;
  }

  /** Remembering one token changes no other answer, unless 4096 live entries
      leave no room, when all go. A validation that is not kept changes nothing. */
  lemma OthersStayAnswered(c: Cache, token: Token, v: Verified, now: nat, other: Token, at: nat)
    requires other != token && at >= now
    ensures !Keeps(c, v, now) ==> Remember(c, token, v, now) == c
    ensures Lookup(Remember(c, token, v, now), other, at) ==
      if Keeps(c, v, now) && |c.validated| >= 4096 && |Alive(c.validated, now)| >= 4096 then None
      else Lookup(c, other, at)
  {
  }

  /** New keys take away exactly the answers that rest on a key that is gone or
      has other material. */
  lemma InstallKeepsCurrent(c: Cache, keys: Keys, token: Token, at: nat)
    ensures Lookup(Install(c, keys), token, at) ==
      if token in c.validated && c.validated[token].kid in keys &&
         keys[c.validated[token].kid] == c.validated[token].fingerprint
      then Lookup(c, token, at) else None
  {
  }

  // ---- The validator's own methods -----------------------------------------------------

  class OidcValidator {
    var keys: Keys
    var generation: nat
    var validated: map<Token, Validated>

    function Value(): Cache reads this { Cache(keys, generation, validated) }

    constructor ()
      ensures Value() == Cache(map[], 0, map[])
    {
      keys, generation, validated := map[], 0, map[];
    }

    /** `install_keys`: one critical section. */
    method InstallKeys(published: Keys) returns (count: nat)
      modifies this
      ensures Value() == Install(old(Value()), published) && count == |published|
    {
      count := |published|;
      keys := published;
      generation := generation + 1;
      validated := Retain(validated, published);
    }

    /** `remember`. */
    method RememberVerified(token: Token, v: Verified, now: nat)
      modifies this`validated
      ensures Value() == Remember(old(Value()), token, v, now)
      ensures if Keeps(old(Value()), v, now) then Lookup(Value(), token, now) == Some(v.principal)
              else validated == old(validated)
    {
      hide Alive, Min, Lookup, Keeps;
      RememberAnswers(Value(), token, v, now);
      var ttl := Min(if v.exp > now then v.exp - now else 0, VALIDATED_TTL);
      if ttl == 0 { return; }
      if v.generation != generation { return; }
      if |validated| >= VALIDATED_CAPACITY {
        validated := Alive(validated, now);
        if |validated| >= VALIDATED_CAPACITY { validated := map[]; }
      }
      validated := validated[token := Validated(v.principal, now + ttl, v.kid, v.fingerprint)];
    }
  }

  /** `retain` over the cache, entry by entry. */
  method Retain(validated: map<Token, Validated>, keys: Keys) returns (kept: map<Token, Validated>)
    ensures kept == Current(validated, keys)
  {
    kept := map[];
    var left := validated.Keys;
    while left != {}
      invariant left <= validated.Keys
      invariant kept == map t | t in Current(validated, keys) && t !in left :: validated[t]
      decreases left
    {
      var t :| t in left;
      left := left - {t};
      var entry := validated[t];
      if entry.kid in keys && keys[entry.kid] == entry.fingerprint { kept := kept[t := entry]; }
    }
  }

  // ---- Admission of published keys -------------------------------------------------------

  /** One entry of a JWKS document: its key id if any, and the fingerprint if
      it is an RS256 signing key whose parameters parse. */
  datatype Jwk = Jwk(kid: Option<Kid>, usable: Option<Fingerprint>)

  /** The materials offered under a key id by usable entries, in document order. */
  function Offered(jwks: seq<Jwk>, kid: Kid): seq<Fingerprint> {
    if jwks == [] then []
    else
      var n := |jwks| - 1;
      Offered(jwks[..n], kid) +
        if jwks[n].kid == Some(kid) && jwks[n].usable.Some? then [jwks[n].usable.value] else []
  }

  lemma OfferedNext(jwks: seq<Jwk>, n: nat, kid: Kid)
    requires n < |jwks|
    ensures Offered(jwks[..n + 1], kid) == Offered(jwks[..n], kid) +
      if jwks[n].kid == Some(kid) && jwks[n].usable.Some? then [jwks[n].usable.value] else []
  {
    assert jwks[..n + 1][..n] == jwks[..n];
  }

  /** What the admission loop knows about one key id: the material seen last
      under it, and whether it was seen more than once. */
  predicate Tracked(offers: seq<Fingerprint>, keys: Keys, ambiguous: set<Kid>, kid: Kid) {
    && (kid in keys <==> |offers| >= 1) && (kid in ambiguous <==> |offers| >= 2)
    && (kid in keys ==> keys[kid] == offers[|offers| - 1])
  }

  ghost predicate AllTracked(jwks: seq<Jwk>, keys: Keys, ambiguous: set<Kid>) {
    forall kid :: Tracked(Offered(jwks, kid), keys, ambiguous, kid)
  }

  lemma TrackNext(jwks: seq<Jwk>, n: nat, keys: Keys, ambiguous: set<Kid>)
    requires n < |jwks| && AllTracked(jwks[..n], keys, ambiguous)
    ensures jwks[n].kid.None? || jwks[n].usable.None? ==> AllTracked(jwks[..n + 1], keys, ambiguous)
    ensures jwks[n].kid.Some? && jwks[n].usable.Some? ==>
      var kid := jwks[n].kid.value;
      AllTracked(jwks[..n + 1], keys[kid := jwks[n].usable.value], if kid in keys then ambiguous + {kid} else ambiguous)
  {
    forall kid ensures Tracked(Offered(jwks[..n], kid), keys, ambiguous, kid)
      ensures Offered(jwks[..n + 1], kid) == Offered(jwks[..n], kid) +
        if jwks[n].kid == Some(kid) && jwks[n].usable.Some? then [jwks[n].usable.value] else []
    {
      OfferedNext(jwks, n, kid);
    }
    hide Offered;
  }

  /** `admit_keys`: a key id is admitted exactly when one usable entry offers
      it, with that entry's material; a shared key id is dropped altogether. */
  method AdmitKeys(jwks: seq<Jwk>) returns (keys: Keys)
    ensures forall kid :: kid in keys <==> |Offered(jwks, kid)| == 1
    ensures forall kid :: kid in keys ==> Offered(jwks, kid) == [keys[kid]]
  {
    keys := map[];
    var ambiguous: set<Kid> := {};
    for n := 0 to |jwks|
      invariant AllTracked(jwks[..n], keys, ambiguous)
    {
      hide AllTracked;
      TrackNext(jwks, n, keys, ambiguous);
      var jwk := jwks[n];
      if jwk.kid.Some? && jwk.usable.Some? {
        if jwk.kid.value in keys { ambiguous := ambiguous + {jwk.kid.value}; }
        keys := keys[jwk.kid.value := jwk.usable.value];
      }
    }
    assert jwks[..|jwks|] == jwks;
    hide Offered;
    assert forall kid :: Tracked(Offered(jwks, kid), keys, ambiguous, kid);
    keys := keys - ambiguous;
  }

  // ---- Interleaved requests and refreshes --------------------------------------------------

  /** A request between its atomic steps. */
  datatype Request =
    | Snapped(token: Token, kid: Kid, keys: Keys, generation: nat)
    | Checked(token: Token, verified: Verified)

  /** Where a cached entry came from: the token's expiry and when its clock was read. */
  datatype Origin = Origin(exp: nat, at: nat)

  datatype System = System(cache: Cache, now: nat, requests: map<nat, Request>, origins: map<Token, Origin>)

  datatype Step =
    | Snapshot(id: nat, token: Token, kid: Kid)
    | Verify(id: nat)
    | Finish(id: nat, clock: nat)
    | Refresh(keys: Keys)
    | Clear
    | Wait(seconds: nat)

  function Next(decode: Decode, s: System, step: Step): System {
    match step
    case Snapshot(id, token, kid) =>
      s.(requests := s.requests[id := Snapped(token, kid, s.cache.keys, s.cache.generation)])
    case Verify(id) =>
      if id !in s.requests || !s.requests[id].Snapped? then s
      else
        var r := s.requests[id];
        if r.kid !in r.keys then s.(requests := s.requests - {id})
        else
          (match decode(r.token, r.keys[r.kid])
           case None => s.(requests := s.requests - {id})
           case Some((principal, exp)) =>
             var verified := Verified(principal, exp, r.kid, r.keys[r.kid], r.generation);
             s.(requests := s.requests[id := Checked(r.token, verified)]))
    case Finish(id, clock) =>
      if id !in s.requests || !s.requests[id].Checked? then s
      else
        var Checked(token, v) := s.requests[id];
        var at := Min(clock, s.now);
        var cache := Remember(s.cache, token, v, at);
        s.(cache := cache, requests := s.requests - {id},
           origins := if cache == s.cache then s.origins else s.origins[token := Origin(v.exp, at)])
    case Refresh(keys) => s.(cache := Install(s.cache, keys))
    case Clear => s.(cache := s.cache.(validated := map[]))
    case Wait(seconds) => s.(now := s.now + seconds)
  }

  const INITIAL: System := System(Cache(map[], 0, map[]), 0, map[], map[])

  function Run(decode: Decode, steps: seq<Step>): System {
    if steps == [] then INITIAL else Next(decode, Run(decode, steps[..|steps| - 1]), steps[|steps| - 1])
  }

  /** An entry names a key that is installed now with the same material, holds
      what that key makes of the token, and dies no later than the token and no
      later than five minutes after its clock reading. */
  ghost predicate EntryOk(decode: Decode, s: System, t: Token) {
    t in s.cache.validated && t in s.origins &&
    var e := s.cache.validated[t]; var o := s.origins[t];
    && e.kid in s.cache.keys && s.cache.keys[e.kid] == e.fingerprint
    && decode(t, e.fingerprint) == Some((e.principal, o.exp))
    && e.expiresAt == Min(o.exp, o.at + VALIDATED_TTL) && o.at <= s.now
  }

  /** A request whose generation is current saw the keys now installed. */
  ghost predicate RequestOk(decode: Decode, c: Cache, r: Request) {
    match r
    case Snapped(_, _, keys, generation) =>
      generation <= c.generation && (generation == c.generation ==> keys == c.keys)
    case Checked(token, v) =>
      && v.generation <= c.generation && decode(token, v.fingerprint) == Some((v.principal, v.exp))
      && (v.generation == c.generation ==> v.kid in c.keys && c.keys[v.kid] == v.fingerprint)
  }

  ghost predicate Inv(decode: Decode, s: System) {
    && |s.cache.validated| <= VALIDATED_CAPACITY
    && (forall t :: t in s.cache.validated ==> EntryOk(decode, s, t))
    && (forall id :: id in s.requests ==> RequestOk(decode, s.cache, s.requests[id]))
  }

  lemma CurrentFits(validated: map<Token, Validated>, keys: Keys)
    ensures |Current(validated, keys)| <= |validated|
  {
    var kept := Current(validated, keys);
    assert kept.Keys <= validated.Keys;
    SubsetFits(kept.Keys, validated.Keys);
  }

  lemma {:induction false} SubsetFits<T>(a: set<T>, b: set<T>)
    requires a <= b
    ensures |a| <= |b|
  {
    assert b == a + (b - a);
  }

  lemma RefreshKeeps(decode: Decode, s: System, keys: Keys)
    requires Inv(decode, s)
    ensures Inv(decode, Next(decode, s, Refresh(keys)))
  {
    var s' := Next(decode, s, Refresh(keys));
    CurrentFits(s.cache.validated, keys);
    forall t | t in s'.cache.validated ensures EntryOk(decode, s', t) {
      assert EntryOk(decode, s, t);
    }
  }

  lemma VerifyKeeps(decode: Decode, s: System, id: nat)
    requires Inv(decode, s)
    ensures Inv(decode, Next(decode, s, Verify(id)))
  {
    var s' := Next(decode, s, Verify(id));
    forall t | t in s'.cache.validated ensures EntryOk(decode, s', t) {
      assert EntryOk(decode, s, t);
    }
    if id in s.requests { assert RequestOk(decode, s.cache, s.requests[id]); }
  }

  /** What `Remember` leaves: entries that were there, and the new one if it may be kept. */
  lemma RememberLeaves(c: Cache, token: Token, v: Verified, now: nat)
    ensures var c' := Remember(c, token, v, now);
      && c'.keys == c.keys && c'.generation == c.generation
      && (|c.validated| <= VALIDATED_CAPACITY ==> |c'.validated| <= VALIDATED_CAPACITY)
      && (forall t :: t in c'.validated && t != token ==> t in c.validated && c'.validated[t] == c.validated[t])
      && (c' != c ==>
           v.generation == c.generation &&
           c'.validated[token] == Validated(v.principal, Min(v.exp, now + VALIDATED_TTL), v.kid, v.fingerprint))
  {
    hide Alive;
  }

  lemma FinishEntry(decode: Decode, s: System, id: nat, clock: nat, t: Token)
    requires Inv(decode, s) && id in s.requests && s.requests[id].Checked?
    requires t in Next(decode, s, Finish(id, clock)).cache.validated
    ensures EntryOk(decode, Next(decode, s, Finish(id, clock)), t)
  {
    var Checked(token, v) := s.requests[id];
    RememberLeaves(s.cache, token, v, Min(clock, s.now));
    hide Remember;
    assert RequestOk(decode, s.cache, s.requests[id]);
    if t in s.cache.validated { assert EntryOk(decode, s, t); }
  }

  lemma FinishKeeps(decode: Decode, s: System, id: nat, clock: nat)
    requires Inv(decode, s)
    ensures Inv(decode, Next(decode, s, Finish(id, clock)))
  {
    if id in s.requests && s.requests[id].Checked? {
      var s' := Next(decode, s, Finish(id, clock));
      RememberLeaves(s.cache, s.requests[id].token, s.requests[id].verified, Min(clock, s.now));
      hide Remember, EntryOk;
      forall t | t in s'.cache.validated ensures EntryOk(decode, s', t) {
        FinishEntry(decode, s, id, clock, t);
      }
    }
  }

  /** Every interleaved step keeps the cache safe. */
  lemma StepKeeps(decode: Decode, s: System, step: Step)
    requires Inv(decode, s)
    ensures Inv(decode, Next(decode, s, step))
  {
    if step.Verify? {
      VerifyKeeps(decode, s, step.id);
    } else if step.Finish? {
      FinishKeeps(decode, s, step.id, step.clock);
    } else if step.Refresh? {
      RefreshKeeps(decode, s, step.keys);
    } else {
      var s' := Next(decode, s, step);
      forall t | t in s'.cache.validated ensures EntryOk(decode, s', t) {
        assert EntryOk(decode, s, t);
      }
    }
  }

  lemma {:induction false} RunKeeps(decode: Decode, steps: seq<Step>)
    ensures Inv(decode, Run(decode, steps))
  {
    if steps != [] {
      RunKeeps(decode, steps[..|steps| - 1]);
      StepKeeps(decode, Run(decode, steps[..|steps| - 1]), steps[|steps| - 1]);
    }
  }

  /** A request that validates a token while nothing else happens leaves its answer
      in the cache: the snapshot holds the installed keys and their generation, the
      verification uses the key it names, and the result is remembered. */
  lemma ValidationIsCached(decode: Decode, s: System, id: nat, token: Token, kid: Kid)
    requires kid in s.cache.keys && decode(token, s.cache.keys[kid]).Some?
    requires decode(token, s.cache.keys[kid]).value.1 > s.now
    ensures var s1 := Next(decode, s, Snapshot(id, token, kid));
      var s2 := Next(decode, s1, Verify(id));
      var s3 := Next(decode, s2, Finish(id, s.now));
      Lookup(s3.cache, token, s3.now) == Some(decode(token, s.cache.keys[kid]).value.0)
  {
    hide Remember, Lookup;
    var (principal, exp) := decode(token, s.cache.keys[kid]).value;
    var v := Verified(principal, exp, kid, s.cache.keys[kid], s.cache.generation);
    RememberedIsAnswered(s.cache, token, v, s.now, s.now);
  }

  /** Keys that are installed take effect at once: a token one of them accepts is
      validated and answered from the cache. */
  lemma NewKeysValidate(decode: Decode, s: System, keys: Keys, id: nat, token: Token, kid: Kid)
    requires kid in keys && decode(token, keys[kid]).Some? && decode(token, keys[kid]).value.1 > s.now
    ensures var s1 := Next(decode, Next(decode, s, Refresh(keys)), Snapshot(id, token, kid));
      var s2 := Next(decode, Next(decode, s1, Verify(id)), Finish(id, s.now));
      Lookup(s2.cache, token, s2.now) == Some(decode(token, keys[kid]).value.0)
  {
    hide Remember, Lookup, Current;
    ValidationIsCached(decode, Next(decode, s, Refresh(keys)), id, token, kid);
  }

  /** A request under a key that is not installed, or whose key refuses the token,
      caches nothing; and clearing forgets every answer. */
  lemma NothingElseIsCached(decode: Decode, s: System, id: nat, token: Token, kid: Kid, at: nat)
    ensures kid !in s.cache.keys || decode(token, s.cache.keys[kid]).None? ==>
      var s2 := Next(decode, Next(decode, s, Snapshot(id, token, kid)), Verify(id));
      s2.cache == s.cache && id !in s2.requests
    ensures Lookup(Next(decode, s, Clear).cache, token, at) == None
  {
  }

  /** Key `kid`, installed now, gives `principal` for `token`, and the clock is
      within the token's life and five minutes of the validation. */
  ghost predicate Justified(decode: Decode, s: System, token: Token, principal: Principal, kid: Kid, origin: Origin) {
    && kid in s.cache.keys && decode(token, s.cache.keys[kid]) == Some((principal, origin.exp))
    && origin.at <= s.now < Min(origin.exp, origin.at + VALIDATED_TTL)
  }

  /** Rotation-safe: after any interleaving, an answer from the cache is the
      one some currently installed key gives for that very token, before the
      token expires and within five minutes of the validation it came from;
      and the cache holds at most 4096 entries. */
  lemma CachedAnswersAreCurrent(decode: Decode, steps: seq<Step>, token: Token)
    ensures var s := Run(decode, steps); var answer := Lookup(s.cache, token, s.now);
      |s.cache.validated| <= VALIDATED_CAPACITY &&
      (answer.Some? ==> exists kid, origin :: Justified(decode, s, token, answer.value, kid, origin))
  {
    RunKeeps(decode, steps);
    var s := Run(decode, steps);
    if Lookup(s.cache, token, s.now).Some? {
      assert EntryOk(decode, s, token);
      var e, o := s.cache.validated[token], s.origins[token];
      assert Justified(decode, s, token, e.principal, e.kid, o);
    }
  }
}
