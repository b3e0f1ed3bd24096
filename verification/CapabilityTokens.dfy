/** Capability tokens: issue with a five-minute cap, verification, and acceptance at most once. */
module CapabilityTokens {
  import opened Wrappers
  import opened ReplayGuard

  const MAX_TTL := 300

  datatype Token = Token(jti: string, exp: int, tenant: string)

  /** What a client presents: a token the signature check accepts, or anything else. */
  datatype Presented = Genuine(token: Token) | Forged

  datatype Verdict = Payload(token: Token) | Expired | Invalid | Replayed

  /** One verification with its three clock readings: the decoder's, the ttl computation's and the guard's. */
  datatype Visit = Visit(presented: Presented, decodedAt: real, ttlAt: real, guardAt: real) {
    function Ttl(): int
      requires presented.Genuine?
    {
      presented.token.exp - ttlAt.Floor
    }

    function AsCall(): GuardCall
      requires presented.Genuine?
    {
      GuardCall(guardAt, presented.token.jti, Ttl())
    }

    /** The visit reaches the guard: the signature is good and neither expiry check fires. */
    predicate Unexpired() {
      presented.Genuine? && decodedAt < presented.token.exp as real && Ttl() > 0
    }
  }

  function Issue(now: real, jti: string, ttl: int, tenant: string): Option<Token> {
    if ttl > MAX_TTL then None else Some(Token(jti, now.Floor + ttl, tenant))
  }

  function Verify(storage: map<string, real>, v: Visit): (Verdict, map<string, real>) {
    if v.presented.Forged? then (Invalid, storage)
    else if v.presented.token.exp as real <= v.decodedAt then (Expired, storage)
    else if v.Ttl() <= 0 then (Expired, storage)
    else
      var (accepted, storage') := Check(storage, v.AsCall());
      (if accepted then Payload(v.presented.token) else Replayed, storage')
  }

  method VerifyCapabilityTokenRaw(guard: InMemoryReplayGuard, v: Visit) returns (verdict: Verdict)
    modifies guard
    ensures (verdict, guard.storage) == Verify(old(guard.storage), v)
  {
    if v.presented.Forged? {
      return Invalid;
    }
    if v.presented.token.exp as real <= v.decodedAt {
      return Expired;
    }
    var ttl := v.presented.token.exp - v.ttlAt.Floor;
    if ttl <= 0 {
      return Expired;
    }
    var accepted := guard.CheckAndSet(GuardCall(v.guardAt, v.presented.token.jti, ttl));
    if !accepted {
      return Replayed;
    }
    return Payload(v.presented.token);
  }

  /** The wrapper adds the tenant check, after the guard has already spoken. */
  function VerifyForTenant(storage: map<string, real>, v: Visit, tenant: string): (bool, map<string, real>) {
    var (verdict, storage') := Verify(storage, v);
    (verdict.Payload? && verdict.token.tenant == tenant, storage')
  }

  /** The guard's storage after a run of verifications. */
  function StorageAfter(visits: seq<Visit>): map<string, real> {
    if visits == [] then map[]
    else Verify(StorageAfter(visits[..|visits| - 1]), visits[|visits| - 1]).1
  }

  /** One clock that never runs backwards, within a verification and from one to the next. */
  ghost predicate Clocked(visits: seq<Visit>) {
    && (forall i :: 0 <= i < |visits| ==> visits[i].decodedAt <= visits[i].ttlAt <= visits[i].guardAt)
    && (forall i, j :: 0 <= i < j < |visits| ==> visits[i].guardAt <= visits[j].decodedAt)
  }

  /** Visit `i` of the run is answered with the token's payload. */
  ghost predicate AcceptedAt(visits: seq<Visit>, i: nat) {
    i < |visits| && Verify(StorageAfter(visits[..i]), visits[i]).0.Payload?
  }

  /** From time `now` on the storage blocks `jti` exactly until `expiry`. */
  ghost predicate BlocksUntil(storage: map<string, real>, jti: string, expiry: real, now: real) {
    if expiry > now then jti in storage && storage[jti] == expiry
    else jti in storage ==> storage[jti] <= now
  }

  lemma VisitKeepsBlock(storage: map<string, real>, v: Visit, jti: string, expiry: real)
    requires BlocksUntil(storage, jti, expiry, v.guardAt)
    requires v.presented.Genuine? && v.presented.token.jti == jti ==> !Verify(storage, v).0.Payload?
    ensures BlocksUntil(Verify(storage, v).1, jti, expiry, v.guardAt)
  {
  }

  /** After an acceptance the id stays blocked until the stored expiry, as long as it is not accepted again. */
  lemma {:induction false} BlockLasts(visits: seq<Visit>, i: nat, k: nat)
    requires Clocked(visits) && i < k <= |visits| && AcceptedAt(visits, i)
    requires forall j :: i < j < k && visits[j].presented.Genuine? && visits[j].presented.token.jti == visits[i].presented.token.jti
               ==> !AcceptedAt(visits, j)
    ensures BlocksUntil(StorageAfter(visits[..k]), visits[i].presented.token.jti, visits[i].AsCall().Expiry(), visits[k - 1].guardAt)
  {
    assert visits[..k][..k - 1] == visits[..k - 1];
    if k > i + 1 {
      BlockLasts(visits, i, k - 1);
      VisitKeepsBlock(StorageAfter(visits[..k - 1]), visits[k - 1], visits[i].presented.token.jti, visits[i].AsCall().Expiry());
    }
  }

  /**
   * Exactly when a replay gets through: a later visit with the same id that passes the signature
   * and expiry checks is accepted if and only if the guard reads its clock at or after the stored expiry.
   */
  lemma ReplayAcceptedIffGuardReadsLate(visits: seq<Visit>, i: nat, k: nat)
    requires Clocked(visits) && i < k < |visits| && AcceptedAt(visits, i)
    requires visits[k].Unexpired() && visits[k].presented.token.jti == visits[i].presented.token.jti
    requires forall j :: i < j < k && visits[j].presented.Genuine? && visits[j].presented.token.jti == visits[i].presented.token.jti
               ==> !AcceptedAt(visits, j)
    ensures AcceptedAt(visits, k) <==>
            visits[k].guardAt >= visits[i].guardAt + visits[i].Ttl() as real
  {
    BlockLasts(visits, i, k);
    assert visits[k - 1].guardAt <= visits[k].guardAt;
  }

  /** What the guard stores never ends before the token itself does. */
  lemma StoredExpiryCoversToken(v: Visit)
    requires v.presented.Genuine? && v.ttlAt <= v.guardAt
    ensures v.AsCall().Expiry() >= v.presented.token.exp as real
  {
  }

  lemma {:induction false} FirstReacceptance(visits: seq<Visit>, i: nat, j: nat) returns (k: nat)
    requires i < j < |visits| && AcceptedAt(visits, i) && AcceptedAt(visits, j)
    requires visits[j].presented.token.jti == visits[i].presented.token.jti
    ensures i < k <= j && AcceptedAt(visits, k) && visits[k].presented.token.jti == visits[i].presented.token.jti
    ensures forall m :: i < m < k && visits[m].presented.Genuine? && visits[m].presented.token.jti == visits[i].presented.token.jti
              ==> !AcceptedAt(visits, m)
    decreases j
  {
    k := j;
    if m :| i < m < j && visits[m].presented.Genuine? && visits[m].presented.token.jti == visits[i].presented.token.jti && AcceptedAt(visits, m) {
      k := FirstReacceptance(visits, i, m);
    }
  }

  /**
   * A token is accepted at most once over any run whose clock never runs backwards and does not
   * cross the token's `exp` between the ttl reading and the guard's reading.
   */
  lemma AcceptedAtMostOnce(visits: seq<Visit>, i: nat, j: nat)
    requires Clocked(visits) && i < j < |visits|
    requires visits[i].presented.Genuine? && visits[j].presented == visits[i].presented
    requires visits[j].ttlAt < visits[j].presented.token.exp as real ==> visits[j].guardAt < visits[j].presented.token.exp as real
    ensures !(AcceptedAt(visits, i) && AcceptedAt(visits, j))
  {
    if AcceptedAt(visits, i) && AcceptedAt(visits, j) {
      var k := FirstReacceptance(visits, i, j);
      assert visits[k].guardAt <= visits[j].guardAt;
      StoredExpiryCoversToken(visits[i]);
      ReplayAcceptedIffGuardReadsLate(visits, i, k);
    }
  }

  /** The clause on the clock is needed: here it crosses `exp` inside the second verification, and the token is accepted twice. */
  lemma CrossingExpiryReplays() returns (visits: seq<Visit>)
    ensures Clocked(visits) && |visits| == 2 && visits[0].presented == visits[1].presented
    ensures AcceptedAt(visits, 0) && AcceptedAt(visits, 1)
  {
    var token := Genuine(Token("id", 10, "tenant"));
    visits := [Visit(token, 0.0, 0.0, 0.0), Visit(token, 9.5, 9.5, 10.0)];
    assert visits[..0] == [];
    assert visits[..1] == [visits[0]];
    assert visits[..1][..0] == [];
    assert (0.0 as real).Floor == 0 && (9.5 as real).Floor == 9;
    assert AcceptedAt(visits, 0);
    assert StorageAfter(visits[..1]) == map["id" := 10.0];
    assert AcceptedAt(visits, 1);
  }

  /** An issued token is accepted only less than five minutes after it was issued. */
  lemma IssuedTokenLifetime(now: real, jti: string, ttl: int, tenant: string, storage: map<string, real>, v: Visit)
    requires Issue(now, jti, ttl, tenant).Some?
    requires v.presented == Genuine(Issue(now, jti, ttl, tenant).value)
    requires Verify(storage, v).0.Payload?
    ensures v.decodedAt < now + MAX_TTL as real && v.ttlAt < now + MAX_TTL as real
  {
  }

  /** Presenting a token under the wrong tenant uses it up: the right tenant is then refused until the token is over. */
  lemma WrongTenantSpendsToken(storage: map<string, real>, first: Visit, second: Visit, wrong: string)
    requires Clocked([first, second])
    requires first.presented.Genuine? && second.presented == first.presented && first.presented.token.tenant != wrong
    requires Verify(storage, first).0.Payload?
    requires second.guardAt < second.presented.token.exp as real
    ensures var (answer, storage') := VerifyForTenant(storage, first, wrong);
      !answer && !VerifyForTenant(storage', second, second.presented.token.tenant).0
  {
    assert [first, second][0] == first && [first, second][1] == second;
    StoredExpiryCoversToken(first);
  }

  /** The verdict, case by case: forged, over for the decoder or for the ttl, still blocked in the guard's storage, or the payload. */
  lemma VerdictIs(storage: map<string, real>, v: Visit)
    ensures Verify(storage, v).0 ==
      match v.presented
      case Forged => Invalid
      case Genuine(token) =>
        if token.exp as real <= v.decodedAt || token.exp <= v.ttlAt.Floor then Expired
        else if token.jti in storage && storage[token.jti] > v.guardAt then Replayed
        else Payload(token)
  {
  }

  /** An issued token carries what it was asked for, for the whole seconds from now to its expiry, and more than five minutes are refused. */
  lemma IssuedAsAsked(now: real, jti: string, ttl: int, tenant: string)
    ensures Issue(now, jti, ttl, tenant).None? <==> ttl > 300
    ensures var token := Issue(now, jti, ttl, tenant);
      token.Some? ==>
        && token.value.jti == jti && token.value.tenant == tenant
        && token.value.exp as real - now <= ttl as real < token.value.exp as real - now + 1.0
  {
  }

  /** An issued token that is presented to its tenant before it is over, and for the first time, is valid there and nowhere else. */
  lemma IssuedIsValid(now: real, jti: string, ttl: int, tenant: string, storage: map<string, real>, v: Visit, asked: string)
    requires Issue(now, jti, ttl, tenant).Some? && v.presented == Genuine(Issue(now, jti, ttl, tenant).value)
    requires v.Unexpired() && jti !in storage
    ensures VerifyForTenant(storage, v, asked).0 <==> asked == tenant
  {
    VerdictIs(storage, v);
  }
}
