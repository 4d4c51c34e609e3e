/** internal/models/password_reset.go and internal/repository/password_reset.go:
    the `password_resets` collection. */
module ResetStore {
  import opened Wrappers
  import opened Store
  import Collections

  /** One reset request: `token` is the signed reset token, `tokenHash` the value
      a completion looks the record up by. */
  datatype PasswordReset = PasswordReset(
    id: ObjectId,
    email: string,
    userType: string,
    token: string,
    tokenHash: string,
    used: bool,
    createdAt: nat,
    expiresAt: nat,
    usedAt: Option<nat>)

  function IdOf(r: PasswordReset): ObjectId {
    r.id
  }

  /** The filter of `GetByToken`: this hash, not used, expiry strictly after `now`. */
  predicate Redeemable(r: PasswordReset, tokenHash: string, now: nat) {
    r.tokenHash == tokenHash && !r.used && r.expiresAt > now
  }

  /** `Create`: a fresh id, `createdAt = now` and `used = false`, whatever the input says. */
  function Create(s: seq<PasswordReset>, reset: PasswordReset, freshId: ObjectId, now: nat, faults: set<Call>)
    : (r: Result<seq<PasswordReset>, DbError>)
    ensures ResetCreate in faults ==> r == Failure(Transient)
    ensures ResetCreate !in faults ==> (r.Success? <==> forall k :: 0 <= k < |s| ==> s[k].id != freshId)
    ensures r.Success? ==>
      && |r.value| == |s| + 1 && r.value[..|s|] == s
      && var stored := r.value[|s|];
      && stored.id == freshId && stored.createdAt == now && !stored.used
      && stored.email == reset.email && stored.userType == reset.userType
      && stored.token == reset.token && stored.tokenHash == reset.tokenHash
      && stored.expiresAt == reset.expiresAt && stored.usedAt == reset.usedAt
    ensures r.Success? && UniqueIds(s, IdOf) ==> UniqueIds(r.value, IdOf)
  {
    if ResetCreate in faults then Failure(Transient)
    else
      var r :- Insert(s, IdOf, reset.(id := freshId, createdAt := now, used := false));
      assert r[..|s|] == s;
      Success(r)
  }

  /** `GetByToken`: the first redeemable record for `tokenHash`. */
  function GetByToken(s: seq<PasswordReset>, tokenHash: string, now: nat, faults: set<Call>)
    : (r: Result<PasswordReset, DbError>)
    ensures ResetByToken in faults ==> r == Failure(Transient)
    ensures ResetByToken !in faults ==>
      (r == Failure(NoDocuments) <==> forall k :: 0 <= k < |s| ==> !Redeemable(s[k], tokenHash, now))
    ensures r.Success? ==> r.value in s && Redeemable(r.value, tokenHash, now)
    ensures r.Failure? ==> r.error in {Transient, NoDocuments}
  {
    if ResetByToken in faults then Failure(Transient)
    else match Collections.IndexWhere(s, (x: PasswordReset) => Redeemable(x, tokenHash, now))
      case None => Failure(NoDocuments)
      case Some(k) => Success(s[k])
  }

  /** `MarkAsUsed`: the record with this id gets `used` and `usedAt = now`. */
  function MarkAsUsed(s: seq<PasswordReset>, id: ObjectId, now: nat, faults: set<Call>)
    : (r: Result<seq<PasswordReset>, DbError>)
    ensures ResetMarkUsed in faults <==> r.Failure?
    ensures r.Success? ==> |r.value| == |s|
    ensures r.Success? && UniqueIds(s, IdOf) ==>
      && UniqueIds(r.value, IdOf)
      && forall k :: 0 <= k < |s| ==>
           r.value[k] == (if s[k].id == id then s[k].(used := true, usedAt := Some(now)) else s[k])
  {
    if ResetMarkUsed in faults then Failure(Transient)
    else Success(Collections.UpdateFirst(s, (x: PasswordReset) => x.id == id,
                                         (x: PasswordReset) => x.(used := true, usedAt := Some(now))))
  }

  /** A record marked used is never handed out by `GetByToken` again. */
  lemma MarkAsUsedRetires(s: seq<PasswordReset>, id: ObjectId, used: nat, tokenHash: string, later: nat, faults: set<Call>)
    requires UniqueIds(s, IdOf)
    requires MarkAsUsed(s, id, used, faults).Success?
    ensures
      var g := GetByToken(MarkAsUsed(s, id, used, faults).value, tokenHash, later, faults);
      g.Success? ==> g.value.id != id
  {
    var s' := MarkAsUsed(s, id, used, faults).value;
    forall x | x in s' && x.id == id
      ensures x.used
    {
      var k :| 0 <= k < |s'| && s'[k] == x;
    }
  }

  /** Unused records of this user, the filter of `InvalidateAllForUser`. */
  predicate OpenFor(r: PasswordReset, email: string, userType: string) {
    r.email == email && r.userType == userType && !r.used
  }

  /** `InvalidateAllForUser`: marks every open record of the user as used, without
      `usedAt`; no other record changes. */
  function InvalidateAllForUser(s: seq<PasswordReset>, email: string, userType: string, faults: set<Call>)
    : (r: Result<seq<PasswordReset>, DbError>)
    ensures ResetInvalidateAll in faults <==> r.Failure?
    ensures r.Success? ==> |r.value| == |s|
    ensures r.Success? ==> forall k :: 0 <= k < |s| ==>
      r.value[k] == (if OpenFor(s[k], email, userType) then s[k].(used := true) else s[k])
  {
    if ResetInvalidateAll in faults then Failure(Transient)
    else Success(Collections.UpdateWhere(s, (x: PasswordReset) => OpenFor(x, email, userType),
                                         (x: PasswordReset) => x.(used := true)))
  }

  /** After invalidation no token of that user can be redeemed. */
  lemma InvalidateAllRetires(s: seq<PasswordReset>, email: string, userType: string, tokenHash: string, now: nat, faults: set<Call>)
    requires InvalidateAllForUser(s, email, userType, faults).Success?
    ensures
      var g := GetByToken(InvalidateAllForUser(s, email, userType, faults).value, tokenHash, now, faults);
      g.Success? ==> g.value.email != email || g.value.userType != userType
  {
    var s' := InvalidateAllForUser(s, email, userType, faults).value;
    forall x | x in s' && x.email == email && x.userType == userType
      ensures x.used
    {
      var k :| 0 <= k < |s'| && s'[k] == x;
    }
  }

  /** `DeleteExpired`: removes exactly the records whose expiry lies before `now`. */
  function DeleteExpired(s: seq<PasswordReset>, now: nat, faults: set<Call>) : (r: Result<seq<PasswordReset>, DbError>)
    ensures ResetDeleteExpired in faults <==> r.Failure?
    ensures r.Success? ==> forall x :: x in r.value <==> x in s && x.expiresAt >= now
  {
    if ResetDeleteExpired in faults then Failure(Transient)
    else Success(Collections.Filter(s, (x: PasswordReset) => x.expiresAt >= now))
  }

  /** A record expiring exactly at `now` survives the clean-up but cannot be redeemed:
      the two filters leave a one-instant gap. */
  lemma ExpiryBoundary(s: seq<PasswordReset>, x: PasswordReset, now: nat, faults: set<Call>)
    requires x in s && x.expiresAt == now
    requires ResetDeleteExpired !in faults
    ensures x in DeleteExpired(s, now, faults).value
    ensures forall h :: !Redeemable(x, h, now)
  {
  }

  /** Clean-up never removes a record that could still be redeemed. */
  lemma DeleteExpiredKeepsRedeemable(s: seq<PasswordReset>, tokenHash: string, now: nat, faults: set<Call>)
    requires ResetDeleteExpired !in faults && ResetByToken !in faults
    ensures GetByToken(DeleteExpired(s, now, faults).value, tokenHash, now, faults).Success?
        <==> GetByToken(s, tokenHash, now, faults).Success?
  {
    var s' := DeleteExpired(s, now, faults).value;
    if GetByToken(s, tokenHash, now, faults).Success? {
      var x := GetByToken(s, tokenHash, now, faults).value;
      assert x in s';
      var k :| 0 <= k < |s'| && s'[k] == x;
    }
    if GetByToken(s', tokenHash, now, faults).Success? {
      var x := GetByToken(s', tokenHash, now, faults).value;
      var k :| 0 <= k < |s| && s[k] == x;
    }
  }
}
