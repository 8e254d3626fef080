// Token revocation in pkg/jwt/jwt.go.  Times are in nanoseconds.  Signing and parsing are the
// identity: a token string is its claims and whether its signature checks.  Redis keeps a key for
// exactly the time to live it is given.
module Tokens {
  import opened Wrappers

  const SECOND: int := 1_000_000_000

  datatype Claims = Claims(id: string, expiresAt: Option<int>, notBefore: int, wellFormed: bool)

  datatype Token = Token(claims: Claims, signed: bool)

  datatype Rejection = InvalidSignature | Expired | NotValidYet | InvalidClaims | Revoked

  // Dates in claims are whole seconds.
  function NumericDate(t: int): int {
    t / SECOND * SECOND
  }

  // A token of GenerateTokensWithTTL.
  function Minted(id: string, now: int, ttl: int): Token {
    Token(Claims(id, Some(NumericDate(now + ttl)), NumericDate(now), true), true)
  }

  // The blacklist: when each entry expires.
  type Blacklist = map<string, int>

  predicate IsRevoked(list: Blacklist, id: string, now: int) {
    id in list && now < list[id]
  }

  // ValidateToken: nothing when the token is accepted.
  function Validate(list: Blacklist, t: Token, now: int): Option<Rejection> {
    if !t.signed then Some(InvalidSignature)
    else if t.claims.expiresAt.Some? && now >= t.claims.expiresAt.value then Some(Expired)
    else if now < t.claims.notBefore then Some(NotValidYet)
    else if !t.claims.wellFormed then Some(InvalidClaims)
    else if IsRevoked(list, t.claims.id, now) then Some(Revoked)
    else None
  }

  // How long an entry for a token lives, when it is made at some time.
  function EntryEnd(t: Token, now: int): int {
    match t.claims.expiresAt
    case Some(expiry) => expiry
    case None => now + 24 * 3600 * SECOND
  }

  // RevokeToken on the blacklist.  The claims are read without verifying the token, and an entry of
  // the same ID is replaced; a token that has expired, by its claims, needs none.
  function Revoke(list: Blacklist, t: Token, now: int): Blacklist {
    if EntryEnd(t, now) <= now then list else list[t.claims.id := EntryEnd(t, now)]
  }

  class TokenService {
    var blacklist: Blacklist

    constructor ()
      ensures blacklist == map[]
    {
      blacklist := map[];
    }

    // RevokeToken; reached says whether Redis takes the write.
    method RevokeToken(t: Token, now: int, reached: bool) returns (ok: bool)
      modifies this
      ensures ok <==> reached || EntryEnd(t, now) <= now
      ensures blacklist == if reached then Revoke(old(blacklist), t, now) else old(blacklist)
    {
      var ttl := 24 * 3600 * SECOND;
      if t.claims.expiresAt.Some? {
        ttl := t.claims.expiresAt.value - now;
        if ttl <= 0 {
          return true;
        }
      }
      if !reached {
        return false;
      }
      blacklist := blacklist[t.claims.id := now + ttl];
      return true;
    }
  }

  // ----- When revocation is permanent -----

  datatype Revocation = Revocation(token: Token, at: int)

  function RevokeAll(list: Blacklist, rs: seq<Revocation>): Blacklist
    decreases |rs|
  {
    if rs == [] then list else RevokeAll(Revoke(list, rs[0].token, rs[0].at), rs[1..])
  }

  // The last of some revocations that writes an entry for an ID.
  function LastWrite(rs: seq<Revocation>, id: string): Option<Revocation> {
    if rs == [] then None
    else
      var r := rs[|rs| - 1];
      if r.token.claims.id == id && EntryEnd(r.token, r.at) > r.at then Some(r) else LastWrite(rs[..|rs| - 1], id)
  }

  lemma {:induction false} RevokeAllMore(list: Blacklist, rs: seq<Revocation>, r: Revocation)
    ensures RevokeAll(list, rs + [r]) == Revoke(RevokeAll(list, rs), r.token, r.at)
    decreases |rs|
  {
    if rs == [] {
      assert rs + [r] == [r] && [r][1..] == [];
      assert RevokeAll(Revoke(list, r.token, r.at), []) == Revoke(list, r.token, r.at);
    } else {
      assert (rs + [r])[0] == rs[0] && (rs + [r])[1..] == rs[1..] + [r];
      RevokeAllMore(Revoke(list, rs[0].token, rs[0].at), rs[1..], r);
    }
  }

  // The entry of an ID is that of its last revocation that writes one.
  lemma {:induction false} EntryIsLastWrite(list: Blacklist, rs: seq<Revocation>, id: string)
    ensures var later := RevokeAll(list, rs);
            match LastWrite(rs, id)
            case Some(r) => id in later && later[id] == EntryEnd(r.token, r.at)
            case None => (id in later <==> id in list) && (id in list ==> later[id] == list[id])
  {
    if rs != [] {
      var init, r := rs[..|rs| - 1], rs[|rs| - 1];
      EntryIsLastWrite(list, init, id);
      RevokeAllMore(list, init, r);
      assert rs == init + [r];
    }
  }

  // The token is rejected from some time on for ever.
  ghost predicate RejectedFrom(list: Blacklist, t: Token, from: int) {
    forall now :: from <= now ==> Validate(list, t, now).Some?
  }

  // A minted token stays rejected exactly when it has expired already or its entry lives as long as
  // it does.
  lemma RejectedExactly(list: Blacklist, id: string, minted: int, ttl: int, from: int)
    requires minted <= from
    ensures var t, end := Minted(id, minted, ttl), NumericDate(minted + ttl);
            RejectedFrom(list, t, from) <==> end <= from || (id in list && end <= list[id])
  {
    var t, end := Minted(id, minted, ttl), NumericDate(minted + ttl);
    if from < end && !(id in list && end <= list[id]) {
      var now := if id in list && list[id] > from then list[id] else from;
      assert Validate(list, t, now).None?;
    }
  }

  // A minted token that is revoked stays rejected, whatever is revoked after it, exactly when the
  // last revocation of its ID that writes an entry gives that entry the life of the token or more.
  lemma RevocationIsPermanent(
    list: Blacklist, id: string, minted: int, ttl: int, revoked: int, rs: seq<Revocation>, from: int)
    requires minted <= revoked <= from
    ensures var t, end := Minted(id, minted, ttl), NumericDate(minted + ttl);
            RejectedFrom(RevokeAll(Revoke(list, t, revoked), rs), t, from) <==>
              end <= from
              || (match LastWrite(rs, id)
                  case None => true
                  case Some(r) => end <= EntryEnd(r.token, r.at))
  {
    var t := Minted(id, minted, ttl);
    var after := Revoke(list, t, revoked);
    EntryIsLastWrite(after, rs, id);
    RejectedExactly(RevokeAll(after, rs), id, minted, ttl, from);
  }

  // The same for a single later revocation: it leaves the token rejected exactly when it is of
  // another ID, is of a token that has expired, or makes an entry that lives as long.
  lemma NextRevocationKeeps(list: Blacklist, id: string, minted: int, ttl: int, revoked: int, r: Revocation)
    requires minted <= revoked <= r.at < NumericDate(minted + ttl)
    ensures var t := Minted(id, minted, ttl);
            RejectedFrom(Revoke(Revoke(list, t, revoked), r.token, r.at), t, r.at) <==>
              || r.token.claims.id != id
              || EntryEnd(r.token, r.at) <= r.at
              || NumericDate(minted + ttl) <= EntryEnd(r.token, r.at)
  {
    var t := Minted(id, minted, ttl);
    RejectedExactly(Revoke(Revoke(list, t, revoked), r.token, r.at), id, minted, ttl, r.at);
  }

  // The input on which it fails: a second revocation of the same ID, of claims that expire a second
  // later.  The token is accepted again from then on.
  lemma EarlierExpiryReplacesEntry(list: Blacklist, id: string, minted: int, ttl: int, revoked: int, at: int, now: int)
    requires minted <= revoked <= at && at + SECOND <= now < NumericDate(minted + ttl)
    ensures var t := Minted(id, minted, ttl);
            var other := Token(Claims(id, Some(at + SECOND), minted, true), false);
            Validate(RevokeAll(Revoke(list, t, revoked), [Revocation(other, at)]), t, now) == None
  {
    var t := Minted(id, minted, ttl);
    var other := Token(Claims(id, Some(at + SECOND), minted, true), false);
    var r := Revocation(other, at);
    var list1 := Revoke(list, t, revoked);
    assert [r][1..] == [];
    assert RevokeAll(list1, [r]) == RevokeAll(Revoke(list1, other, at), []) == Revoke(list1, other, at);
  }

  // Tokens that share an ID share their expiry, as those that were minted do.
  ghost predicate IDsAreUnique(t: Token, rs: seq<Revocation>) {
    forall r :: r in rs && r.token.claims.id == t.claims.id ==> r.token.claims.expiresAt == t.claims.expiresAt
  }

  lemma {:induction false} LastWriteIsOne(rs: seq<Revocation>, id: string)
    ensures var r := LastWrite(rs, id); r.Some? ==> r.value in rs && r.value.token.claims.id == id
  {
    if rs != [] { LastWriteIsOne(rs[..|rs| - 1], id); }
  }

  // Among such tokens revocation is always permanent.
  lemma MintedStayRevoked(
    list: Blacklist, id: string, minted: int, ttl: int, revoked: int, rs: seq<Revocation>, now: int)
    requires minted <= revoked <= now
    requires IDsAreUnique(Minted(id, minted, ttl), rs)
    ensures var t := Minted(id, minted, ttl); Validate(RevokeAll(Revoke(list, t, revoked), rs), t, now).Some?
  {
    RevocationIsPermanent(list, id, minted, ttl, revoked, rs, revoked);
    LastWriteIsOne(rs, id);
  }

  // Revoking tokens with other IDs does not change what is answered for this one.
  lemma {:induction false} OthersAreUnaffected(list: Blacklist, t: Token, rs: seq<Revocation>, now: int)
    requires forall r :: r in rs ==> r.token.claims.id != t.claims.id
    ensures Validate(RevokeAll(list, rs), t, now) == Validate(list, t, now)
    decreases |rs|
  {
    if rs != [] {
      assert rs[0] in rs && forall r :: r in rs[1..] ==> r in rs;
      OthersAreUnaffected(Revoke(list, rs[0].token, rs[0].at), t, rs[1..], now);
    }
  }

  // A token is accepted exactly when its signature checks, it has not expired, has come into force,
  // its claims are in order and no entry of its ID lives.
  lemma AcceptedExactly(list: Blacklist, t: Token, now: int)
    ensures Validate(list, t, now) == None <==>
              && t.signed && t.claims.wellFormed && t.claims.notBefore <= now
              && (forall end :: t.claims.expiresAt == Some(end) ==> now < end)
              && !(t.claims.id in list && now < list[t.claims.id])
    ensures !t.signed ==> Validate(list, t, now) == Some(InvalidSignature)
    ensures Validate(list, t, now) == Some(Revoked) ==> t.claims.id in list && now < list[t.claims.id]
  {
    if t.claims.expiresAt.Some? { assert t.claims.expiresAt == Some(t.claims.expiresAt.value); }
  }

  // The dates of a minted token are the second it was minted in and the one it expires in.
  lemma MintedDates(id: string, minted: int, ttl: int)
    ensures var c := Minted(id, minted, ttl).claims;
            && c.id == id && c.wellFormed && Minted(id, minted, ttl).signed && c.expiresAt.Some?
            && c.notBefore <= minted < c.notBefore + 1_000_000_000 && c.notBefore % 1_000_000_000 == 0
            && c.expiresAt.value <= minted + ttl < c.expiresAt.value + 1_000_000_000
            && c.expiresAt.value % 1_000_000_000 == 0
  {
  }

  // Before it is revoked, a minted token is accepted exactly until the second it expires in.
  lemma MintedIsAcceptedExactly(id: string, minted: int, ttl: int, now: int)
    requires minted <= now
    ensures Validate(map[], Minted(id, minted, ttl), now) == None <==> now < NumericDate(minted + ttl)
  {
  }

  // A token without an expiry comes back a day after it was revoked.
  lemma WithoutExpiryOnlyADay(list: Blacklist, t: Token, revoked: int, now: int)
    requires t.signed && t.claims.wellFormed && t.claims.expiresAt.None? && t.claims.notBefore <= revoked <= now
    ensures Validate(Revoke(list, t, revoked), t, now).None? <==> now >= revoked + 24 * 3600 * SECOND
  {
  }
}
