/** The refresh-token revocation store: Redis keys that disappear when the token they block expires,
    shown to answer like a set that never forgets. */
module Revocations {
  import opened Prelude

  /** The keys and the instants they expire at. */
  type Entries = map<string, int>

  /** A key exists as long as its deadline has not come. */
  predicate Reported(entries: Entries, id: string, now: int) {
    id != "" && id in entries && now < entries[id]
  }

  /** Revoke: the remaining life is computed at readAt and the key is set, with it as TTL, at setAt.
      A token that is past its expiry gets no key at all. */
  function AfterRevoke(entries: Entries, id: string, expiresAt: int, readAt: int, setAt: int, w: Write): Entries {
    if id == "" || expiresAt - readAt <= 0 || w.Lost? then entries
    else entries[id := setAt + (expiresAt - readAt)]
  }

  predicate RevokeSucceeds(id: string, expiresAt: int, readAt: int, w: Write) {
    id == "" || expiresAt - readAt <= 0 || w.Applied?
  }

  class RevocationStore {
    var entries: Entries

    constructor ()
      ensures entries == map[]
    {
      entries := map[];
    }

    method Revoke(tokenID: string, expiresAt: int, readAt: int, setAt: int, w: Write) returns (ok: bool)
      modifies this
      ensures entries == AfterRevoke(old(entries), tokenID, expiresAt, readAt, setAt, w)
      ensures ok == RevokeSucceeds(tokenID, expiresAt, readAt, w)
    {
      if tokenID == "" { return true; }
      var ttl := expiresAt - readAt;
      if ttl <= 0 { return true; }
      if !w.Lost? { entries := entries[tokenID := setAt + ttl]; }
      return w.Applied?;
    }

    method IsRevoked(tokenID: string, now: int, fails: bool) returns (r: Option<bool>)
      ensures r == if tokenID != "" && fails then None else Some(Reported(entries, tokenID, now))
    {
      if tokenID == "" { return Some(false); }
      if fails { return None; }
      return Some(tokenID in entries && now < entries[tokenID]);
    }
  }

  // ---- against a set that never forgets ------------------------------------------------------

  datatype Revocation = Revocation(id: string, expiresAt: int, readAt: int, setAt: int, write: Write)

  function Replay(history: seq<Revocation>): Entries {
    if history == [] then map[]
    else
      var h := history[|history| - 1];
      AfterRevoke(Replay(history[..|history| - 1]), h.id, h.expiresAt, h.readAt, h.setAt, h.write)
  }

  /** Every token a revocation took effect for. */
  function EverRevoked(history: seq<Revocation>): set<string> {
    set h | h in history && !h.write.Lost? :: h.id
  }

  /** Every revocation of the token names its one expiry, and the clock has reached t. */
  ghost predicate Plausible(history: seq<Revocation>, id: string, expiresAt: int, t: int) {
    forall h :: h in history && h.id == id ==> h.expiresAt == expiresAt && h.readAt <= h.setAt <= t
  }

  lemma {:induction false} EntriesCoverRevoked(history: seq<Revocation>, id: string, expiresAt: int, t: int)
    requires id != "" && Plausible(history, id, expiresAt, t)
    ensures id in EverRevoked(history) && t < expiresAt ==> id in Replay(history) && expiresAt <= Replay(history)[id]
    ensures id !in EverRevoked(history) ==> id !in Replay(history)
  {
    if history != [] {
      var init, last := history[..|history| - 1], history[|history| - 1];
      assert history == init + [last];
      assert forall h :: h in history <==> h in init || h == last;
      EntriesCoverRevoked(init, id, expiresAt, t);
      assert EverRevoked(history) == EverRevoked(init) + (if last.write.Lost? then {} else {last.id});
    }
  }

  /** While a token is unexpired, the store reports it exactly when it was ever revoked. */
  lemma {:induction false} ExpiringAgreesWithForever(history: seq<Revocation>, id: string, expiresAt: int, t: int)
    requires id != "" && Plausible(history, id, expiresAt, t)
    ensures t < expiresAt && !Reported(Replay(history), id, t) <==> t < expiresAt && id !in EverRevoked(history)
  {
    EntriesCoverRevoked(history, id, expiresAt, t);
  }

  /** The store does forget: some revoked token is no longer reported once it has expired, so its
      answer must only be trusted for tokens that are unexpired at the moment of the lookup. */
  lemma {:induction false} ForgetsAfterExpiry(id: string, expiresAt: int, revokedAt: int)
    requires id != "" && revokedAt < expiresAt
    ensures var history := [Revocation(id, expiresAt, revokedAt, revokedAt, Applied)];
            && id in EverRevoked(history)
            && (forall t :: Reported(Replay(history), id, t) <==> t < expiresAt)
  {
    var h := Revocation(id, expiresAt, revokedAt, revokedAt, Applied);
    assert [h][..0] == [];
    assert Replay([h]) == AfterRevoke(Replay([]), id, expiresAt, revokedAt, revokedAt, Applied);
    assert h in [h];
  }
}
