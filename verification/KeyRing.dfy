/** The signing-key ring: a map of key entries that methods change in place, and three mirror fields
    that must stay those of the ACTIVE entry. */
module KeyRing {
  import opened Prelude
  import GoText

  datatype KeyState = ACTIVE | PASSIVE | RETIRED

  /** An RSA key pair with the ID derived from it. Keys are opaque; the pair comes from the PEM parser
      or the generator. */
  datatype KeyPair = KeyPair(privateKey: int, publicKey: int, keyID: string)

  datatype Entry = Entry(privateKey: int, publicKey: int, keyID: string, state: KeyState)

  datatype Mirror = Mirror(privateKey: Option<int>, publicKey: Option<int>, keyID: string)

  datatype Ring = Ring(keys: map<string, Entry>, mirror: Mirror)

  datatype SigningKey = SigningKey(keyId: string, publicKey: int)

  const NO_MIRROR: Mirror := Mirror(None, None, "")

  function MirrorOf(e: Entry): Mirror {
    Mirror(Some(e.privateKey), Some(e.publicKey), e.keyID)
  }

  function Demoted(keys: map<string, Entry>): map<string, Entry> {
    map k | k in keys :: if keys[k].state == ACTIVE then keys[k].(state := PASSIVE) else keys[k]
  }

  // ---- the operations on the ring as a value -------------------------------------------------------

  /** InitializeFromPEM and GenerateKeyPair: the new key becomes the one that signs. */
  function Install(r: Ring, pair: Option<KeyPair>): (Ring, bool) {
    match pair
    case None => (r, false)
    case Some(p) =>
      var e := Entry(p.privateKey, p.publicKey, p.keyID, ACTIVE);
      (Ring(Demoted(r.keys)[p.keyID := e], MirrorOf(e)), true)
  }

  function AddPassive(r: Ring, pair: Option<KeyPair>): (Ring, bool) {
    match pair
    case None => (r, false)
    case Some(p) => (r.(keys := r.keys[p.keyID := Entry(p.privateKey, p.publicKey, p.keyID, PASSIVE)]), true)
  }

  function Promote(r: Ring, keyID: string): (Ring, bool) {
    if keyID !in r.keys || r.keys[keyID].state != PASSIVE then (r, false)
    else
      var e := r.keys[keyID].(state := ACTIVE);
      (Ring(Demoted(r.keys)[keyID := e], MirrorOf(e)), true)
  }

  function Demote(r: Ring, keyID: string): (Ring, bool) {
    if keyID !in r.keys || r.keys[keyID].state != ACTIVE then (r, false)
    else
      var keys := r.keys[keyID := r.keys[keyID].(state := PASSIVE)];
      (Ring(keys, if r.mirror.keyID == keyID then NO_MIRROR else r.mirror), true)
  }

  function Retire(r: Ring, keyID: string): (Ring, bool) {
    if keyID !in r.keys || r.keys[keyID].state == ACTIVE then (r, false)
    else (r.(keys := r.keys - {keyID}), true)
  }

  /** The published list: every key that is ACTIVE or PASSIVE, by ascending ID. */
  ghost predicate IsListing(r: Ring, list: seq<SigningKey>) {
    && (forall i, j :: 0 <= i < j < |list| ==> GoText.Less(list[i].keyId, list[j].keyId))
    && (forall s :: s in list <==> IsPublished(r, s))
  }

  predicate IsPublished(r: Ring, s: SigningKey) {
    s.keyId in r.keys && r.keys[s.keyId].state != RETIRED && s.publicKey == r.keys[s.keyId].publicKey
  }

  lemma ListsThem(r: Ring, keyIDs: seq<string>, list: seq<SigningKey>)
    requires GoText.Ascending(keyIDs) && |list| == |keyIDs|
    requires forall k :: k in keyIDs <==> k in r.keys && r.keys[k].state != RETIRED
    requires forall i :: 0 <= i < |keyIDs| ==>
        keyIDs[i] in r.keys && list[i] == SigningKey(keyIDs[i], r.keys[keyIDs[i]].publicKey)
    ensures IsListing(r, list)
  {
    forall s ensures s in list <==> IsPublished(r, s) {
      if s in list { var i :| 0 <= i < |list| && list[i] == s; assert keyIDs[i] in keyIDs; }
      if IsPublished(r, s) {
        assert s.keyId in keyIDs;
        var i :| 0 <= i < |keyIDs| && keyIDs[i] == s.keyId;
        assert list[i] == s;
      }
    }
  }

  // ---- the invariant ---------------------------------------------------------------------------------

  predicate Active(r: Ring, k: string) {
    k in r.keys && r.keys[k].state == ACTIVE
  }

  ghost predicate Consistent(r: Ring) {
    && (forall k :: k in r.keys ==> r.keys[k].keyID == k && r.keys[k].state != RETIRED)
    && (forall k :: Active(r, k) ==> r.mirror == MirrorOf(r.keys[k]))
    && (r.mirror == NO_MIRROR || Active(r, r.mirror.keyID))
  }

  /** In a consistent ring at most one key is ACTIVE, and the mirror is that key's or empty. */
  lemma ConsistencyMeaning(r: Ring)
    requires Consistent(r)
    ensures forall k, l :: Active(r, k) && Active(r, l) ==> k == l
    ensures r.mirror == NO_MIRROR <==> forall k :: !Active(r, k)
    ensures forall k :: Active(r, k) <==> k in r.keys && r.mirror == MirrorOf(r.keys[k])
  {
    forall k, l | Active(r, k) && Active(r, l) ensures k == l {
      assert r.keys[k].keyID == k && r.keys[l].keyID == l;
    }
  }

  // ---- the key manager as it runs ----------------------------------------------------------------------

  class KeyEntry {
    const privateKey: int
    const publicKey: int
    const keyID: string
    var state: KeyState

    constructor (p: KeyPair, state: KeyState)
      ensures privateKey == p.privateKey && publicKey == p.publicKey && keyID == p.keyID && this.state == state
    {
      privateKey, publicKey, keyID, this.state := p.privateKey, p.publicKey, p.keyID, state;
    }

    function View(): Entry
      reads this
    {
      Entry(privateKey, publicKey, keyID, state)
    }
  }

  class KeyManager {
    var keys: map<string, KeyEntry>
    var privateKey: Option<int>
    var publicKey: Option<int>
    var keyID: string

    /** Every entry is its own object, stored under its own ID. */
    ghost predicate Valid()
      reads this, keys.Values
    {
      forall k :: k in keys ==> keys[k].keyID == k
    }

    ghost function View(): Ring
      reads this, keys.Values
    {
      Ring(map k | k in keys :: keys[k].View(), Mirror(privateKey, publicKey, keyID))
    }

    constructor ()
      ensures Valid() && View() == Ring(map[], NO_MIRROR)
    {
      keys := map[];
      privateKey, publicKey, keyID := None, None, "";
    }

    /** Demote any existing ACTIVE key, visiting the entries in no particular order. */
    method DemoteActive()
      requires Valid()
      modifies keys.Values
      ensures Valid() && View() == old(View()).(keys := Demoted(old(View()).keys))
    {
      var rest := keys.Keys;
      while rest != {}
        invariant rest <= keys.Keys
        invariant forall k :: k in keys ==>
          keys[k].state == if k !in rest && old(keys[k].state) == ACTIVE then PASSIVE else old(keys[k].state)
        decreases rest
      {
        var k :| k in rest;
        if keys[k].state == ACTIVE { keys[k].state := PASSIVE; }
        rest := rest - {k};
      }
    }

    /** InitializeFromPEM, given what the parser made of the PEM text. */
    method InitializeFromPEM(parsed: Option<KeyPair>) returns (ok: bool)
      requires Valid()
      modifies this, keys.Values
      ensures Valid() && (View(), ok) == Install(old(View()), parsed)
      ensures fresh(keys.Values - old(keys.Values))
    {
      if parsed.None? { return false; }
      Activate(parsed.value);
      return true;
    }

    method GenerateKeyPair(generated: Option<KeyPair>) returns (ok: bool)
      requires Valid()
      modifies this, keys.Values
      ensures Valid() && (View(), ok) == Install(old(View()), generated)
      ensures fresh(keys.Values - old(keys.Values))
    {
      if generated.None? { return false; }
      Activate(generated.value);
      return true;
    }

    /** Store an entry under its own ID. */
    method Put(entry: KeyEntry)
      requires Valid()
      modifies this`keys
      ensures Valid() && keys == old(keys)[entry.keyID := entry]
      ensures View() == old(View()).(keys := old(View()).keys[entry.keyID := entry.View()])
    {
      keys := keys[entry.keyID := entry];
      assert View().keys == old(View()).keys[entry.keyID := entry.View()];
    }

    /** Maintain the mirror fields. */
    method SetMirror(signing: Option<int>, verifying: Option<int>, id: string)
      requires Valid()
      modifies this`privateKey, this`publicKey, this`keyID
      ensures Valid() && View() == old(View()).(mirror := Mirror(signing, verifying, id))
    {
      privateKey, publicKey, keyID := signing, verifying, id;
      assert View().keys == old(View()).keys;
    }

    /** Demote the ACTIVE key, store the new one as ACTIVE and mirror it. */
    method Activate(pair: KeyPair)
      requires Valid()
      modifies this, keys.Values
      ensures Valid() && View() == Install(old(View()), Some(pair)).0
      ensures pair.keyID in keys && fresh(keys[pair.keyID]) && keys == old(keys)[pair.keyID := keys[pair.keyID]]
    {
      DemoteActive();
      var entry := new KeyEntry(pair, ACTIVE);
      assert View().keys == Demoted(old(View()).keys);
      Put(entry);
      SetMirror(Some(pair.privateKey), Some(pair.publicKey), pair.keyID);
    }

    method AddKeyPassive(generated: Option<KeyPair>) returns (ok: bool)
      requires Valid()
      modifies this`keys
      ensures Valid() && (View(), ok) == AddPassive(old(View()), generated)
      ensures fresh(keys.Values - old(keys.Values))
    {
      if generated.None? { return false; }
      var entry := new KeyEntry(generated.value, PASSIVE);
      assert View().keys == old(View()).keys;
      Put(entry);
      return true;
    }

    method PromoteKey(id: string) returns (ok: bool)
      requires Valid()
      modifies this, keys.Values
      ensures Valid() && keys == old(keys) && (View(), ok) == Promote(old(View()), id)
    {
      if id !in keys { return false; }
      var entry := keys[id];
      if entry.state != PASSIVE { return false; }
      DemoteActive();
      entry.state := ACTIVE;
      assert View().keys == Promote(old(View()), id).0.keys;
      SetMirror(Some(entry.privateKey), Some(entry.publicKey), entry.keyID);
      return true;
    }

    method DemoteKey(id: string) returns (ok: bool)
      requires Valid()
      modifies this, keys.Values
      ensures Valid() && keys == old(keys) && (View(), ok) == Demote(old(View()), id)
    {
      if id !in keys { return false; }
      var entry := keys[id];
      if entry.state != ACTIVE { return false; }
      entry.state := PASSIVE;
      assert View().keys == Demote(old(View()), id).0.keys;
      if keyID == id { SetMirror(None, None, ""); }
      return true;
    }

    method RetireKey(id: string) returns (ok: bool)
      requires Valid()
      modifies this`keys
      ensures Valid() && (View(), ok) == Retire(old(View()), id)
    {
      if id !in keys { return false; }
      if keys[id].state == ACTIVE { return false; }
      keys := keys - {id};
      assert View().keys == Retire(old(View()), id).0.keys;
      return true;
    }

    /** Collect the IDs, sort them, and build the answer in that order. */
    method ListSigningKeys() returns (list: seq<SigningKey>)
      requires Valid()
      ensures IsListing(View(), list)
    {
      var keyIDs: seq<string> := [];
      var rest := keys.Keys;
      while rest != {}
        invariant rest <= keys.Keys
        invariant forall k :: k in keyIDs <==> k in keys && k !in rest && keys[k].state != RETIRED
        invariant forall i, j :: 0 <= i < j < |keyIDs| ==> keyIDs[i] != keyIDs[j]
        decreases rest
      {
        var k :| k in rest;
        if keys[k].state == ACTIVE || keys[k].state == PASSIVE { keyIDs := keyIDs + [k]; }
        rest := rest - {k};
      }
      keyIDs := GoText.SortStrings(keyIDs);
      list := [];
      for i := 0 to |keyIDs|
        invariant |list| == i
        invariant forall j :: 0 <= j < i ==> list[j] == SigningKey(keyIDs[j], keys[keyIDs[j]].publicKey)
      {
        var entry := keys[keyIDs[i]];
        list := list + [SigningKey(entry.keyID, entry.publicKey)];
      }
      ListsThem(View(), keyIDs, list);
    }
  }

  // ---- runs --------------------------------------------------------------------------------------------

  datatype Event =
    | InstallKey(pair: Option<KeyPair>)
    | AddKey(pair: Option<KeyPair>)
    | PromoteKey(id: string)
    | DemoteKey(id: string)
    | RetireKey(id: string)

  function Perform(r: Ring, e: Event): (Ring, bool) {
    match e
    case InstallKey(pair) => Install(r, pair)
    case AddKey(pair) => AddPassive(r, pair)
    case PromoteKey(id) => Promote(r, id)
    case DemoteKey(id) => Demote(r, id)
    case RetireKey(id) => Retire(r, id)
  }

  // ---- what an operation does ----------------------------------------------------------------------------

  /** The other entries: all are kept, with their keys, and an ACTIVE one becomes PASSIVE. */
  ghost predicate OthersStandBack(r: Ring, next: Ring, id: string) {
    forall k :: k in r.keys && k != id ==>
      && k in next.keys && next.keys[k] == r.keys[k].(state := next.keys[k].state)
      && next.keys[k].state == if r.keys[k].state == ACTIVE then PASSIVE else r.keys[k].state
  }

  ghost predicate OthersStay(r: Ring, next: Ring, id: string) {
    forall k :: k != id ==> (k in next.keys <==> k in r.keys) && (k in r.keys ==> next.keys[k] == r.keys[k])
  }

  /** The key under this ID is the one ACTIVE key and the mirror is its own. */
  ghost predicate Signs(r: Ring, id: string, privateKey: int, publicKey: int) {
    && (forall k :: Active(r, k) <==> k == id)
    && id in r.keys && r.keys[id] == Entry(privateKey, publicKey, id, ACTIVE)
    && r.mirror == Mirror(Some(privateKey), Some(publicKey), id)
  }

  /** An installed key signs from then on, alone; every other key is kept. It fails exactly when there is no pair. */
  lemma InstalledKeySigns(r: Ring, pair: Option<KeyPair>)
    ensures Perform(r, InstallKey(pair)).1 <==> pair.Some?
    ensures pair.Some? ==>
              var next, p := Perform(r, InstallKey(pair)).0, pair.value;
              && Signs(next, p.keyID, p.privateKey, p.publicKey)
              && next.keys.Keys == r.keys.Keys + {p.keyID} && OthersStandBack(r, next, p.keyID)
  {
  }

  /** A promoted key signs from then on, alone. Only a PASSIVE key can be promoted. */
  lemma PromotedKeySigns(r: Ring, id: string)
    requires id in r.keys ==> r.keys[id].keyID == id
    ensures Perform(r, PromoteKey(id)).1 <==> id in r.keys && r.keys[id].state == PASSIVE
    ensures Perform(r, PromoteKey(id)).1 ==>
              var next := Perform(r, PromoteKey(id)).0;
              && Signs(next, id, r.keys[id].privateKey, r.keys[id].publicKey)
              && next.keys.Keys == r.keys.Keys && OthersStandBack(r, next, id)
  {
  }

  /** A demoted key is kept and no longer signs: then no key does. Only the ACTIVE key can be demoted. */
  lemma DemotedKeyNoLongerSigns(r: Ring, id: string)
    requires Consistent(r)
    ensures Perform(r, DemoteKey(id)).1 <==> Active(r, id)
    ensures Perform(r, DemoteKey(id)).1 ==>
              var next := Perform(r, DemoteKey(id)).0;
              && id in next.keys && next.keys[id] == r.keys[id].(state := PASSIVE) && OthersStay(r, next, id)
              && next.mirror == NO_MIRROR && forall k :: !Active(next, k)
  {
    ConsistencyMeaning(r);
  }

  /** A retired key is gone, and nothing else has changed. Any key but an ACTIVE one can be retired. */
  lemma RetiredKeyIsGone(r: Ring, id: string)
    ensures Perform(r, RetireKey(id)).1 <==> id in r.keys && !Active(r, id)
    ensures Perform(r, RetireKey(id)).1 ==>
              var next := Perform(r, RetireKey(id)).0;
              id !in next.keys && OthersStay(r, next, id) && next.mirror == r.mirror
  {
  }

  /** An added key waits as PASSIVE, and nothing else has changed. */
  lemma AddedKeyWaits(r: Ring, pair: Option<KeyPair>)
    ensures Perform(r, AddKey(pair)).1 <==> pair.Some?
    ensures pair.Some? ==>
              var next, p := Perform(r, AddKey(pair)).0, pair.value;
              && p.keyID in next.keys && next.keys[p.keyID] == Entry(p.privateKey, p.publicKey, p.keyID, PASSIVE)
              && OthersStay(r, next, p.keyID) && next.mirror == r.mirror
  {
  }

  function Run(r: Ring, events: seq<Event>): Ring
    decreases |events|
  {
    if events == [] then r else Run(Perform(r, events[0]).0, events[1..])
  }

  /** A key generated to be PASSIVE does not have the ID of the ACTIVE one. */
  predicate SparesActive(r: Ring, e: Event) {
    e.AddKey? && e.pair.Some? ==> !Active(r, e.pair.value.keyID)
  }

  ghost predicate NoCollision(r: Ring, events: seq<Event>)
    decreases |events|
  {
    events != [] ==> SparesActive(r, events[0]) && NoCollision(Perform(r, events[0]).0, events[1..])
  }

  /** An operation that reports an error changed nothing. */
  lemma ErrorsChangeNothing(r: Ring, e: Event)
    ensures !Perform(r, e).1 ==> Perform(r, e).0 == r
  {
  }

  lemma InstallKeeps(r: Ring, pair: Option<KeyPair>)
    requires Consistent(r)
    ensures Consistent(Install(r, pair).0)
  {
  }

  lemma PromoteKeeps(r: Ring, id: string)
    requires Consistent(r)
    ensures Consistent(Promote(r, id).0)
  {
  }

  lemma DemoteKeeps(r: Ring, id: string)
    requires Consistent(r)
    ensures Consistent(Demote(r, id).0)
  {
    ConsistencyMeaning(r);
  }

  lemma RetireKeeps(r: Ring, id: string)
    requires Consistent(r)
    ensures Consistent(Retire(r, id).0)
  {
  }

  lemma AddPassiveExactly(r: Ring, pair: KeyPair)
    requires Consistent(r)
    ensures Consistent(AddPassive(r, Some(pair)).0) <==> !Active(r, pair.keyID)
  {
    var next := AddPassive(r, Some(pair)).0;
    if Active(r, pair.keyID) {
      assert next.mirror.keyID == pair.keyID && !Active(next, pair.keyID);
    } else {
      assert forall k :: Active(next, k) ==> Active(r, k) && next.keys[k] == r.keys[k];
    }
  }

  /** What exactly keeps entries and mirror in step: all operations do, except adding a PASSIVE key
      under the ID of the ACTIVE one. */
  lemma StepIsConsistentExactly(r: Ring, e: Event)
    requires Consistent(r)
    ensures Consistent(Perform(r, e).0) <==> SparesActive(r, e)
  {
    match e
    case InstallKey(pair) => InstallKeeps(r, pair);
    case AddKey(pair) => if pair.Some? { AddPassiveExactly(r, pair.value); }
    case PromoteKey(id) => PromoteKeeps(r, id);
    case DemoteKey(id) => DemoteKeeps(r, id);
    case RetireKey(id) => RetireKeeps(r, id);
  }

  /** In every reachable state the ring and its mirror fields agree. */
  lemma {:induction false} RingStaysConsistent(r: Ring, events: seq<Event>)
    requires Consistent(r) && NoCollision(r, events)
    ensures Consistent(Run(r, events))
    decreases |events|
  {
    if events != [] {
      StepIsConsistentExactly(r, events[0]);
      RingStaysConsistent(Perform(r, events[0]).0, events[1..]);
    }
  }

  /** The operation succeeds in putting another key, or none, in the place of the one that signs. */
  predicate Rechooses(r: Ring, e: Event) {
    (e.InstallKey? || e.PromoteKey? || e.DemoteKey?) && Perform(r, e).1
  }

  ghost predicate NeverRechosen(r: Ring, events: seq<Event>)
    decreases |events|
  {
    events != [] ==> !Rechooses(r, events[0]) && NeverRechosen(Perform(r, events[0]).0, events[1..])
  }

  lemma {:induction false} MirrorStays(r: Ring, events: seq<Event>)
    requires NeverRechosen(r, events)
    ensures Run(r, events).mirror == r.mirror
    decreases |events|
  {
    if events != [] {
      ErrorsChangeNothing(r, events[0]);
      MirrorStays(Perform(r, events[0]).0, events[1..]);
    }
  }

  /** A key that was installed or promoted signs, alone, until another key is or it is demoted itself, whatever keys
      are added or retired in between. */
  lemma ChosenKeyKeepsSigning(r: Ring, e: Event, after: seq<Event>)
    requires Consistent(r) && (e.InstallKey? || e.PromoteKey?) && Perform(r, e).1
    requires var next := Perform(r, e).0; NoCollision(next, after) && NeverRechosen(next, after)
    ensures var id := if e.InstallKey? then e.pair.value.keyID else e.id;
            var chosen, end := Perform(r, e).0, Run(Perform(r, e).0, after);
            id in chosen.keys && Signs(end, id, chosen.keys[id].privateKey, chosen.keys[id].publicKey)
  {
    var chosen := Perform(r, e).0;
    if e.InstallKey? { InstalledKeySigns(r, e.pair); } else { PromotedKeySigns(r, e.id); }
    StepIsConsistentExactly(r, e);
    RingStaysConsistent(chosen, after);
    MirrorStays(chosen, after);
    ConsistencyMeaning(Run(chosen, after));
  }

  // ---- verification outlives signing -------------------------------------------------------------------

  /** Equal key IDs mean equal public keys, for the keys of the ring and all keys the run brings in. */
  ghost predicate IDsIdentifyKeys(r: Ring, events: seq<Event>, publicKeyOf: string -> int) {
    && (forall k :: k in r.keys ==> r.keys[k].publicKey == publicKeyOf(k))
    && (forall e :: e in events && e.InstallKey? && e.pair.Some? ==>
        e.pair.value.publicKey == publicKeyOf(e.pair.value.keyID))
    && (forall e :: e in events && e.AddKey? && e.pair.Some? ==>
        e.pair.value.publicKey == publicKeyOf(e.pair.value.keyID))
  }

  lemma {:induction false} KeyStays(r: Ring, events: seq<Event>, id: string, publicKeyOf: string -> int)
    requires id in r.keys && r.keys[id].state != RETIRED && IDsIdentifyKeys(r, events, publicKeyOf)
    requires !RetiredIn(r, events, id)
    ensures id in Run(r, events).keys && Run(r, events).keys[id].state != RETIRED
    ensures Run(r, events).keys[id].publicKey == r.keys[id].publicKey
    decreases |events|
  {
    if events != [] {
      assert events[0] in events;
      KeyStays(Perform(r, events[0]).0, events[1..], id, publicKeyOf);
    }
  }

  /** Some RetireKey on this ID succeeds in the run. */
  predicate RetiredIn(r: Ring, events: seq<Event>, id: string)
    decreases |events|
  {
    events != [] &&
    ((events[0] == RetireKey(id) && Perform(r, events[0]).1) || RetiredIn(Perform(r, events[0]).0, events[1..], id))
  }

  /** A published key stays published, under the same public key, until it is retired. */
  lemma ListedUntilRetired(r: Ring, events: seq<Event>, publicKeyOf: string -> int,
                           before: seq<SigningKey>, after: seq<SigningKey>, key: SigningKey)
    requires IsListing(r, before) && IsListing(Run(r, events), after) && key in before
    requires IDsIdentifyKeys(r, events, publicKeyOf) && !RetiredIn(r, events, key.keyId)
    ensures key in after
  {
    KeyStays(r, events, key.keyId, publicKeyOf);
  }

  /** A token signed with the mirror as it was at some moment names a key ID; until that key is retired
      the published list holds one entry for the ID, and its public key is the signer's. */
  lemma SnapshotTokensVerify(r: Ring, events: seq<Event>, publicKeyOf: string -> int, list: seq<SigningKey>)
    requires Consistent(r) && r.mirror.privateKey.Some?
    requires IsListing(Run(r, events), list)
    requires IDsIdentifyKeys(r, events, publicKeyOf) && !RetiredIn(r, events, r.mirror.keyID)
    ensures exists i :: 0 <= i < |list|
              && list[i] == SigningKey(r.mirror.keyID, r.mirror.publicKey.value)
              && forall j :: 0 <= j < |list| && list[j].keyId == r.mirror.keyID ==> j == i
  {
    var id := r.mirror.keyID;
    KeyStays(r, events, id, publicKeyOf);
    var key := SigningKey(id, r.keys[id].publicKey);
    assert key in list;
    var i :| 0 <= i < |list| && list[i] == key;
    forall j | 0 <= j < |list| && list[j].keyId == id ensures j == i {
      GoText.LessIrreflexive(id);
    }
  }

  /** The key that signs can never be retired: it has to be demoted, or another promoted, first. */
  lemma SigningKeyCannotBeRetired(r: Ring)
    requires Consistent(r) && r.mirror.privateKey.Some?
    ensures Retire(r, r.mirror.keyID) == (r, false)
  {
    ConsistencyMeaning(r);
  }
}
