/** API keys in the gateway (gateway/src/api_keys.rs), without Redis: the two-map store, the life of a key,
    and the limit on how fast keys are created. Instants are nanoseconds on the monotonic clock; expiry
    dates are nanoseconds on the wall clock, which may be set back. */
module ApiKeys {

  import opened Common

  const CACHE_TTL: nat := 30 * NANOS_PER_SEC
  const WINDOW: nat := 60 * NANOS_PER_SEC
  const MAX_CREATIONS: nat := 10
  const NANOS_PER_DAY: nat := 86_400 * NANOS_PER_SEC

  type Id = string
  type Hash = string

  /** SHA-256 of a raw key, in hex. */
  const HashKey: string -> Hash

  datatype ApiKey = ApiKey(id: Id, keyHash: Hash, name: string, expiresAt: Option<int>, enabled: bool,
                           scopes: seq<string>)

  datatype Cached = Cached(key: ApiKey, cachedAt: nat)

  datatype Store = Store(keysByHash: map<Hash, Cached>, idToHash: map<Id, Hash>)

  const EMPTY := Store(map[], map[])

  predicate IsValid(key: ApiKey, wall: int) { key.enabled && !(key.expiresAt.Some? && wall > key.expiresAt.value) }

  // ── The store ────────────────────────────────────────────────────

  function Add(s: Store, key: ApiKey, now: nat): Store {
    Store(s.keysByHash[key.keyHash := Cached(key, now)], s.idToHash[key.id := key.keyHash])
  }

  function GetByHash(s: Store, hash: Hash, now: nat): Option<ApiKey> {
    if hash in s.keysByHash && now < s.keysByHash[hash].cachedAt + CACHE_TTL then Some(s.keysByHash[hash].key) else None
  }

  function GetById(s: Store, id: Id): Option<ApiKey> {
    if id in s.idToHash && s.idToHash[id] in s.keysByHash then Some(s.keysByHash[s.idToHash[id]].key) else None
  }

  /** Assigning through a mutable reference to the key with the id. */
  function SetById(s: Store, id: Id, key: ApiKey): Store {
    if GetById(s, id).Some?
    then s.(keysByHash := s.keysByHash[s.idToHash[id] := s.keysByHash[s.idToHash[id]].(key := key)])
    else s
  }

  function Remove(s: Store, id: Id): Store {
    if id in s.idToHash then Store(s.keysByHash - {s.idToHash[id]}, s.idToHash - {id}) else s
  }

  function UpdateHash(s: Store, id: Id, oldHash: Hash, newHash: Hash, now: nat): Store {
    if oldHash in s.keysByHash
    then Store((s.keysByHash - {oldHash})[newHash := Cached(s.keysByHash[oldHash].key, now)], s.idToHash[id := newHash])
    else s
  }

  function Validate(s: Store, raw: string, now: nat, wall: int): Option<ApiKey> {
    match GetByHash(s, HashKey(raw), now)
    case Some(key) => if IsValid(key, wall) then Some(key) else None
    case None => None
  }

  function Revoke(s: Store, id: Id): Store {
    match GetById(s, id)
    case Some(key) => SetById(s, id, key.(enabled := false))
    case None => s
  }

  function Rotate(s: Store, id: Id, newHash: Hash, now: nat): Store {
    match GetById(s, id)
    case None => s
    case Some(key) =>
      var t := UpdateHash(s, id, key.keyHash, newHash, now);
      match GetById(t, id)
      case Some(k) => SetById(t, id, k.(keyHash := newHash))
      case None => t
  }

  function NewKey(id: Id, raw: string, name: string, expiresInDays: Option<nat>, scopes: seq<string>,
                  wall: int): ApiKey {
    ApiKey(id, HashKey(raw), name,
           if expiresInDays.Some? then Some(wall + expiresInDays.value * NANOS_PER_DAY) else None,
           true, scopes)
  }

  // ── The creation limiter ─────────────────────────────────────────

  /** What is left once the entries older than the window are taken from the front. */
  function DropOld(times: seq<nat>, now: nat): seq<nat> {
    if times != [] && times[0] + WINDOW < now then DropOld(times[1..], now) else times
  }

  /** The clock is read once for the cutoff and again for the entry. */
  function Admit(times: seq<nat>, now: nat, later: nat): (seq<nat>, bool) {
    var kept := DropOld(times, now);
    if |kept| >= MAX_CREATIONS then (kept, false) else (kept + [later], true)
  }

  class ApiKeyManager {
    var keysByHash: map<Hash, Cached>
    var idToHash: map<Id, Hash>
    var createTimestamps: seq<nat>

    function Abs(): Store reads this { Store(keysByHash, idToHash) }

    constructor ()
      ensures Abs() == EMPTY && createTimestamps == []
    {
      keysByHash, idToHash, createTimestamps := map[], map[], [];
    }

    /** `id` and `raw` are the freshly drawn identifier and key. */
    method CreateKey(name: string, expiresInDays: Option<nat>, scopes: seq<string>, id: Id, raw: string, now: nat,
                     later: nat, wall: int)
      returns (created: Option<ApiKey>)
      modifies this
      ensures (createTimestamps, created.Some?) == Admit(old(createTimestamps), now, later)
      ensures created.Some? ==> created.value == NewKey(id, raw, name, expiresInDays, scopes, wall)
      ensures Abs() == if created.Some? then Add(old(Abs()), created.value, later) else old(Abs())
    {
      while createTimestamps != [] && createTimestamps[0] + WINDOW < now
        invariant DropOld(createTimestamps, now) == DropOld(old(createTimestamps), now)
        invariant Abs() == old(Abs())
        decreases |createTimestamps|
      {
        createTimestamps := createTimestamps[1..];
      }
      if |createTimestamps| >= MAX_CREATIONS {
        return None;
      }
      createTimestamps := createTimestamps + [later];
      var key := NewKey(id, raw, name, expiresInDays, scopes, wall);
      idToHash := idToHash[key.id := key.keyHash];
      keysByHash := keysByHash[key.keyHash := Cached(key, later)];
      return Some(key);
    }

    method GetKey(id: Id) returns (key: Option<ApiKey>)
      ensures key == GetById(Abs(), id)
    {
      if id in idToHash && idToHash[id] in keysByHash {
        return Some(keysByHash[idToHash[id]].key);
      }
      return None;
    }

    method ValidateKey(raw: string, now: nat, wall: int) returns (key: Option<ApiKey>)
      ensures key == Validate(Abs(), raw, now, wall)
    {
      var hash := HashKey(raw);
      if hash in keysByHash && now < keysByHash[hash].cachedAt + CACHE_TTL && IsValid(keysByHash[hash].key, wall) {
        return Some(keysByHash[hash].key);
      }
      return None;
    }

    method RevokeKey(id: Id) returns (found: bool)
      modifies this`keysByHash
      ensures Abs() == Revoke(old(Abs()), id) && found == GetById(old(Abs()), id).Some?
    {
      var key := GetKey(id);
      if key.Some? {
        var hash := idToHash[id];
        keysByHash := keysByHash[hash := keysByHash[hash].(key := key.value.(enabled := false))];
        return true;
      }
      return false;
    }

    /** Reports success whether or not there was such a key. */
    method DeleteKey(id: Id) returns (deleted: bool)
      modifies this`keysByHash, this`idToHash
      ensures Abs() == Remove(old(Abs()), id) && deleted
    {
      if id in idToHash {
        var hash := idToHash[id];
        idToHash := idToHash - {id};
        keysByHash := keysByHash - {hash};
      }
      return true;
    }

    method RotateKey(id: Id, newRaw: string, now: nat) returns (found: bool)
      modifies this`keysByHash, this`idToHash
      ensures Abs() == Rotate(old(Abs()), id, HashKey(newRaw), now) && found == GetById(old(Abs()), id).Some?
    {
      var key := GetKey(id);
      if key.None? {
        return false;
      }
      var oldHash, newHash := key.value.keyHash, HashKey(newRaw);
      if oldHash in keysByHash {
        var moved := keysByHash[oldHash].key;
        keysByHash := keysByHash - {oldHash};
        idToHash := idToHash[id := newHash];
        keysByHash := keysByHash[newHash := Cached(moved, now)];
      }
      if id in idToHash && idToHash[id] in keysByHash {
        var hash := idToHash[id];
        keysByHash := keysByHash[hash := keysByHash[hash].(key := keysByHash[hash].key.(keyHash := newHash))];
      }
      return true;
    }
  }

  // ── The two maps as one table ────────────────────────────────────

  datatype Event =
    | Create(key: ApiKey, at: nat)
    | Revoked(id: Id)
    | Deleted(id: Id)
    | Rotated(id: Id, newHash: Hash, at: nat)

  function Apply(s: Store, e: Event): Store {
    match e
    case Create(key, at) => Add(s, key, at)
    case Revoked(id) => Revoke(s, id)
    case Deleted(id) => Remove(s, id)
    case Rotated(id, newHash, at) => Rotate(s, id, newHash, at)
  }

  /** What one map from ids would hold: the key, under its current hash, and since when it has had it. */
  type Table = map<Id, Cached>

  function Update(t: Table, e: Event): Table {
    match e
    case Create(key, at) => t[key.id := Cached(key, at)]
    case Revoked(id) => if id in t then t[id := t[id].(key := t[id].key.(enabled := false))] else t
    case Deleted(id) => t - {id}
    case Rotated(id, newHash, at) => if id in t then t[id := Cached(t[id].key.(keyHash := newHash), at)] else t
  }

  /** The two maps are inverse, with no orphan in either, and hold what the table holds. */
  ghost predicate Mirrors(s: Store, t: Table) {
    && s.idToHash.Keys == t.Keys
    && (forall id | id in t ::
          && t[id].key.id == id && s.idToHash[id] == t[id].key.keyHash
          && t[id].key.keyHash in s.keysByHash && s.keysByHash[t[id].key.keyHash] == t[id])
    && (forall hash | hash in s.keysByHash ::
          var id := s.keysByHash[hash].key.id;
          id in t && t[id] == s.keysByHash[hash] && s.keysByHash[hash].key.keyHash == hash)
  }

  /** Every hash ever issued. */
  function Issued(used: set<Hash>, e: Event): set<Hash> {
    match e
    case Create(key, _) => used + {key.keyHash}
    case Rotated(_, newHash, _) => used + {newHash}
    case _ => used
  }

  function IssuedIds(ids: set<Id>, e: Event): set<Id> { if e.Create? then ids + {e.key.id} else ids }

  /** Drawn identifiers and keys are new. */
  predicate Fresh(used: set<Hash>, ids: set<Id>, e: Event) {
    match e
    case Create(key, _) => key.keyHash !in used && key.id !in ids
    case Rotated(_, newHash, _) => newHash !in used
    case _ => true
  }

  lemma CreateKeepsMirror(s: Store, t: Table, key: ApiKey, at: nat)
    requires Mirrors(s, t) && key.keyHash !in s.keysByHash && key.id !in t
    ensures Mirrors(Add(s, key, at), t[key.id := Cached(key, at)])
  {
  }

  lemma RevokeKeepsMirror(s: Store, t: Table, id: Id)
    requires Mirrors(s, t) && id in t
    ensures Mirrors(Revoke(s, id), t[id := t[id].(key := t[id].key.(enabled := false))])
    ensures Revoke(s, id).keysByHash.Keys == s.keysByHash.Keys
  {
    var hash := t[id].key.keyHash;
    assert Revoke(s, id) == s.(keysByHash := s.keysByHash[hash := t[id].(key := t[id].key.(enabled := false))]);
  }

  lemma RemoveKeepsMirror(s: Store, t: Table, id: Id)
    requires Mirrors(s, t)
    ensures Mirrors(Remove(s, id), t - {id})
  {
  }

  /** A rotation moves the entry to the new hash. */
  lemma RotationMoves(s: Store, t: Table, id: Id, newHash: Hash, at: nat)
    requires Mirrors(s, t) && id in t && newHash !in s.keysByHash
    ensures Rotate(s, id, newHash, at) ==
              Store((s.keysByHash - {t[id].key.keyHash})[newHash := Cached(t[id].key.(keyHash := newHash), at)],
                    s.idToHash[id := newHash])
  {
  }

  lemma RotateKeepsMirror(s: Store, t: Table, id: Id, newHash: Hash, at: nat)
    requires Mirrors(s, t) && id in t && newHash !in s.keysByHash
    ensures Mirrors(Rotate(s, id, newHash, at), t[id := Cached(t[id].key.(keyHash := newHash), at)])
    ensures Rotate(s, id, newHash, at).keysByHash.Keys <= s.keysByHash.Keys + {newHash}
  {
    RotationMoves(s, t, id, newHash, at);
  }

  lemma ApplyKeepsMirror(s: Store, t: Table, used: set<Hash>, ids: set<Id>, e: Event)
    requires Mirrors(s, t) && s.keysByHash.Keys <= used && t.Keys <= ids && Fresh(used, ids, e)
    ensures Mirrors(Apply(s, e), Update(t, e))
    ensures Apply(s, e).keysByHash.Keys <= Issued(used, e) && Update(t, e).Keys <= IssuedIds(ids, e)
  {
    match e
    case Create(key, at) => CreateKeepsMirror(s, t, key, at);
    case Revoked(id) => if id in t { RevokeKeepsMirror(s, t, id); }
    case Deleted(id) => RemoveKeepsMirror(s, t, id);
    case Rotated(id, newHash, at) => if id in t { RotateKeepsMirror(s, t, id, newHash, at); }
  }

  function Run(s: Store, es: seq<Event>): Store
    decreases |es|
  {
    if es == [] then s else Run(Apply(s, es[0]), es[1..])
  }

  function Tabled(t: Table, es: seq<Event>): Table
    decreases |es|
  {
    if es == [] then t else Tabled(Update(t, es[0]), es[1..])
  }

  ghost predicate AllFresh(used: set<Hash>, ids: set<Id>, es: seq<Event>)
    decreases |es|
  {
    es == [] || (Fresh(used, ids, es[0]) && AllFresh(Issued(used, es[0]), IssuedIds(ids, es[0]), es[1..]))
  }

  function IssuedBy(used: set<Hash>, es: seq<Event>): set<Hash>
    decreases |es|
  {
    if es == [] then used else IssuedBy(Issued(used, es[0]), es[1..])
  }

  function IdsBy(ids: set<Id>, es: seq<Event>): set<Id>
    decreases |es|
  {
    if es == [] then ids else IdsBy(IssuedIds(ids, es[0]), es[1..])
  }

  lemma {:induction false} RunKeepsMirror(s: Store, t: Table, used: set<Hash>, ids: set<Id>, es: seq<Event>)
    requires Mirrors(s, t) && s.keysByHash.Keys <= used && t.Keys <= ids && AllFresh(used, ids, es)
    ensures Mirrors(Run(s, es), Tabled(t, es))
    ensures Run(s, es).keysByHash.Keys <= IssuedBy(used, es) && Tabled(t, es).Keys <= IdsBy(ids, es)
    decreases |es|
  {
    if es != [] {
      ApplyKeepsMirror(s, t, used, ids, es[0]);
      RunKeepsMirror(Apply(s, es[0]), Update(t, es[0]), Issued(used, es[0]), IssuedIds(ids, es[0]), es[1..]);
    }
  }

  /** After any run, looking a key up by id answers from the table; a raw key validates exactly when it is
      the current one of an enabled, unexpired key that was created or last rotated less than thirty seconds
      ago. Later it no longer does, although the lookup by id still shows the key as enabled. */
  lemma StoreIsOneTable(es: seq<Event>, id: Id, raw: string, now: nat, wall: int)
    requires AllFresh({}, {}, es)
    ensures var s, t := Run(EMPTY, es), Tabled(map[], es);
            && GetById(s, id) == (if id in t then Some(t[id].key) else None)
            && (Validate(s, raw, now, wall).Some? <==>
                  exists i :: i in t && t[i].key.keyHash == HashKey(raw) && IsValid(t[i].key, wall)
                    && now < t[i].cachedAt + CACHE_TTL)
            && (Validate(s, raw, now, wall).Some? ==>
                  var key := Validate(s, raw, now, wall).value; key.id in t && t[key.id].key == key)
  {
    RunKeepsMirror(EMPTY, map[], {}, {}, es);
  }

  // ── Dead keys stay dead ──────────────────────────────────────────

  /** Issued once, and now gone or disabled. */
  ghost predicate Dead(s: Store, used: set<Hash>, hash: Hash) {
    hash in used && (hash in s.keysByHash ==> !s.keysByHash[hash].key.enabled)
  }

  /** Revoking, deleting or rotating a key kills the hash it had. */
  lemma RetiringKills(s: Store, t: Table, used: set<Hash>, e: Event, id: Id)
    requires Mirrors(s, t) && s.keysByHash.Keys <= used && id in t
    requires e == Revoked(id) || e == Deleted(id) || (e.Rotated? && e.id == id && e.newHash !in used)
    ensures Dead(Apply(s, e), Issued(used, e), t[id].key.keyHash)
  {
    if e.Rotated? { RotationMoves(s, t, id, e.newHash, e.at); }
  }

  lemma ApplyKeepsDead(s: Store, t: Table, used: set<Hash>, ids: set<Id>, e: Event, hash: Hash)
    requires Mirrors(s, t) && s.keysByHash.Keys <= used && t.Keys <= ids && Fresh(used, ids, e) && Dead(s, used, hash)
    ensures Dead(Apply(s, e), Issued(used, e), hash)
  {
    if e.Rotated? && e.id in t { RotationMoves(s, t, e.id, e.newHash, e.at); }
  }

  /** A hash once revoked, deleted or rotated away never validates again. */
  lemma {:induction false} DeadKeysStayDead(s: Store, t: Table, used: set<Hash>, ids: set<Id>, es: seq<Event>,
                                            raw: string, now: nat, wall: int)
    requires Mirrors(s, t) && s.keysByHash.Keys <= used && t.Keys <= ids && AllFresh(used, ids, es)
    requires Dead(s, used, HashKey(raw))
    ensures Validate(Run(s, es), raw, now, wall).None?
    decreases |es|
  {
    if es != [] {
      ApplyKeepsMirror(s, t, used, ids, es[0]);
      ApplyKeepsDead(s, t, used, ids, es[0], HashKey(raw));
      DeadKeysStayDead(Apply(s, es[0]), Update(t, es[0]), Issued(used, es[0]), IssuedIds(ids, es[0]), es[1..], raw,
                       now, wall);
    }
  }

  lemma {:induction false} RunSplits(s: Store, used: set<Hash>, ids: set<Id>, before: seq<Event>, later: seq<Event>)
    ensures Run(s, before + later) == Run(Run(s, before), later)
    ensures AllFresh(used, ids, before + later) ==>
              AllFresh(used, ids, before) && AllFresh(IssuedBy(used, before), IdsBy(ids, before), later)
    decreases |before|
  {
    if before == [] {
      assert before + later == later;
    } else {
      assert (before + later)[1..] == before[1..] + later;
      RunSplits(Apply(s, before[0]), Issued(used, before[0]), IssuedIds(ids, before[0]), before[1..], later);
    }
  }

  predicate Retires(e: Event, id: Id) {
    e == Revoked(id) || e == Deleted(id) || (e.Rotated? && e.id == id)
  }

  /** A run from the empty store with new identifiers and keys throughout. */
  ghost predicate FreshRun(es: seq<Event>) { AllFresh({}, {}, es) }

  /** The hash under which the key with the id was filed before the k-th event. */
  predicate HashBefore(es: seq<Event>, k: nat, id: Id, hash: Hash)
    requires k <= |es|
  {
    var t := Tabled(map[], es[..k]);
    id in t && t[id].key.keyHash == hash
  }

  /** In any run from the empty store: the hash a key had when it was revoked, deleted or rotated never
      validates afterwards. */
  lemma RetiredNeverValidates(es: seq<Event>, k: nat, id: Id, raw: string, now: nat, wall: int)
    requires FreshRun(es) && k < |es|
    requires Retires(es[k], id) && HashBefore(es, k, id, HashKey(raw))
    ensures Validate(Run(EMPTY, es), raw, now, wall).None?
  {
    var before, rest := es[..k], es[k..];
    assert es == before + rest && rest[0] == es[k];
    RunSplits(EMPTY, {}, {}, before, rest);
    RunKeepsMirror(EMPTY, map[], {}, {}, before);
    RetiredFromHere(Run(EMPTY, before), Tabled(map[], before), IssuedBy({}, before), IdsBy({}, before),
                    es[k], rest[1..], id, raw, now, wall);
  }

  lemma RetiredFromHere(s: Store, t: Table, used: set<Hash>, ids: set<Id>, e: Event, later: seq<Event>,
                        id: Id, raw: string, now: nat, wall: int)
    requires Mirrors(s, t) && s.keysByHash.Keys <= used && t.Keys <= ids && Retires(e, id)
    requires Fresh(used, ids, e) && AllFresh(Issued(used, e), IssuedIds(ids, e), later)
    requires id in t && t[id].key.keyHash == HashKey(raw)
    ensures Validate(Run(Apply(s, e), later), raw, now, wall).None?
  {
    RetiringKills(s, t, used, e, id);
    ApplyKeepsMirror(s, t, used, ids, e);
    DeadKeysStayDead(Apply(s, e), Update(t, e), Issued(used, e), IssuedIds(ids, e), later, raw, now, wall);
  }

  /** Rotating a revoked key does not enable it: the new raw key is as dead as the old one. */
  lemma RotationDoesNotRevive(s: Store, t: Table, id: Id, newHash: Hash, at: nat)
    requires Mirrors(s, t) && id in t && newHash !in s.keysByHash
    ensures var r := Rotate(s, id, newHash, at);
            newHash in r.keysByHash && r.keysByHash[newHash].key == t[id].key.(keyHash := newHash)
            && t[id].key.keyHash !in r.keysByHash
  {
    RotationMoves(s, t, id, newHash, at);
  }

  /** Deleting a key takes the store back to what it was before the key was created. */
  lemma DeletionUndoesCreation(s: Store, key: ApiKey, at: nat)
    requires key.keyHash !in s.keysByHash && key.id !in s.idToHash
    ensures Remove(Add(s, key, at), key.id) == s
  {
    assert Remove(Add(s, key, at), key.id).keysByHash == s.keysByHash;
    assert Remove(Add(s, key, at), key.id).idToHash == s.idToHash;
  }

  // ── How fast keys can be created ─────────────────────────────────

  datatype Attempt = Attempt(now: nat, later: nat)

  /** The clock does not run backwards, within an attempt or from one to the next. */
  ghost predicate Timed(clock: nat, attempts: seq<Attempt>)
    decreases |attempts|
  {
    attempts == [] ||
    (clock <= attempts[0].now <= attempts[0].later && Timed(attempts[0].later, attempts[1..]))
  }

  /** The deque after the attempts, and every admission ever. */
  function Attempted(times: seq<nat>, log: seq<nat>, attempts: seq<Attempt>): (seq<nat>, seq<nat>)
    decreases |attempts|
  {
    if attempts == [] then (times, log)
    else
      var (t, ok) := Admit(times, attempts[0].now, attempts[0].later);
      Attempted(t, if ok then log + [attempts[0].later] else log, attempts[1..])
  }

  ghost predicate Ascending(times: seq<nat>) { forall i, j :: 0 <= i < j < |times| ==> times[i] <= times[j] }

  /** The deque is the end of the log, at most ten long; what it has let go is older than the window; and
      any eleven consecutive entries of the log span more than it. */
  ghost predicate Limited(times: seq<nat>, log: seq<nat>, clock: nat) {
    && |times| <= |log| && |times| <= MAX_CREATIONS && times == log[|log| - |times|..]
    && Ascending(log)
    && (forall i :: 0 <= i < |log| ==> log[i] <= clock)
    && (forall i :: 0 <= i < |log| - |times| ==> log[i] + WINDOW < clock)
    && (forall i, j :: 0 <= i && i + MAX_CREATIONS <= j < |log| ==> log[i] + WINDOW < log[j])
  }

  lemma {:induction false} DropOldIsSuffix(times: seq<nat>, now: nat)
    ensures var r := DropOld(times, now);
            && |r| <= |times| && r == times[|times| - |r|..]
            && (forall i :: 0 <= i < |times| - |r| ==> times[i] + WINDOW < now)
            && (r != [] ==> r[0] + WINDOW >= now)
  {
    if times != [] && times[0] + WINDOW < now {
      DropOldIsSuffix(times[1..], now);
    }
  }

  lemma DropOldKeepsLimits(times: seq<nat>, log: seq<nat>, clock: nat, now: nat)
    requires Limited(times, log, clock) && clock <= now
    ensures Limited(DropOld(times, now), log, now)
  {
    DropOldIsSuffix(times, now);
    var r := DropOld(times, now);
    var gone := |log| - |times|;
    forall i | 0 <= i < |log| - |r|
      ensures log[i] + WINDOW < now
    {
      assert i >= gone ==> log[i] == times[i - gone];
    }
  }

  lemma AdmissionKeepsLimits(kept: seq<nat>, log: seq<nat>, now: nat, later: nat)
    requires Limited(kept, log, now) && |kept| < MAX_CREATIONS && now <= later
    ensures Limited(kept + [later], log + [later], later)
  {
    var l := log + [later];
    assert kept + [later] == l[|l| - |kept + [later]|..];
  }

  /** How many of the admissions are not older than the window. */
  function Recent(log: seq<nat>, now: nat): nat {
    if log == [] then 0
    else Recent(log[..|log| - 1], now) + if log[|log| - 1] + WINDOW >= now then 1 else 0
  }

  lemma {:induction false} RecentAre(log: seq<nat>, now: nat, stale: nat)
    requires stale <= |log|
    requires forall i :: 0 <= i < stale ==> log[i] + WINDOW < now
    requires forall i :: stale <= i < |log| ==> log[i] + WINDOW >= now
    ensures Recent(log, now) == |log| - stale
    decreases |log|
  {
    if log != [] {
      RecentAre(log[..|log| - 1], now, if stale == |log| then stale - 1 else stale);
    }
  }

  function EndOf(clock: nat, attempts: seq<Attempt>): nat {
    if attempts == [] then clock else attempts[|attempts| - 1].later
  }

  lemma {:induction false} AttemptsKeepLimits(times: seq<nat>, log: seq<nat>, clock: nat, attempts: seq<Attempt>)
    requires Limited(times, log, clock) && Timed(clock, attempts)
    ensures Limited(Attempted(times, log, attempts).0, Attempted(times, log, attempts).1, EndOf(clock, attempts))
    decreases |attempts|
  {
    if attempts != [] {
      var a := attempts[0];
      var (t, ok) := Admit(times, a.now, a.later);
      AttemptKeepsLimits(times, log, clock, a);
      assert EndOf(a.later, attempts[1..]) == EndOf(clock, attempts);
      AttemptsKeepLimits(t, if ok then log + [a.later] else log, a.later, attempts[1..]);
    }
  }

  lemma AttemptKeepsLimits(times: seq<nat>, log: seq<nat>, clock: nat, a: Attempt)
    requires Limited(times, log, clock) && clock <= a.now <= a.later
    ensures var (t, ok) := Admit(times, a.now, a.later);
            Limited(t, if ok then log + [a.later] else log, a.later)
  {
    var kept := DropOld(times, a.now);
    DropOldKeepsLimits(times, log, clock, a.now);
    if |kept| < MAX_CREATIONS {
      AdmissionKeepsLimits(kept, log, a.now, a.later);
    }
  }

  /** In any run, eleven consecutive creations span more than sixty seconds, and the deque is sorted and at
      most ten long. */
  lemma ElevenCreationsSpanAMinute(attempts: seq<Attempt>, i: nat)
    requires Timed(0, attempts)
    ensures var (times, log) := Attempted([], [], attempts);
            && |times| <= MAX_CREATIONS && Ascending(times)
            && (i + MAX_CREATIONS < |log| ==> log[i + MAX_CREATIONS] > log[i] + WINDOW)
  {
    AttemptsKeepLimits([], [], 0, attempts);
  }

  /** After any run, a creation is admitted exactly when fewer than ten creations have been admitted in the
      last sixty seconds. */
  lemma AdmittedExactlyWhen(attempts: seq<Attempt>, now: nat, later: nat)
    requires Timed(0, attempts) && EndOf(0, attempts) <= now
    ensures var (times, log) := Attempted([], [], attempts);
            Admit(times, now, later).1 <==> Recent(log, now) < MAX_CREATIONS
  {
    AttemptsKeepLimits([], [], 0, attempts);
    LimitedAdmits(Attempted([], [], attempts).0, Attempted([], [], attempts).1, EndOf(0, attempts), now, later);
  }

  lemma LimitedAdmits(times: seq<nat>, log: seq<nat>, clock: nat, now: nat, later: nat)
    requires Limited(times, log, clock) && clock <= now
    ensures Admit(times, now, later).1 <==> Recent(log, now) < MAX_CREATIONS
  {
    DropOldKeepsLimits(times, log, clock, now);
    DropOldIsSuffix(times, now);
    KeptAreRecent(DropOld(times, now), log, now);
  }

  lemma KeptAreRecent(kept: seq<nat>, log: seq<nat>, now: nat)
    requires Limited(kept, log, now) && (kept != [] ==> kept[0] + WINDOW >= now)
    ensures Recent(log, now) == |kept|
  {
    var stale := |log| - |kept|;
    forall i | stale <= i < |log|
      ensures log[i] + WINDOW >= now
    {
      assert log[stale] == kept[0];
    }
    RecentAre(log, now, stale);
  }

  // ── How long a key is good ───────────────────────────────────────

  lemma {:induction false} TableAppends(t: Table, es: seq<Event>, e: Event)
    ensures Tabled(t, es + [e]) == Update(Tabled(t, es), e)
    decreases |es|
  {
    if es == [] {
      assert es + [e] == [e] && [e][1..] == [];
    } else {
      assert (es + [e])[1..] == es[1..] + [e];
      TableAppends(Update(t, es[0]), es[1..], e);
    }
  }

  /** The table before event `n`. */
  function TableAt(es: seq<Event>, n: nat): Table
    requires n <= |es|
  {
    Tabled(map[], es[..n])
  }

  lemma TableMoves(es: seq<Event>, n: nat)
    requires FreshRun(es) && n < |es|
    ensures TableAt(es, n + 1) == Update(TableAt(es, n), es[n])
    ensures es[n].Create? ==> es[n].key.id !in TableAt(es, n)
  {
    assert es[..n + 1] == es[..n] + [es[n]] && es == es[..n] + es[n..];
    TableAppends(map[], es[..n], es[n]);
    RunSplits(EMPTY, {}, {}, es[..n], es[n..]);
    RunKeepsMirror(EMPTY, map[], {}, {}, es[..n]);
  }

  /** Since event `k` created the key, nothing has revoked or deleted it. */
  ghost predicate KeptSince(es: seq<Event>, k: nat, n: nat, id: Id) {
    k < n <= |es| && es[k].Create? && es[k].key.id == id
    && forall i :: k < i < n ==> es[i] != Revoked(id) && es[i] != Deleted(id)
  }

  lemma {:induction false} KeptKeyIsOnRecord(es: seq<Event>, k: nat, n: nat, id: Id)
    requires FreshRun(es) && KeptSince(es, k, n, id)
    ensures var t := TableAt(es, n);
            id in t && t[id].key == es[k].key.(keyHash := t[id].key.keyHash)
    decreases n
  {
    TableMoves(es, n - 1);
    if n - 1 > k {
      KeptKeyIsOnRecord(es, k, n - 1, id);
    }
  }

  /** Event `r` gave the key its hash, and nothing has rotated it since. */
  ghost predicate SetAt(es: seq<Event>, r: nat, n: nat, id: Id, raw: string) {
    r < n <= |es|
    && ((es[r].Create? && es[r].key.id == id && es[r].key.keyHash == HashKey(raw))
        || (es[r].Rotated? && es[r].id == id && es[r].newHash == HashKey(raw)))
    && forall i :: r < i < n ==> !(es[i].Rotated? && es[i].id == id)
  }

  lemma {:induction false} SetHashIsOnRecord(es: seq<Event>, k: nat, r: nat, n: nat, id: Id, raw: string)
    requires FreshRun(es) && KeptSince(es, k, n, id) && k <= r && SetAt(es, r, n, id, raw)
    ensures var t := TableAt(es, n);
            id in t && t[id].key.keyHash == HashKey(raw) && t[id].cachedAt == es[r].at
    decreases n
  {
    TableMoves(es, n - 1);
    if n - 1 > r {
      SetHashIsOnRecord(es, k, r, n - 1, id, raw);
    } else if r > k {
      KeptKeyIsOnRecord(es, k, r, id);
    }
  }

  /** A key created with so many days to live, never revoked or deleted, validates under the raw key it last got
      exactly for thirty seconds from then on, and up to and including the instant those days are over. */
  lemma KeyIsGoodExactlyWhen(es: seq<Event>, k: nat, r: nat, id: Id, first: string, name: string, days: Option<nat>,
                             scopes: seq<string>, created: int, raw: string, now: nat, wall: int)
    requires FreshRun(es) && KeptSince(es, k, |es|, id) && es[k].key == NewKey(id, first, name, days, scopes, created)
    requires k <= r && SetAt(es, r, |es|, id, raw)
    ensures Validate(Run(EMPTY, es), raw, now, wall).Some? <==>
              now < es[r].at + 30_000_000_000 && (days.Some? ==> wall <= created + days.value * 86_400_000_000_000)
    ensures Validate(Run(EMPTY, es), raw, now, wall).Some? ==>
              var key := Validate(Run(EMPTY, es), raw, now, wall).value;
              key.id == id && key.name == name && key.scopes == scopes && key.enabled && key.keyHash == HashKey(raw)
  {
    assert es[..|es|] == es;
    KeptKeyIsOnRecord(es, k, |es|, id);
    SetHashIsOnRecord(es, k, r, |es|, id, raw);
    RunKeepsMirror(EMPTY, map[], {}, {}, es);
  }
}
