/** The namespaced key-value store with per-entry expiry (gateway/src/kv_store.rs), without Redis.
    Instants are nanoseconds. */
module KvStore {
  import opened Common

  type Bytes = seq<bv8>

  datatype Config = Config(maxKeys: nat, maxValueSize: nat, maxNamespaces: nat)

  datatype Entry = Entry(value: Bytes, expiresAt: Option<nat>)

  type Namespace = map<string, Entry>
  type Namespaces = map<string, Namespace>

  predicate Expired(e: Entry, now: nat) { e.expiresAt.Some? && now > e.expiresAt.value }

  predicate Stored(s: Namespaces, ns: string, key: string) { ns in s && key in s[ns] }

  function Get(s: Namespaces, ns: string, key: string, now: nat): (Namespaces, Option<Bytes>) {
    if !Stored(s, ns, key) then (s, None)
    else if Expired(s[ns][key], now) then (s[ns := s[ns] - {key}], None)
    else (s, Some(s[ns][key].value))
  }

  function ExpiryOf(ttlSecs: Option<nat>, now: nat): Option<nat> {
    if ttlSecs.Some? then Some(now + ttlSecs.value * NANOS_PER_SEC) else None
  }

  function Put(s: Namespaces, cfg: Config, ns: string, key: string, e: Entry): (Namespaces, bool) {
    if |e.value| > cfg.maxValueSize then (s, false)
    else if ns !in s && |s| >= cfg.maxNamespaces then (s, false)
    else
      var t := if ns in s then s else s[ns := map[]];
      if key !in t[ns] && |t[ns]| >= cfg.maxKeys then (t, false)
      else (t[ns := t[ns][key := e]], true)
  }

  function Delete(s: Namespaces, ns: string, key: string): (Namespaces, bool) {
    if Stored(s, ns, key) then (s[ns := s[ns] - {key}], true) else (s, false)
  }

  function ListKeys(s: Namespaces, ns: string, prefix: Option<string>, now: nat): set<string> {
    if ns !in s then {}
    else set key | key in s[ns] && !Expired(s[ns][key], now) && (prefix.Some? ==> prefix.value <= key) :: key
  }

  function Unexpired(n: Namespace, now: nat): Namespace {
    map key | key in n && !Expired(n[key], now) :: n[key]
  }

  function Cleanup(s: Namespaces, now: nat): Namespaces {
    map ns | ns in s :: Unexpired(s[ns], now)
  }

  class Store {
    var namespaces: Namespaces
    const cfg: Config

    constructor (cfg: Config)
      ensures this.cfg == cfg && namespaces == map[]
    {
      this.cfg := cfg;
      namespaces := map[];
    }

    method GetValue(ns: string, key: string, now: nat) returns (r: Option<Bytes>)
      modifies this
      ensures (namespaces, r) == Get(old(namespaces), ns, key, now)
    {
      if ns !in namespaces || key !in namespaces[ns] {
        return None;
      }
      var entry := namespaces[ns][key];
      if Expired(entry, now) {
        namespaces := namespaces[ns := namespaces[ns] - {key}];
        return None;
      }
      return Some(entry.value);
    }

    method PutValue(ns: string, key: string, value: Bytes, ttlSecs: Option<nat>, now: nat) returns (ok: bool)
      modifies this
      ensures (namespaces, ok) == Put(old(namespaces), cfg, ns, key, Entry(value, ExpiryOf(ttlSecs, now)))
    {
      if |value| > cfg.maxValueSize {
        return false;
      }
      if ns !in namespaces && |namespaces| >= cfg.maxNamespaces {
        return false;
      }
      if ns !in namespaces {
        namespaces := namespaces[ns := map[]];
      }
      if key !in namespaces[ns] {
        var currentLen := |namespaces[ns]|;
        if currentLen >= cfg.maxKeys {
          return false;
        }
      }
      namespaces := namespaces[ns := namespaces[ns][key := Entry(value, ExpiryOf(ttlSecs, now))]];
      return true;
    }

    method DeleteKey(ns: string, key: string) returns (removed: bool)
      modifies this
      ensures (namespaces, removed) == Delete(old(namespaces), ns, key)
    {
      if ns !in namespaces {
        return false;
      }
      removed := key in namespaces[ns];
      if removed {
        namespaces := namespaces[ns := namespaces[ns] - {key}];
      }
    }

    method List(ns: string, prefix: Option<string>, now: nat) returns (keys: set<string>)
      ensures keys == ListKeys(namespaces, ns, prefix, now)
    {
      if ns !in namespaces {
        return {};
      }
      keys := set key | key in namespaces[ns] && !Expired(namespaces[ns][key], now)
        && (prefix.Some? ==> prefix.value <= key);
    }

    /** Goes through the namespaces one by one, in any order. */
    method CleanupExpired(now: nat)
      modifies this
      ensures namespaces == Cleanup(old(namespaces), now)
    {
      var todo := namespaces.Keys;
      while todo != {}
        invariant todo <= namespaces.Keys == old(namespaces).Keys
        invariant forall ns | ns in namespaces ::
                    namespaces[ns] == if ns in todo then old(namespaces)[ns] else Unexpired(old(namespaces)[ns], now)
        decreases |todo|
      {
        var ns :| ns in todo;
        namespaces := namespaces[ns := Unexpired(namespaces[ns], now)];
        todo := todo - {ns};
      }
    }
  }

  // ── Refinement of a timed map ────────────────────────────────────

  /** The last successful, undeleted put under each name. */
  type TimedMap = map<(string, string), Entry>

  function Lookup(m: TimedMap, ns: string, key: string, now: nat): Option<Bytes> {
    if (ns, key) in m && !Expired(m[(ns, key)], now) then Some(m[(ns, key)].value) else None
  }

  datatype Op =
    | DoGet(ns: string, key: string, at: nat)
    | DoPut(ns: string, key: string, entry: Entry, at: nat)
    | DoDelete(ns: string, key: string, at: nat)
    | DoCleanup(at: nat)

  function Perform(s: Namespaces, cfg: Config, op: Op): Namespaces {
    match op
    case DoGet(ns, key, at) => Get(s, ns, key, at).0
    case DoPut(ns, key, e, _) => Put(s, cfg, ns, key, e).0
    case DoDelete(ns, key, _) => Delete(s, ns, key).0
    case DoCleanup(at) => Cleanup(s, at)
  }

  /** Reads and cleanups do not touch the timed map, nor does a put that is refused. */
  function Intend(m: TimedMap, s: Namespaces, cfg: Config, op: Op): TimedMap {
    match op
    case DoPut(ns, key, e, _) => if Put(s, cfg, ns, key, e).1 then m[(ns, key) := e] else m
    case DoDelete(ns, key, _) => m - {(ns, key)}
    case _ => m
  }

  /** The store holds nothing but the map's entries, and lacks only expired ones. */
  ghost predicate Refines(s: Namespaces, m: TimedMap, clock: nat) {
    && (forall ns, key | Stored(s, ns, key) :: (ns, key) in m && m[(ns, key)] == s[ns][key])
    && (forall name | name in m && !Expired(m[name], clock) :: Stored(s, name.0, name.1))
  }

  ghost predicate WithinCaps(s: Namespaces, cfg: Config) {
    |s| <= cfg.maxNamespaces && forall ns | ns in s :: |s[ns]| <= cfg.maxKeys
  }

  lemma RefinementSurvivesTime(s: Namespaces, m: TimedMap, clock: nat, now: nat)
    requires Refines(s, m, clock) && clock <= now
    ensures Refines(s, m, now)
  {
  }

  lemma GetKeepsRefinement(s: Namespaces, m: TimedMap, ns: string, key: string, now: nat)
    requires Refines(s, m, now)
    ensures Refines(Get(s, ns, key, now).0, m, now)
  {
    var t := Get(s, ns, key, now).0;
    forall name | name in m && !Expired(m[name], now)
      ensures Stored(t, name.0, name.1)
    {
      assert Stored(s, name.0, name.1);
      assert (name.0, name.1) == name;
    }
    assert forall n, k | Stored(t, n, k) :: Stored(s, n, k) && t[n][k] == s[n][k];
  }

  lemma PutKeepsRefinement(s: Namespaces, m: TimedMap, cfg: Config, ns: string, key: string, e: Entry, now: nat)
    requires Refines(s, m, now)
    ensures var (t, ok) := Put(s, cfg, ns, key, e);
            Refines(t, if ok then m[(ns, key) := e] else m, now)
  {
    var (t, ok) := Put(s, cfg, ns, key, e);
    var m' := if ok then m[(ns, key) := e] else m;
    forall n, k | Stored(t, n, k)
      ensures (n, k) in m' && m'[(n, k)] == t[n][k]
    {
      if !(ok && n == ns && k == key) {
        assert Stored(s, n, k);
      }
    }
    forall name | name in m' && !Expired(m'[name], now)
      ensures Stored(t, name.0, name.1)
    {
      if name != (ns, key) || !ok {
        assert Stored(s, name.0, name.1);
      }
    }
  }

  lemma DeleteKeepsRefinement(s: Namespaces, m: TimedMap, ns: string, key: string, now: nat)
    requires Refines(s, m, now)
    ensures Refines(Delete(s, ns, key).0, m - {(ns, key)}, now)
  {
    var t := Delete(s, ns, key).0;
    forall n, k | Stored(t, n, k)
      ensures (n, k) in m - {(ns, key)} && m[(n, k)] == t[n][k]
    {
      assert Stored(s, n, k);
    }
    forall name | name in m - {(ns, key)} && !Expired(m[name], now)
      ensures Stored(t, name.0, name.1)
    {
      assert Stored(s, name.0, name.1);
      assert (name.0, name.1) == name;
    }
  }

  lemma CleanupKeepsRefinement(s: Namespaces, m: TimedMap, now: nat)
    requires Refines(s, m, now)
    ensures Refines(Cleanup(s, now), m, now)
  {
    var t := Cleanup(s, now);
    forall n, k | Stored(t, n, k)
      ensures (n, k) in m && m[(n, k)] == t[n][k]
    {
      assert Stored(s, n, k);
    }
    forall name | name in m && !Expired(m[name], now)
      ensures Stored(t, name.0, name.1)
    {
      assert Stored(s, name.0, name.1);
      assert (name.0, name.1) == name;
    }
  }

  lemma ShrinkKeepsCaps(s: Namespaces, t: Namespaces, cfg: Config)
    requires WithinCaps(s, cfg) && t.Keys == s.Keys && forall ns | ns in s :: t[ns].Keys <= s[ns].Keys
    ensures WithinCaps(t, cfg)
  {
    assert |t| == |t.Keys| == |s.Keys|;
    forall ns | ns in t
      ensures |t[ns]| <= cfg.maxKeys
    {
      FewerKeys(t[ns], s[ns]);
    }
  }

  lemma InsertKeepsCaps(s: Namespaces, cfg: Config, ns: string, n: Namespace)
    requires WithinCaps(s, cfg) && |n| <= cfg.maxKeys
    requires ns in s || |s| < cfg.maxNamespaces
    ensures WithinCaps(s[ns := n], cfg)
  {
    var t := s[ns := n];
    assert t.Keys == s.Keys + {ns};
    assert |t.Keys| == |t| && |s.Keys| == |s|;
    assert ns in s ==> t.Keys == s.Keys;
  }

  lemma PutKeepsCaps(s: Namespaces, cfg: Config, ns: string, key: string, e: Entry)
    requires WithinCaps(s, cfg)
    ensures WithinCaps(Put(s, cfg, ns, key, e).0, cfg)
  {
    if |e.value| <= cfg.maxValueSize && (ns in s || |s| < cfg.maxNamespaces) {
      var t := if ns in s then s else s[ns := map[]];
      if ns !in s { InsertKeepsCaps(s, cfg, ns, map[]); }
      assert WithinCaps(t, cfg) && |t[ns]| <= cfg.maxKeys;
      if key in t[ns] || |t[ns]| < cfg.maxKeys {
        BindingSize(t[ns], key, e);
        InsertKeepsCaps(t, cfg, ns, t[ns][key := e]);
      }
    }
  }

  lemma PerformKeepsCaps(s: Namespaces, cfg: Config, op: Op)
    requires WithinCaps(s, cfg)
    ensures WithinCaps(Perform(s, cfg, op), cfg)
  {
    match op
    case DoPut(ns, key, e, _) => PutKeepsCaps(s, cfg, ns, key, e);
    case DoGet(ns, key, at) => RemovalKeepsCaps(s, Get(s, ns, key, at).0, cfg, ns, key);
    case DoDelete(ns, key, _) => RemovalKeepsCaps(s, Delete(s, ns, key).0, cfg, ns, key);
    case DoCleanup(at) => ShrinkKeepsCaps(s, Cleanup(s, at), cfg);
  }

  lemma RemovalKeepsCaps(s: Namespaces, t: Namespaces, cfg: Config, ns: string, key: string)
    requires WithinCaps(s, cfg) && (t == s || (ns in s && t == s[ns := s[ns] - {key}]))
    ensures WithinCaps(t, cfg)
  {
    ShrinkKeepsCaps(s, t, cfg);
  }

  ghost predicate Timed(clock: nat, ops: seq<Op>)
    decreases |ops|
  {
    ops == [] || (clock <= ops[0].at && Timed(ops[0].at, ops[1..]))
  }

  function Run(s: Namespaces, cfg: Config, ops: seq<Op>): Namespaces
    decreases |ops|
  {
    if ops == [] then s else Run(Perform(s, cfg, ops[0]), cfg, ops[1..])
  }

  function Intended(m: TimedMap, s: Namespaces, cfg: Config, ops: seq<Op>): TimedMap
    decreases |ops|
  {
    if ops == [] then m else Intended(Intend(m, s, cfg, ops[0]), Perform(s, cfg, ops[0]), cfg, ops[1..])
  }

  function End(clock: nat, ops: seq<Op>): nat {
    if ops == [] then clock else ops[|ops| - 1].at
  }

  lemma {:induction false} RunKeepsRefinement(s: Namespaces, m: TimedMap, cfg: Config, clock: nat, ops: seq<Op>)
    requires Refines(s, m, clock) && WithinCaps(s, cfg) && Timed(clock, ops)
    ensures Refines(Run(s, cfg, ops), Intended(m, s, cfg, ops), End(clock, ops)) && WithinCaps(Run(s, cfg, ops), cfg)
    decreases |ops|
  {
    if ops != [] {
      var now := ops[0].at;
      RefinementSurvivesTime(s, m, clock, now);
      PerformKeepsCaps(s, cfg, ops[0]);
      match ops[0] {
        case DoGet(ns, key, at) => GetKeepsRefinement(s, m, ns, key, at);
        case DoPut(ns, key, e, at) => PutKeepsRefinement(s, m, cfg, ns, key, e, at);
        case DoDelete(ns, key, at) => DeleteKeepsRefinement(s, m, ns, key, at);
        case DoCleanup(at) => CleanupKeepsRefinement(s, m, at);
      }
      RunKeepsRefinement(Perform(s, cfg, ops[0]), Intend(m, s, cfg, ops[0]), cfg, now, ops[1..]);
    }
  }

  /** After any run, `get` returns the last successful, undeleted, unexpired put, and `list_keys` lists
      exactly the keys `get` would answer. The caps hold throughout. */
  lemma StoreRefinesTimedMap(cfg: Config, ops: seq<Op>, ns: string, prefix: Option<string>, key: string, now: nat)
    requires Timed(0, ops) && End(0, ops) <= now
    ensures var s, m := Run(map[], cfg, ops), Intended(map[], map[], cfg, ops);
            && Get(s, ns, key, now).1 == Lookup(m, ns, key, now)
            && (key in ListKeys(s, ns, prefix, now) <==>
                  Lookup(m, ns, key, now).Some? && (prefix.Some? ==> prefix.value <= key))
            && WithinCaps(s, cfg)
  {
    RunKeepsRefinement(map[], map[], cfg, 0, ops);
    var s, m := Run(map[], cfg, ops), Intended(map[], map[], cfg, ops);
    RefinementSurvivesTime(s, m, End(0, ops), now);
    if (ns, key) in m && !Expired(m[(ns, key)], now) {
      assert Stored(s, (ns, key).0, (ns, key).1);
    }
  }

  // ── When reads and cleanups go unnoticed ─────────────────────────

  predicate Writes(op: Op) { op.DoPut? || op.DoDelete? }

  /** The puts and deletions alone. */
  function Erased(ops: seq<Op>): seq<Op> {
    if ops == [] then []
    else (if Writes(ops[0]) then [ops[0]] else []) + Erased(ops[1..])
  }

  /** The put finds its namespace full. */
  predicate KeyLimitHit(s: Namespaces, cfg: Config, op: Op) {
    && op.DoPut? && |op.entry.value| <= cfg.maxValueSize && (op.ns in s || |s| < cfg.maxNamespaces)
    && !Put(s, cfg, op.ns, op.key, op.entry).1
  }

  /** It does, and some of what fills it has expired. */
  ghost predicate StaleRefusal(s: Namespaces, cfg: Config, op: Op) {
    KeyLimitHit(s, cfg, op) && op.ns in s && exists key :: key in s[op.ns] && Expired(s[op.ns][key], op.at)
  }

  /** The deletion finds an expired entry. */
  predicate StaleDeletion(s: Namespaces, op: Op) {
    op.DoDelete? && Stored(s, op.ns, op.key) && Expired(s[op.ns][op.key], op.at)
  }

  /** The answer of the write depends on an expired entry. Answers of deletions may count or not. */
  ghost predicate Tells(s: Namespaces, cfg: Config, op: Op, deletions: bool) {
    StaleRefusal(s, cfg, op) || (deletions && StaleDeletion(s, op))
  }

  ghost predicate NoneTells(s: Namespaces, cfg: Config, ops: seq<Op>, deletions: bool)
    decreases |ops|
  {
    ops == [] || (!Tells(s, cfg, ops[0], deletions) && NoneTells(Perform(s, cfg, ops[0]), cfg, ops[1..], deletions))
  }

  function Verdict(s: Namespaces, cfg: Config, op: Op, deletions: bool): seq<bool> {
    if op.DoPut? then [Put(s, cfg, op.ns, op.key, op.entry).1]
    else if op.DoDelete? && deletions then [Delete(s, op.ns, op.key).1]
    else []
  }

  /** The answers the puts of a run receive, and the deletions if they count. */
  function Verdicts(s: Namespaces, cfg: Config, ops: seq<Op>, deletions: bool): seq<bool>
    decreases |ops|
  {
    if ops == [] then []
    else Verdict(s, cfg, ops[0], deletions) + Verdicts(Perform(s, cfg, ops[0]), cfg, ops[1..], deletions)
  }

  /** `s` lacks only entries of `full` that have expired, and no namespace. */
  ghost predicate Thinned(s: Namespaces, full: Namespaces, clock: nat) {
    && s.Keys == full.Keys
    && (forall ns, key | Stored(s, ns, key) :: Stored(full, ns, key) && full[ns][key] == s[ns][key])
    && (forall ns, key | Stored(full, ns, key) && !Expired(full[ns][key], clock) :: Stored(s, ns, key))
  }

  lemma ThinnedLater(s: Namespaces, full: Namespaces, clock: nat, now: nat)
    requires Thinned(s, full, clock) && clock <= now
    ensures Thinned(s, full, now)
  {
  }

  lemma ReadingThins(s: Namespaces, full: Namespaces, cfg: Config, op: Op)
    requires Thinned(s, full, op.at) && (op.DoGet? || op.DoCleanup?)
    ensures Thinned(Perform(s, cfg, op), full, op.at)
  {
    var t := Perform(s, cfg, op);
    forall ns, key | Stored(t, ns, key)
      ensures Stored(full, ns, key) && full[ns][key] == t[ns][key]
    {
      assert Stored(s, ns, key);
    }
    forall ns, key | Stored(full, ns, key) && !Expired(full[ns][key], op.at)
      ensures Stored(t, ns, key)
    {
      assert Stored(s, ns, key);
    }
  }

  lemma DeletingKeepsThinned(s: Namespaces, full: Namespaces, ns: string, key: string, now: nat)
    requires Thinned(s, full, now)
    ensures Thinned(Delete(s, ns, key).0, Delete(full, ns, key).0, now)
  {
    var t, u := Delete(s, ns, key).0, Delete(full, ns, key).0;
    forall n, k | Stored(t, n, k)
      ensures Stored(u, n, k) && u[n][k] == t[n][k]
    {
      assert Stored(s, n, k);
    }
    forall n, k | Stored(u, n, k) && !Expired(u[n][k], now)
      ensures Stored(t, n, k)
    {
      assert Stored(full, n, k) && Stored(s, n, k);
    }
  }

  /** Unless it is refused for the sake of an expired entry, a put goes the same way in both. */
  lemma PuttingKeepsThinned(s: Namespaces, full: Namespaces, cfg: Config, ns: string, key: string, e: Entry, now: nat)
    requires Thinned(s, full, now) && WithinCaps(full, cfg) && !StaleRefusal(full, cfg, DoPut(ns, key, e, now))
    ensures Put(s, cfg, ns, key, e).1 == Put(full, cfg, ns, key, e).1
    ensures Thinned(Put(s, cfg, ns, key, e).0, Put(full, cfg, ns, key, e).0, now)
  {
    assert |s| == |s.Keys| == |full.Keys| == |full|;
    if |e.value| <= cfg.maxValueSize && (ns in s || |s| < cfg.maxNamespaces) {
      PutWithRoom(full, cfg, ns, key, e);
      PutWithRoom(s, cfg, ns, key, e);
      if Put(full, cfg, ns, key, e).1 {
        RoomInThinned(s, full, ns, key, now);
        BindingKeepsThinned(s, full, Put(s, cfg, ns, key, e).0, Put(full, cfg, ns, key, e).0, ns, key, e, now);
      } else if ns in s {
        SameWhenUnexpired(s, full, ns, now);
      } else {
        EmptyKeepsThinned(s, full, ns, now);
      }
    }
  }

  lemma SameWhenUnexpired(s: Namespaces, full: Namespaces, ns: string, now: nat)
    requires Thinned(s, full, now) && ns in s && forall key | key in full[ns] :: !Expired(full[ns][key], now)
    ensures s[ns] == full[ns]
  {
    assert forall key | key in s[ns] :: Stored(s, ns, key);
    assert forall key | key in full[ns] :: Stored(full, ns, key);
  }

  lemma EmptyKeepsThinned(s: Namespaces, full: Namespaces, ns: string, now: nat)
    requires Thinned(s, full, now) && ns !in s
    ensures Thinned(s[ns := map[]], full[ns := map[]], now)
  {
    var t, u := s[ns := map[]], full[ns := map[]];
    forall n, k | Stored(t, n, k)
      ensures Stored(u, n, k) && u[n][k] == t[n][k]
    {
      assert Stored(s, n, k);
    }
    forall n, k | Stored(u, n, k) && !Expired(u[n][k], now)
      ensures Stored(t, n, k)
    {
      assert Stored(full, n, k) && Stored(s, n, k);
    }
  }

  lemma PutWithRoom(s: Namespaces, cfg: Config, ns: string, key: string, e: Entry)
    requires |e.value| <= cfg.maxValueSize && (ns in s || |s| < cfg.maxNamespaces)
    ensures var n := if ns in s then s[ns] else map[];
            && (Put(s, cfg, ns, key, e).1 <==> key in n || |n| < cfg.maxKeys)
            && Put(s, cfg, ns, key, e).0 ==
                 if Put(s, cfg, ns, key, e).1 then s[ns := n[key := e]] else if ns in s then s else s[ns := map[]]
  {
  }

  /** The same entry put into both. */
  lemma BindingKeepsThinned(s: Namespaces, full: Namespaces, t: Namespaces, u: Namespaces, ns: string, key: string,
                            e: Entry, now: nat)
    requires Thinned(s, full, now)
    requires t == s[ns := (if ns in s then s[ns] else map[])[key := e]]
    requires u == full[ns := (if ns in full then full[ns] else map[])[key := e]]
    ensures Thinned(t, u, now)
  {
    forall n, k | Stored(t, n, k)
      ensures Stored(u, n, k) && u[n][k] == t[n][k]
    {
      assert (n, k) != (ns, key) ==> Stored(s, n, k);
    }
    forall n, k | Stored(u, n, k) && !Expired(u[n][k], now)
      ensures Stored(t, n, k)
    {
      assert (n, k) != (ns, key) ==> Stored(full, n, k) && Stored(s, n, k);
    }
  }

  lemma WritingKeepsThinned(s: Namespaces, full: Namespaces, cfg: Config, op: Op)
    requires Thinned(s, full, op.at) && WithinCaps(full, cfg) && !StaleRefusal(full, cfg, op) && Writes(op)
    ensures Thinned(Perform(s, cfg, op), Perform(full, cfg, op), op.at)
  {
    match op
    case DoPut(ns, key, e, at) => PuttingKeepsThinned(s, full, cfg, ns, key, e, at);
    case DoDelete(ns, key, at) => DeletingKeepsThinned(s, full, ns, key, at);
  }

  lemma RoomInThinned(s: Namespaces, full: Namespaces, ns: string, key: string, now: nat)
    requires Thinned(s, full, now)
    ensures ns in s ==> |s[ns]| <= |full[ns]| && (key in full[ns] && key !in s[ns] ==> |s[ns]| < |full[ns]|)
  {
    if ns in s {
      assert forall k | k in s[ns] :: Stored(s, ns, k);
      FewerKeys(s[ns], full[ns]);
      if key in full[ns] && key !in s[ns] {
        FewerKeys(s[ns], full[ns] - {key});
        RemovalSize(full[ns], key);
      }
    }
  }

  lemma DeletingAnswersAlike(s: Namespaces, full: Namespaces, op: Op)
    requires Thinned(s, full, op.at) && op.DoDelete? && !StaleDeletion(full, op)
    ensures Delete(s, op.ns, op.key).1 == Delete(full, op.ns, op.key).1
  {
    assert Stored(s, op.ns, op.key) ==> Stored(full, op.ns, op.key);
  }

  lemma StepKeepsThinned(s: Namespaces, full: Namespaces, next: Namespaces, cfg: Config, clock: nat, op: Op,
                         deletions: bool)
    requires Thinned(s, full, clock) && WithinCaps(full, cfg) && clock <= op.at
    requires if Writes(op) then !Tells(full, cfg, op, deletions) && next == Perform(full, cfg, op) else next == full
    ensures Thinned(Perform(s, cfg, op), next, op.at) && WithinCaps(next, cfg)
    ensures Verdict(s, cfg, op, deletions) == Verdict(full, cfg, op, deletions)
  {
    ThinnedLater(s, full, clock, op.at);
    if Writes(op) {
      WritingKeepsThinned(s, full, cfg, op);
      PerformKeepsCaps(full, cfg, op);
      if op.DoPut? {
        PuttingKeepsThinned(s, full, cfg, op.ns, op.key, op.entry, op.at);
      } else if deletions {
        DeletingAnswersAlike(s, full, op);
      }
    } else {
      ReadingThins(s, full, cfg, op);
    }
  }

  lemma {:induction false} RunKeepsThinned(s: Namespaces, full: Namespaces, cfg: Config, clock: nat, ops: seq<Op>,
                                           deletions: bool)
    requires Thinned(s, full, clock) && WithinCaps(full, cfg) && Timed(clock, ops)
    requires NoneTells(full, cfg, Erased(ops), deletions)
    ensures Thinned(Run(s, cfg, ops), Run(full, cfg, Erased(ops)), End(clock, ops))
    ensures Verdicts(s, cfg, ops, deletions) == Verdicts(full, cfg, Erased(ops), deletions)
    decreases |ops|
  {
    if ops != [] {
      var op, rest := ops[0], ops[1..];
      var next := if Writes(op) then Perform(full, cfg, op) else full;
      ErasedUnfolds(full, next, cfg, ops, deletions);
      StepKeepsThinned(s, full, next, cfg, clock, op, deletions);
      EndUnfolds(clock, ops);
      RunKeepsThinned(Perform(s, cfg, op), next, cfg, op.at, rest, deletions);
    }
  }

  lemma EndUnfolds(clock: nat, ops: seq<Op>)
    requires ops != []
    ensures End(clock, ops) == End(ops[0].at, ops[1..])
  {
  }

  lemma ErasedUnfolds(full: Namespaces, next: Namespaces, cfg: Config, ops: seq<Op>, deletions: bool)
    requires ops != [] && next == (if Writes(ops[0]) then Perform(full, cfg, ops[0]) else full)
    ensures Run(full, cfg, Erased(ops)) == Run(next, cfg, Erased(ops[1..]))
    ensures NoneTells(full, cfg, Erased(ops), deletions) ==>
              NoneTells(next, cfg, Erased(ops[1..]), deletions)
                && !(Writes(ops[0]) && Tells(full, cfg, ops[0], deletions))
    ensures Verdicts(full, cfg, Erased(ops), deletions)
         == Verdict(full, cfg, ops[0], deletions) + Verdicts(next, cfg, Erased(ops[1..]), deletions)
  {
    var rest := Erased(ops[1..]);
    if Writes(ops[0]) {
      assert Erased(ops) == [ops[0]] + rest;
      assert Erased(ops)[0] == ops[0] && Erased(ops)[1..] == rest;
    } else {
      assert Erased(ops) == rest;
    }
  }

  /** Leaving all reads and cleanups out of a run changes the answer to no put, and no later `get` or
      `list_keys`, provided that without them no put is refused for the sake of an expired entry. Nor does it
      change the answer to a deletion, if none of them finds an expired entry. */
  lemma ReadsAndCleanupsGoUnnoticed(cfg: Config, ops: seq<Op>, deletions: bool,
                                    ns: string, prefix: Option<string>, key: string, now: nat)
    requires Timed(0, ops) && End(0, ops) <= now && NoneTells(map[], cfg, Erased(ops), deletions)
    ensures Verdicts(map[], cfg, ops, deletions) == Verdicts(map[], cfg, Erased(ops), deletions)
    ensures var s, full := Run(map[], cfg, ops), Run(map[], cfg, Erased(ops));
            && Get(s, ns, key, now).1 == Get(full, ns, key, now).1
            && (key in ListKeys(s, ns, prefix, now) <==> key in ListKeys(full, ns, prefix, now))
  {
    RunKeepsThinned(map[], map[], cfg, 0, ops, deletions);
    var s, full := Run(map[], cfg, ops), Run(map[], cfg, Erased(ops));
    ThinnedLater(s, full, End(0, ops), now);
    assert Stored(s, ns, key) ==> Stored(full, ns, key) && full[ns][key] == s[ns][key];
    assert Stored(full, ns, key) && !Expired(full[ns][key], now) ==> Stored(s, ns, key);
  }

  lemma PruningShrinks(n: Namespace, key: string, now: nat)
    requires key in n && Expired(n[key], now)
    ensures |Unexpired(n, now)| < |n|
  {
    FewerKeys(Unexpired(n, now), n - {key});
    RemovalSize(n, key);
  }

  /** A cleanup just before a stale refusal lets the put through. */
  lemma CleanupMakesRoom(s: Namespaces, cfg: Config, op: Op)
    requires WithinCaps(s, cfg) && StaleRefusal(s, cfg, op)
    ensures Put(Cleanup(s, op.at), cfg, op.ns, op.key, op.entry).1
  {
    var key :| key in s[op.ns] && Expired(s[op.ns][key], op.at);
    PruningShrinks(s[op.ns], key, op.at);
    PutWithRoom(Cleanup(s, op.at), cfg, op.ns, op.key, op.entry);
  }

  /** A cleanup just before a write that tells changes its answer. */
  lemma CleanupChangesVerdict(s: Namespaces, cfg: Config, op: Op, deletions: bool)
    requires WithinCaps(s, cfg) && Tells(s, cfg, op, deletions)
    ensures |Verdict(s, cfg, op, deletions)| == 1
    ensures Verdict(Cleanup(s, op.at), cfg, op, deletions) == [!Verdict(s, cfg, op, deletions)[0]]
  {
    if StaleRefusal(s, cfg, op) {
      CleanupMakesRoom(s, cfg, op);
    }
  }

  /** Two runs with the same puts and deletions that answer some of them differently. */
  ghost predicate ToldApart(s: Namespaces, cfg: Config, clock: nat, writes: seq<Op>, ops: seq<Op>, deletions: bool) {
    Timed(clock, ops) && Erased(ops) == writes
      && Verdicts(s, cfg, ops, deletions) != Verdicts(s, cfg, writes, deletions)
  }

  lemma CleanedHeadIsToldApart(s: Namespaces, cfg: Config, clock: nat, writes: seq<Op>, deletions: bool)
    requires WithinCaps(s, cfg) && Timed(clock, writes) && Erased(writes) == writes
    requires writes != [] && Tells(s, cfg, writes[0], deletions)
    ensures ToldApart(s, cfg, clock, writes, [DoCleanup(writes[0].at)] + writes, deletions)
  {
    var op, rest := writes[0], writes[1..];
    var ops := [DoCleanup(op.at)] + writes;
    assert ops[1..] == writes && writes == [op] + rest;
    CleanupChangesVerdict(s, cfg, op, deletions);
    VerdictsUnfold(s, cfg, DoCleanup(op.at), writes, deletions);
    VerdictsUnfold(s, cfg, op, rest, deletions);
    VerdictsUnfold(Cleanup(s, op.at), cfg, op, rest, deletions);
    assert Verdicts(s, cfg, ops, deletions)[0] == !Verdicts(s, cfg, writes, deletions)[0];
  }

  lemma TailIsToldApart(s: Namespaces, cfg: Config, clock: nat, op: Op, rest: seq<Op>, more: seq<Op>, deletions: bool)
    requires Writes(op) && clock <= op.at && ToldApart(Perform(s, cfg, op), cfg, op.at, rest, more, deletions)
    ensures ToldApart(s, cfg, clock, [op] + rest, [op] + more, deletions)
  {
    assert ([op] + more)[1..] == more;
    VerdictsUnfold(s, cfg, op, more, deletions);
    VerdictsUnfold(s, cfg, op, rest, deletions);
    var t := Perform(s, cfg, op);
    SameHead(Verdict(s, cfg, op, deletions), Verdicts(t, cfg, more, deletions), Verdicts(t, cfg, rest, deletions));
  }

  lemma SameHead(h: seq<bool>, v: seq<bool>, w: seq<bool>)
    requires v != w
    ensures h + v != h + w
  {
    assert (h + v)[|h|..] == v && (h + w)[|h|..] == w;
  }

  /** Among the runs with given puts and deletions, one in which some of them tells is told apart by a run with
      one cleanup more. */
  lemma {:induction false} TellingIsNoticed(s: Namespaces, cfg: Config, clock: nat, writes: seq<Op>, deletions: bool)
    requires WithinCaps(s, cfg) && Timed(clock, writes) && Erased(writes) == writes
             && !NoneTells(s, cfg, writes, deletions)
    ensures exists ops :: ToldApart(s, cfg, clock, writes, ops, deletions)
    decreases |writes|
  {
    var op, rest := writes[0], writes[1..];
    if Tells(s, cfg, op, deletions) {
      CleanedHeadIsToldApart(s, cfg, clock, writes, deletions);
    } else {
      ErasedTail(writes);
      PerformKeepsCaps(s, cfg, op);
      TellingIsNoticed(Perform(s, cfg, op), cfg, op.at, rest, deletions);
      var more :| ToldApart(Perform(s, cfg, op), cfg, op.at, rest, more, deletions);
      TailIsToldApart(s, cfg, clock, op, rest, more, deletions);
      assert writes == [op] + rest;
    }
  }

  lemma ErasedTail(writes: seq<Op>)
    requires Erased(writes) == writes != []
    ensures Writes(writes[0]) && Erased(writes[1..]) == writes[1..]
  {
    ErasedIsShorter(writes[1..]);
    if Writes(writes[0]) {
      assert writes[1..] == ([writes[0]] + Erased(writes[1..]))[1..];
    }
  }

  lemma {:induction false} ErasedIsShorter(ops: seq<Op>)
    ensures |Erased(ops)| <= |ops|
    decreases |ops|
  {
    if ops != [] {
      ErasedIsShorter(ops[1..]);
    }
  }

  lemma VerdictsUnfold(s: Namespaces, cfg: Config, op: Op, rest: seq<Op>, deletions: bool)
    ensures Verdicts(s, cfg, [op] + rest, deletions)
         == Verdict(s, cfg, op, deletions) + Verdicts(Perform(s, cfg, op), cfg, rest, deletions)
  {
    assert ([op] + rest)[1..] == rest;
  }

  /** Given the puts and deletions of a run, no reads and cleanups between them can change the answer to a put
      exactly when none of the puts alone is refused for the sake of an expired entry. They cannot change the
      answer to a deletion either exactly when, moreover, none of the deletions finds an expired entry. */
  lemma GoUnnoticedExactlyWhen(cfg: Config, writes: seq<Op>, deletions: bool)
    requires Timed(0, writes) && Erased(writes) == writes
    ensures NoneTells(map[], cfg, writes, deletions) <==>
              forall ops :: Timed(0, ops) && Erased(ops) == writes ==>
                Verdicts(map[], cfg, ops, deletions) == Verdicts(map[], cfg, writes, deletions)
  {
    if NoneTells(map[], cfg, writes, deletions) {
      forall ops | Timed(0, ops) && Erased(ops) == writes
        ensures Verdicts(map[], cfg, ops, deletions) == Verdicts(map[], cfg, writes, deletions)
      {
        RunKeepsThinned(map[], map[], cfg, 0, ops, deletions);
      }
    } else {
      TellingIsNoticed(map[], cfg, 0, writes, deletions);
      var ops :| ToldApart(map[], cfg, 0, writes, ops, deletions);
      assert Timed(0, ops) && Erased(ops) == writes;
      assert Verdicts(map[], cfg, ops, deletions) != Verdicts(map[], cfg, writes, deletions);
    }
  }

  // ── What refused puts and lazy removal do change ─────────────────

  /** A refused put leaves a trace, an empty namespace, exactly when no keys are allowed at all. */
  lemma RefusedPutCreatesNamespaceExactlyWhen(s: Namespaces, cfg: Config, ns: string, key: string, e: Entry)
    requires !Put(s, cfg, ns, key, e).1
    ensures Put(s, cfg, ns, key, e).0 != s <==>
      ns !in s && |e.value| <= cfg.maxValueSize && |s| < cfg.maxNamespaces && cfg.maxKeys == 0
  {
    assert ns !in s ==> s[ns := map[]] != s;
  }

  /** Otherwise they can be noticed: expired entries count towards the cap until removed, so reading one
      makes room for a new key, which a later `get` then answers. */
  lemma ReadingExpiredKeyMakesRoom(s: Namespaces, cfg: Config, ns: string, stale: string, key: string, e: Entry,
                                   now: nat)
    requires WithinCaps(s, cfg) && ns in s && |s[ns]| == cfg.maxKeys && |e.value| <= cfg.maxValueSize
    requires stale in s[ns] && Expired(s[ns][stale], now) && key !in s[ns]
    ensures KeyLimitHit(s, cfg, DoPut(ns, key, e, now)) && Get(Put(s, cfg, ns, key, e).0, ns, key, now).1 == None
    ensures var (t, ok) := Put(Get(s, ns, stale, now).0, cfg, ns, key, e);
            ok && (!Expired(e, now) ==> Get(t, ns, key, now).1 == Some(e.value))
  {
    var t := Get(s, ns, stale, now).0;
    assert t[ns].Keys == s[ns].Keys - {stale};
    assert |t[ns]| == |t[ns].Keys| && |s[ns]| == |s[ns].Keys|;
  }

  /** A deletion tells whether an expired key is still there, so it notices a read that has removed it. */
  lemma DeletionNoticesReading(s: Namespaces, ns: string, stale: string, now: nat)
    requires Stored(s, ns, stale) && Expired(s[ns][stale], now)
    ensures Delete(s, ns, stale).1 && !Delete(Get(s, ns, stale, now).0, ns, stale).1
  {
  }

  // ── How long a value lasts ───────────────────────────────────────

  predicate Names(op: Op, ns: string, key: string) { (op.DoPut? || op.DoDelete?) && op.ns == ns && op.key == key }

  lemma {:induction false} IntendedStays(s: Namespaces, m: TimedMap, cfg: Config, ops: seq<Op>, ns: string, key: string)
    requires (ns, key) in m && forall op | op in ops :: !Names(op, ns, key)
    ensures var u := Intended(m, s, cfg, ops); (ns, key) in u && u[(ns, key)] == m[(ns, key)]
    decreases |ops|
  {
    if ops != [] {
      assert !Names(ops[0], ns, key);
      IntendedStays(Perform(s, cfg, ops[0]), Intend(m, s, cfg, ops[0]), cfg, ops[1..], ns, key);
    }
  }

  lemma {:induction false} IntendedAfterPut(s: Namespaces, m: TimedMap, cfg: Config, ops: seq<Op>, k: nat)
    requires k < |ops| && ops[k].DoPut? && forall i :: k < i < |ops| ==> !Names(ops[i], ops[k].ns, ops[k].key)
    requires Put(Run(s, cfg, ops[..k]), cfg, ops[k].ns, ops[k].key, ops[k].entry).1
    ensures var u, name := Intended(m, s, cfg, ops), (ops[k].ns, ops[k].key); name in u && u[name] == ops[k].entry
    decreases k
  {
    var t := Perform(s, cfg, ops[0]);
    if k == 0 {
      assert ops[..0] == [];
      IntendedStays(t, Intend(m, s, cfg, ops[0]), cfg, ops[1..], ops[0].ns, ops[0].key);
    } else {
      assert ops[..k][0] == ops[0] && ops[..k][1..] == ops[1..][..k - 1];
      IntendedAfterPut(t, Intend(m, s, cfg, ops[0]), cfg, ops[1..], k - 1);
    }
  }

  /** An accepted put is answered until it is overwritten or deleted, up to and including the instant at which
      its time to live is over, and not after. */
  lemma ValueLastsExactly(cfg: Config, ops: seq<Op>, k: nat, value: Bytes, ttlSecs: Option<nat>, now: nat)
    requires Timed(0, ops) && End(0, ops) <= now && k < |ops| && ops[k].DoPut?
    requires ops[k].entry == Entry(value, ExpiryOf(ttlSecs, ops[k].at))
    requires Put(Run(map[], cfg, ops[..k]), cfg, ops[k].ns, ops[k].key, ops[k].entry).1
    requires forall i :: k < i < |ops| ==> !Names(ops[i], ops[k].ns, ops[k].key)
    ensures Get(Run(map[], cfg, ops), ops[k].ns, ops[k].key, now).1 ==
              if ttlSecs.None? || now <= ops[k].at + ttlSecs.value * 1_000_000_000 then Some(value) else None
  {
    IntendedAfterPut(map[], map[], cfg, ops, k);
    StoreRefinesTimedMap(cfg, ops, ops[k].ns, None, ops[k].key, now);
  }
}
