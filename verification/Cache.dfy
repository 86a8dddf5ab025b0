/** The gateway's bounded content cache (gateway/src/cache.rs): time-to-live entries with
    least-recently-used eviction. Instants and durations are numbers on one scale. */
module Cache {
  import opened Common

  type Bytes = seq<bv8>

  datatype Entry = Entry(data: Bytes, contentType: string, createdAt: nat, lastAccessed: nat, ttl: nat)

  /** What was last put under a key, with no bound on how many keys there are. */
  datatype Record = Record(data: Bytes, contentType: string, createdAt: nat, ttl: nat)

  /** The cache, and two histories: the unbounded map it stands for, and when each key was last touched. */
  datatype State = State(entries: map<string, Entry>, maxEntries: nat, puts: map<string, Record>,
                         touched: map<string, nat>)

  predicate Expired(createdAt: nat, ttl: nat, now: nat) { now > createdAt && now - createdAt > ttl }

  function Unexpired(entries: map<string, Entry>, now: nat): map<string, Entry> {
    map k | k in entries && !Expired(entries[k].createdAt, entries[k].ttl, now) :: entries[k]
  }

  /** The answer of an unbounded map with the same time-to-live rule. */
  function Lookup(puts: map<string, Record>, key: string, now: nat): Option<(Bytes, string)> {
    if key in puts && !Expired(puts[key].createdAt, puts[key].ttl, now)
    then Some((puts[key].data, puts[key].contentType)) else None
  }

  function Get(s: State, key: string, now: nat): (State, Option<(Bytes, string)>) {
    if key !in s.entries || Expired(s.entries[key].createdAt, s.entries[key].ttl, now) then (s, None)
    else
      var e := s.entries[key];
      (s.(entries := s.entries[key := e.(lastAccessed := now)], touched := s.touched[key := now]),
       Some((e.data, e.contentType)))
  }

  predicate LeastRecent(entries: map<string, Entry>, victim: string) {
    victim in entries && forall k | k in entries :: entries[victim].lastAccessed <= entries[k].lastAccessed
  }

  /** Entries once expired ones are dropped, if the cache is full. */
  function Pruned(s: State, now: nat): map<string, Entry> {
    if |s.entries| >= s.maxEntries then Unexpired(s.entries, now) else s.entries
  }

  /** Whether a key has to go, and which ones qualify; ties are broken by the map's iteration order. */
  predicate GoodVictim(s: State, now: nat, victim: Option<string>) {
    var pruned := Pruned(s, now);
    if |pruned| >= s.maxEntries && pruned != map[] then victim.Some? && LeastRecent(pruned, victim.value)
    else victim.None?
  }

  function Put(s: State, key: string, r: Record, now: nat, victim: Option<string>): State {
    var pruned := Pruned(s, now);
    var kept := if victim.Some? then pruned - {victim.value} else pruned;
    s.(entries := kept[key := Entry(r.data, r.contentType, now, now, r.ttl)],
       puts := s.puts[key := r.(createdAt := now)],
       touched := s.touched[key := now])
  }

  function Remove(s: State, key: string): State {
    s.(entries := s.entries - {key}, puts := s.puts - {key})
  }

  function ClearExpired(s: State, now: nat): State {
    s.(entries := Unexpired(s.entries, now))
  }

  class ContentCache {
    var entries: map<string, Entry>
    const maxEntries: nat
    ghost var puts: map<string, Record>
    ghost var touched: map<string, nat>

    ghost function Abs(): State
      reads this
    {
      State(entries, maxEntries, puts, touched)
    }

    constructor (maxEntries: nat)
      ensures Abs() == State(map[], maxEntries, map[], map[])
    {
      this.maxEntries := maxEntries;
      entries, puts, touched := map[], map[], map[];
    }

    method GetContent(key: string, now: nat) returns (r: Option<(Bytes, string)>)
      modifies this
      ensures (Abs(), r) == Get(old(Abs()), key, now)
    {
      if key !in entries {
        return None;
      }
      var entry := entries[key];
      if Expired(entry.createdAt, entry.ttl, now) {
        return None;
      }
      entries := entries[key := entry.(lastAccessed := now)];
      touched := touched[key := now];
      return Some((entry.data, entry.contentType));
    }

    method SetWithTtl(key: string, data: Bytes, contentType: string, ttl: nat, now: nat)
      returns (victim: Option<string>)
      modifies this
      ensures GoodVictim(old(Abs()), now, victim)
      ensures Abs() == Put(old(Abs()), key, Record(data, contentType, now, ttl), now, victim)
    {
      if |entries| >= maxEntries {
        entries := Unexpired(entries, now);
      }
      victim := None;
      if |entries| >= maxEntries && entries != map[] {
        var lru := FindLeastRecent();
        victim := Some(lru);
        entries := entries - {lru};
      }
      entries := entries[key := Entry(data, contentType, now, now, ttl)];
      puts := puts[key := Record(data, contentType, now, ttl)];
      touched := touched[key := now];
    }

    /** A minimum over the map's entries, visited in any order. */
    method FindLeastRecent() returns (lru: string)
      requires entries != map[]
      ensures LeastRecent(entries, lru)
    {
      var keys := entries.Keys;
      lru :| lru in keys;
      keys := keys - {lru};
      while keys != {}
        invariant keys <= entries.Keys && lru in entries
        invariant forall k | k in entries && k !in keys :: entries[lru].lastAccessed <= entries[k].lastAccessed
        decreases |keys|
      {
        var k :| k in keys;
        if entries[k].lastAccessed < entries[lru].lastAccessed {
          lru := k;
        }
        keys := keys - {k};
      }
    }

    method RemoveContent(key: string)
      modifies this
      ensures Abs() == Remove(old(Abs()), key)
    {
      entries := entries - {key};
      puts := puts - {key};
    }

    method ClearExpiredEntries(now: nat)
      modifies this`entries
      ensures Abs() == ClearExpired(old(Abs()), now)
    {
      entries := Unexpired(entries, now);
    }
  }

  // ── The cache against the unbounded map ──────────────────────────

  /** Other keys touched no earlier than `key` was. */
  ghost function TouchedSince(s: State, key: string): set<string>
    requires key in s.touched
  {
    set k | k in s.touched && k != key && s.touched[k] >= s.touched[key]
  }

  predicate Matches(s: State, key: string)
    requires key in s.entries
  {
    var e := s.entries[key];
    && key in s.puts && s.puts[key] == Record(e.data, e.contentType, e.createdAt, e.ttl)
    && key in s.touched && e.lastAccessed == s.touched[key]
  }

  ghost predicate EvictedFairly(s: State, key: string) {
    key in s.touched && |TouchedSince(s, key)| + 1 >= s.maxEntries
  }

  ghost predicate Inv(s: State, clock: nat) {
    && (forall k | k in s.entries :: Matches(s, k))
    && (forall k | k in s.touched :: s.touched[k] <= clock)
    && |s.entries| <= (if s.maxEntries == 0 then 1 else s.maxEntries)
    && (forall k | Lookup(s.puts, k, clock).Some? && k !in s.entries :: EvictedFairly(s, k))
  }

  /** Every hit is what the unbounded map would answer. A key that map still has is missed only if enough
      other keys were touched since it was last touched itself. */
  lemma HitsAndMisses(s: State, key: string, now: nat)
    requires Inv(s, now)
    ensures var r := Get(s, key, now).1;
            && (r.Some? ==> r == Lookup(s.puts, key, now))
            && (r.None? && Lookup(s.puts, key, now).Some? ==>
                  key in s.touched && |TouchedSince(s, key)| + 1 >= s.maxEntries)
  {
    if key in s.entries {
      assert Matches(s, key);
    } else if Lookup(s.puts, key, now).Some? {
      assert EvictedFairly(s, key);
    }
  }

  lemma TimePasses(s: State, clock: nat, now: nat)
    requires Inv(s, clock) && clock <= now
    ensures Inv(s, now)
  {
    forall k | Lookup(s.puts, k, now).Some? && k !in s.entries
      ensures EvictedFairly(s, k)
    {
      assert Lookup(s.puts, k, clock).Some?;
    }
  }

  /** Touching another key later only adds to the keys touched since. */
  lemma TouchKeepsFair(s: State, t: State, key: string, other: string, now: nat)
    requires EvictedFairly(s, key) && key != other && t.maxEntries == s.maxEntries
    requires forall k | k in s.touched :: s.touched[k] <= now
    requires t.touched == s.touched[other := now]
    ensures EvictedFairly(t, key)
  {
    assert TouchedSince(s, key) <= TouchedSince(t, key);
    SubsetSize(TouchedSince(s, key), TouchedSince(t, key));
  }

  lemma GetKeepsInv(s: State, key: string, now: nat)
    requires Inv(s, now)
    ensures Inv(Get(s, key, now).0, now)
  {
    var t := Get(s, key, now).0;
    if t != s {
      assert Matches(s, key);
      assert t.entries.Keys == s.entries.Keys;
      assert |t.entries| == |t.entries.Keys| == |s.entries|;
      forall k | k in t.entries ensures Matches(t, k) { assert Matches(s, k); }
      forall k | Lookup(t.puts, k, now).Some? && k !in t.entries
        ensures EvictedFairly(t, k)
      {
        assert Lookup(s.puts, k, now).Some?;
        TouchKeepsFair(s, t, k, key, now);
      }
    }
  }

  /** The victim of an insertion was touched no later than all other entries of a full cache. */
  lemma VictimIsFair(s: State, pruned: map<string, Entry>, victim: string, t: State, other: string, now: nat)
    requires (forall k | k in s.entries :: Matches(s, k)) && (forall k | k in s.touched :: s.touched[k] <= now)
    requires (forall k | k in pruned :: k in s.entries && pruned[k] == s.entries[k])
    requires LeastRecent(pruned, victim) && |pruned| >= s.maxEntries && victim != other
    requires t.touched == s.touched[other := now] && t.maxEntries == s.maxEntries
    ensures EvictedFairly(t, victim)
  {
    assert Matches(s, victim);
    var rest := pruned.Keys - {victim};
    forall k | k in rest
      ensures k in TouchedSince(t, victim)
    {
      assert Matches(s, k);
    }
    SubsetSize(rest, TouchedSince(t, victim));
    assert |pruned.Keys| == |rest| + 1;
  }

  lemma PutSize(s: State, key: string, r: Record, now: nat, victim: Option<string>)
    requires GoodVictim(s, now, victim) && |s.entries| <= (if s.maxEntries == 0 then 1 else s.maxEntries)
    ensures |Put(s, key, r, now, victim).entries| <= (if s.maxEntries == 0 then 1 else s.maxEntries)
  {
    var pruned, t := Pruned(s, now), Put(s, key, r, now, victim);
    FewerKeys(Unexpired(s.entries, now), s.entries);
    match victim
    case Some(v) =>
      RemovalSize(pruned, v);
      BindingSize(pruned - {v}, key, t.entries[key]);
    case None => BindingSize(pruned, key, t.entries[key]);
  }

  lemma PutKeepsInv(s: State, key: string, r: Record, now: nat, victim: Option<string>)
    requires Inv(s, now) && GoodVictim(s, now, victim)
    ensures Inv(Put(s, key, r, now, victim), now)
  {
    var pruned, t := Pruned(s, now), Put(s, key, r, now, victim);
    PutSize(s, key, r, now, victim);
    forall k | k in t.entries
      ensures Matches(t, k)
    {
      assert k != key ==> k in s.entries && Matches(s, k) && t.entries[k] == s.entries[k];
    }
    forall k | Lookup(t.puts, k, now).Some? && k !in t.entries
      ensures EvictedFairly(t, k)
    {
      assert k != key && Lookup(s.puts, k, now).Some?;
      if k in s.entries {
        assert Matches(s, k);
        assert victim == Some(k);
        VictimIsFair(s, pruned, k, t, key, now);
      } else {
        TouchKeepsFair(s, t, k, key, now);
      }
    }
  }

  lemma RemoveKeepsInv(s: State, key: string, now: nat)
    requires Inv(s, now)
    ensures Inv(Remove(s, key), now)
  {
    var t := Remove(s, key);
    RemovalShrinks(s.entries, {key});
    forall k | k in t.entries ensures Matches(t, k) { assert Matches(s, k); }
    forall k | Lookup(t.puts, k, now).Some? && k !in t.entries
      ensures EvictedFairly(t, k)
    {
      assert Lookup(s.puts, k, now).Some? && EvictedFairly(s, k);
      SameTouches(s, t, k);
    }
  }

  lemma SameTouches(s: State, t: State, key: string)
    requires EvictedFairly(s, key) && t.touched == s.touched && t.maxEntries == s.maxEntries
    ensures EvictedFairly(t, key)
  {
    assert TouchedSince(t, key) == TouchedSince(s, key);
  }

  lemma ClearKeepsInv(s: State, now: nat)
    requires Inv(s, now)
    ensures Inv(ClearExpired(s, now), now)
  {
    var t := ClearExpired(s, now);
    FewerKeys(Unexpired(s.entries, now), s.entries);
    forall k | k in t.entries ensures Matches(t, k) { assert Matches(s, k); }
    forall k | Lookup(t.puts, k, now).Some? && k !in t.entries
      ensures EvictedFairly(t, k)
    {
      assert k !in s.entries;
      assert EvictedFairly(s, k);
      SameTouches(s, t, k);
    }
  }

  // ── Runs ─────────────────────────────────────────────────────────

  datatype Op =
    | DoGet(key: string, at: nat)
    | DoPut(key: string, record: Record, at: nat, victim: Option<string>)
    | DoRemove(key: string, at: nat)
    | DoClear(at: nat)

  function Perform(s: State, op: Op): State {
    match op
    case DoGet(key, at) => Get(s, key, at).0
    case DoPut(key, r, at, victim) => Put(s, key, r, at, victim)
    case DoRemove(key, _) => Remove(s, key)
    case DoClear(at) => ClearExpired(s, at)
  }

  /** The clock never runs backwards, and evictions pick a least recently used entry. */
  ghost predicate PossibleRun(s: State, clock: nat, ops: seq<Op>)
    decreases |ops|
  {
    ops == [] ||
    (clock <= ops[0].at && (ops[0].DoPut? ==> GoodVictim(s, ops[0].at, ops[0].victim))
     && PossibleRun(Perform(s, ops[0]), ops[0].at, ops[1..]))
  }

  function Run(s: State, ops: seq<Op>): State
    decreases |ops|
  {
    if ops == [] then s else Run(Perform(s, ops[0]), ops[1..])
  }

  function End(clock: nat, ops: seq<Op>): nat {
    if ops == [] then clock else ops[|ops| - 1].at
  }

  lemma {:induction false} RunKeepsInv(s: State, clock: nat, ops: seq<Op>)
    requires Inv(s, clock) && PossibleRun(s, clock, ops)
    ensures Inv(Run(s, ops), End(clock, ops)) && clock <= End(clock, ops)
    decreases |ops|
  {
    if ops != [] {
      var now := ops[0].at;
      TimePasses(s, clock, now);
      match ops[0] {
        case DoGet(key, at) => GetKeepsInv(s, key, at);
        case DoPut(key, r, at, victim) => PutKeepsInv(s, key, r, at, victim);
        case DoRemove(key, at) => RemoveKeepsInv(s, key, at);
        case DoClear(at) => ClearKeepsInv(s, at);
      }
      RunKeepsInv(Perform(s, ops[0]), now, ops[1..]);
    }
  }

  /** After any run from an empty cache: hits agree with the unbounded map, an unexpired key touched more
      recently than all but `maxEntries - 2` others is a hit, and the size stays within the cap. */
  lemma CacheRefinesUnboundedMap(maxEntries: nat, ops: seq<Op>, key: string, now: nat)
    requires PossibleRun(State(map[], maxEntries, map[], map[]), 0, ops) && End(0, ops) <= now
    ensures var s := Run(State(map[], maxEntries, map[], map[]), ops);
            var r := Get(s, key, now).1;
            && (r.Some? ==> r == Lookup(s.puts, key, now))
            && (key in s.touched && |TouchedSince(s, key)| + 1 < maxEntries ==> r == Lookup(s.puts, key, now))
            && |s.entries| <= (if maxEntries == 0 then 1 else maxEntries)
  {
    var empty := State(map[], maxEntries, map[], map[]);
    RunKeepsInv(empty, 0, ops);
    CapIsFixed(empty, ops);
    var s := Run(empty, ops);
    TimePasses(s, End(0, ops), now);
    HitsAndMisses(s, key, now);
  }

  lemma {:induction false} CapIsFixed(s: State, ops: seq<Op>)
    ensures Run(s, ops).maxEntries == s.maxEntries
    decreases |ops|
  {
    if ops != [] {
      CapIsFixed(Perform(s, ops[0]), ops[1..]);
    }
  }

  // ── What an insertion takes away ─────────────────────────────────

  /** The keys that a lookup would still answer. */
  function Answered(s: State, now: nat): set<string> {
    set k | k in s.entries && now <= s.entries[k].createdAt + s.entries[k].ttl
  }

  /** An insertion evicts exactly when the entries that are still good fill the cache by themselves, and then one of
      them that was last used no later than any other; everything else that is still good stays as it is. */
  lemma EvictsExactlyWhenFull(s: State, key: string, r: Record, now: nat, victim: Option<string>)
    requires GoodVictim(s, now, victim)
    ensures var good, t := Answered(s, now), Put(s, key, r, now, victim);
            && (victim.Some? <==> good != {} && |good| >= s.maxEntries)
            && (victim.Some? ==> victim.value in good && forall k | k in good ::
                  s.entries[victim.value].lastAccessed <= s.entries[k].lastAccessed)
            && (forall k | k in good && k != key && Some(k) != victim :: k in t.entries && t.entries[k] == s.entries[k])
            && key in t.entries && t.entries[key] == Entry(r.data, r.contentType, now, now, r.ttl)
  {
    var good, kept := Answered(s, now), Unexpired(s.entries, now);
    assert kept.Keys == good && |kept.Keys| == |kept|;
    assert good <= s.entries.Keys && |s.entries.Keys| == |s.entries|;
    SubsetSize(good, s.entries.Keys);
  }

  // ── How long content lasts ───────────────────────────────────────

  predicate Replaces(op: Op, key: string) { (op.DoPut? || op.DoRemove?) && op.key == key }

  lemma {:induction false} PutStays(s: State, ops: seq<Op>, key: string)
    requires key in s.puts && forall op | op in ops :: !Replaces(op, key)
    ensures key in Run(s, ops).puts && Run(s, ops).puts[key] == s.puts[key]
    decreases |ops|
  {
    if ops != [] {
      assert !Replaces(ops[0], key);
      PutStays(Perform(s, ops[0]), ops[1..], key);
    }
  }

  lemma {:induction false} PutIsRemembered(s: State, ops: seq<Op>, k: nat)
    requires k < |ops| && ops[k].DoPut? && forall i :: k < i < |ops| ==> !Replaces(ops[i], ops[k].key)
    ensures var puts := Run(s, ops).puts;
            ops[k].key in puts && puts[ops[k].key] == ops[k].record.(createdAt := ops[k].at)
    decreases k
  {
    if k == 0 {
      PutStays(Perform(s, ops[0]), ops[1..], ops[0].key);
    } else {
      PutIsRemembered(Perform(s, ops[0]), ops[1..], k - 1);
    }
  }

  /** Content put and not replaced or removed since is answered only as long as no more time has passed than it
      was to live; up to then it is, unless enough other keys were touched since it was. */
  lemma ContentLastsExactly(maxEntries: nat, ops: seq<Op>, k: nat, now: nat)
    requires PossibleRun(State(map[], maxEntries, map[], map[]), 0, ops) && End(0, ops) <= now
    requires k < |ops| && ops[k].DoPut? && forall i :: k < i < |ops| ==> !Replaces(ops[i], ops[k].key)
    ensures var s, put := Run(State(map[], maxEntries, map[], map[]), ops), ops[k].record;
            var r := Get(s, ops[k].key, now).1;
            && (r.Some? ==> r.value == (put.data, put.contentType) && now <= ops[k].at + put.ttl)
            && (ops[k].key in s.touched && |TouchedSince(s, ops[k].key)| + 1 < maxEntries ==>
                  (r.Some? <==> now <= ops[k].at + put.ttl))
  {
    PutIsRemembered(State(map[], maxEntries, map[], map[]), ops, k);
    CacheRefinesUnboundedMap(maxEntries, ops, ops[k].key, now);
  }
}
