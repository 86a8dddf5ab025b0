/** Upload, verified remote fetch and download in the node runner (node-runner/src/api.rs), over its
    fragment store (node-runner/src/storage.rs). */
module ContentStore {

  import opened Common
  import opened Crypto
  import F = Fragments
  import R = P2pResolver

  const MIB: nat := 1024 * 1024
  const MAX_UPLOAD_SIZE: nat := 100 * MIB
  const MAX_INBOUND_CONTENT_SIZE: nat := 100 * MIB
  const MAX_INBOUND_FRAGMENT_SIZE: nat := 4 * MIB

  datatype StoredContent = StoredContent(cid: string, name: string, totalSize: nat, fragments: seq<Digest>,
                                         mimeType: string)

  datatype Failure =
    | EmptyUpload | UploadTooLarge | PeerFailed | WrongManifest | ContentTooLarge | FragmentTooLarge
    | HashMismatch | StorageFailed

  datatype Outcome = AlreadyLocal | Stored | Rejected(why: Failure)

  datatype Store = Store(fragments: map<Digest, Bytes>, content: map<string, StoredContent>, usage: nat, capacity: nat)

  predicate IsHexDigit(c: char) { '0' <= c <= '9' || 'a' <= c <= 'f' || 'A' <= c <= 'F' }

  predicate IsBlake3HexCid(cid: string) { |cid| == 64 && forall c | c in cid :: IsHexDigit(c) }

  predicate IsAlphanumeric(c: char) { '0' <= c <= '9' || 'a' <= c <= 'z' || 'A' <= c <= 'Z' }

  /** Names the store accepts for a fragment file. */
  predicate ValidName(hash: Digest) { 0 < |hash| <= 512 && forall c | c in hash :: IsAlphanumeric(c) }

  predicate Fits(st: Store, hash: Digest, data: Bytes) { st.usage + |data| <= st.capacity && ValidName(hash) }

  function WithFragment(st: Store, hash: Digest, data: Bytes): Store {
    st.(fragments := st.fragments[hash := data], usage := st.usage + |data|)
  }

  /** Stores the fragments in order until one is refused; what was stored by then stays. */
  function StoreAll(st: Store, fetched: seq<(Digest, Bytes)>): (Store, bool)
    decreases |fetched|
  {
    if fetched == [] then (st, true)
    else if !Fits(st, fetched[0].0, fetched[0].1) then (st, false)
    else StoreAll(WithFragment(st, fetched[0].0, fetched[0].1), fetched[1..])
  }

  function Payload(fetched: seq<(Digest, Bytes)>): Bytes {
    if fetched == [] then [] else Payload(fetched[..|fetched| - 1]) + fetched[|fetched| - 1].1
  }

  /** The bytes a download of `content` sends: its fragments in order, if all are there. */
  function Gather(st: Store, hashes: seq<Digest>): Option<Bytes> {
    if hashes == [] then Some([])
    else match Gather(st, hashes[..|hashes| - 1])
      case None => None
      case Some(before) =>
        var h := hashes[|hashes| - 1];
        if h in st.fragments then Some(before + st.fragments[h]) else None
  }

  function Download(st: Store, cid: string): Option<Bytes> {
    if cid in st.content then Gather(st, st.content[cid].fragments) else None
  }

  datatype Collected = Fetched(parts: seq<(Digest, Bytes)>) | Failed(why: Failure)

  /** The first `n` fragments under the per-fragment and the running cap. */
  function Collect(hashes: seq<Digest>, a: R.PeerAnswers, n: nat): Collected
    requires n <= |hashes|
  {
    if n == 0 then Fetched([])
    else match Collect(hashes, a, n - 1)
      case Failed(why) => Failed(why)
      case Fetched(parts) =>
        if !a.Fragment(n - 1).Got? then Failed(PeerFailed)
        else
          var data := a.Fragment(n - 1).value;
          if |data| > MAX_INBOUND_FRAGMENT_SIZE then Failed(FragmentTooLarge)
          else if |Payload(parts)| + |data| > MAX_INBOUND_CONTENT_SIZE then Failed(ContentTooLarge)
          else Fetched(parts + [(hashes[n - 1], data)])
  }

  function FetchRemote(st: Store, cid: string, a: R.PeerAnswers): (Store, Outcome) {
    if cid in st.content then (st, AlreadyLocal)
    else if !a.manifest.Got? then (st, Rejected(PeerFailed))
    else
      var m := a.manifest.value;
      if IsBlake3HexCid(cid) && m.contentHash != cid then (st, Rejected(WrongManifest))
      else if m.totalSize > MAX_INBOUND_CONTENT_SIZE then (st, Rejected(ContentTooLarge))
      else match Collect(m.fragmentHashes, a, |m.fragmentHashes|)
        case Failed(why) => (st, Rejected(why))
        case Fetched(parts) =>
          if IsBlake3HexCid(cid) && Blake3(Payload(parts)) != cid then (st, Rejected(HashMismatch))
          else
            var (st', complete) := StoreAll(st, parts);
            if !complete then (st', Rejected(StorageFailed))
            else
              var filed := StoredContent(cid, cid, m.totalSize, m.fragmentHashes, m.mimeType);
              (st'.(content := st'.content[cid := filed]), Stored)
  }

  function Upload(st: Store, data: Bytes, name: string, mimeType: string): (Store, Outcome) {
    if |data| > MAX_UPLOAD_SIZE then (st, Rejected(UploadTooLarge))
    else if data == [] then (st, Rejected(EmptyUpload))
    else
      var cid := Blake3(data);
      if !Fits(st, cid, data) then (st, Rejected(StorageFailed))
      else
        var st' := WithFragment(st, cid, data);
        (st'.(content := st'.content[cid := StoredContent(cid, name, |data|, [cid], mimeType)]), Stored)
  }

  class Node {
    var fragments: map<Digest, Bytes>
    var content: map<string, StoredContent>
    var usage: nat
    const capacity: nat

    ghost function Abs(): Store
      reads this
    {
      Store(fragments, content, usage, capacity)
    }

    constructor (capacity: nat)
      ensures Abs() == Store(map[], map[], 0, capacity)
    {
      fragments, content, usage, this.capacity := map[], map[], 0, capacity;
    }

    method StoreFragment(hash: Digest, data: Bytes) returns (ok: bool)
      modifies this`fragments, this`usage
      ensures ok == Fits(old(Abs()), hash, data)
      ensures Abs() == if ok then WithFragment(old(Abs()), hash, data) else old(Abs())
    {
      if usage + |data| > capacity {
        return false;
      }
      if !ValidName(hash) {
        return false;
      }
      fragments := fragments[hash := data];
      usage := usage + |data|;
      return true;
    }

    /** `chunks` are the pieces of the upload stream; the cap is enforced as they come in. */
    method UploadContent(chunks: seq<Bytes>, name: string, mimeType: string) returns (r: Outcome)
      modifies this
      ensures (Abs(), r) == Upload(old(Abs()), F.Concat(chunks), name, mimeType)
    {
      var data: Bytes := [];
      for i := 0 to |chunks|
        invariant Abs() == old(Abs()) && data == F.Concat(chunks[..i]) && |data| <= MAX_UPLOAD_SIZE
      {
        ConcatGrows(chunks, i);
        if |data| + |chunks[i]| > MAX_UPLOAD_SIZE {
          return Rejected(UploadTooLarge);
        }
        data := data + chunks[i];
      }
      assert chunks[..|chunks|] == chunks;
      if data == [] {
        return Rejected(EmptyUpload);
      }
      var cid := Blake3(data);
      var ok := StoreFragment(cid, data);
      if !ok {
        return Rejected(StorageFailed);
      }
      content := content[cid := StoredContent(cid, name, |data|, [cid], mimeType)];
      return Stored;
    }

    method FetchRemoteContent(cid: string, a: R.PeerAnswers) returns (r: Outcome)
      modifies this
      ensures (Abs(), r) == FetchRemote(old(Abs()), cid, a)
    {
      if cid in content {
        return AlreadyLocal;
      }
      if !a.manifest.Got? {
        return Rejected(PeerFailed);
      }
      var manifest := a.manifest.value;
      var hashes := manifest.fragmentHashes;
      var verifyHash := IsBlake3HexCid(cid);
      if verifyHash && manifest.contentHash != cid {
        return Rejected(WrongManifest);
      }
      if manifest.totalSize > MAX_INBOUND_CONTENT_SIZE {
        return Rejected(ContentTooLarge);
      }
      var collected, fed := FetchFragments(hashes, a);
      if collected.Failed? {
        return Rejected(collected.why);
      }
      var fetched := collected.parts;
      if verifyHash && Blake3(fed) != cid {
        return Rejected(HashMismatch);
      }
      var stored := StoreFetched(fetched);
      if !stored {
        return Rejected(StorageFailed);
      }
      content := content[cid := StoredContent(cid, cid, manifest.totalSize, hashes, manifest.mimeType)];
      return Stored;
    }

    /** Keeps the fragments and feeds each to the running hasher; `fed` is what it has been fed. */
    method FetchFragments(hashes: seq<Digest>, a: R.PeerAnswers) returns (r: Collected, fed: Bytes)
      ensures r == Collect(hashes, a, |hashes|)
      ensures r.Fetched? ==> fed == Payload(r.parts)
    {
      var fetched: seq<(Digest, Bytes)> := [];
      fed := [];
      var totalBytes := 0;
      for i := 0 to |hashes|
        invariant Collect(hashes, a, i) == Fetched(fetched)
        invariant fed == Payload(fetched) && totalBytes == |fed|
      {
        if !a.Fragment(i).Got? {
          CollectFailureSticks(hashes, a, i + 1, |hashes|);
          return Failed(PeerFailed), fed;
        }
        var data := a.Fragment(i).value;
        if |data| > MAX_INBOUND_FRAGMENT_SIZE {
          CollectFailureSticks(hashes, a, i + 1, |hashes|);
          return Failed(FragmentTooLarge), fed;
        }
        totalBytes := totalBytes + |data|;
        if totalBytes > MAX_INBOUND_CONTENT_SIZE {
          CollectFailureSticks(hashes, a, i + 1, |hashes|);
          return Failed(ContentTooLarge), fed;
        }
        fed := fed + data;
        assert (fetched + [(hashes[i], data)])[..|fetched|] == fetched;
        fetched := fetched + [(hashes[i], data)];
      }
      return Fetched(fetched), fed;
    }

    method StoreFetched(fetched: seq<(Digest, Bytes)>) returns (ok: bool)
      modifies this`fragments, this`usage
      ensures (Abs(), ok) == StoreAll(old(Abs()), fetched)
    {
      ghost var before := Abs();
      for i := 0 to |fetched|
        invariant StoreAll(before, fetched) == StoreAll(Abs(), fetched[i..])
      {
        assert fetched[i..][1..] == fetched[i + 1..];
        ok := StoreFragment(fetched[i].0, fetched[i].1);
        if !ok {
          return;
        }
      }
      return true;
    }

    method DownloadContent(cid: string) returns (r: Option<Bytes>)
      ensures r == Download(Abs(), cid)
    {
      if cid !in content {
        return None;
      }
      var hashes := content[cid].fragments;
      var data: Bytes := [];
      for i := 0 to |hashes|
        invariant Gather(Abs(), hashes[..i]) == Some(data)
      {
        assert hashes[..i + 1][..i] == hashes[..i];
        if hashes[i] !in fragments {
          GatherFails(Abs(), hashes, i + 1);
          return None;
        }
        data := data + fragments[hashes[i]];
      }
      assert hashes[..|hashes|] == hashes;
      return Some(data);
    }
  }

  lemma ConcatGrows(chunks: seq<Bytes>, i: nat)
    requires i < |chunks|
    ensures F.Concat(chunks[..i + 1]) == F.Concat(chunks[..i]) + chunks[i]
    ensures |F.Concat(chunks[..i + 1])| <= |F.Concat(chunks)|
  {
    assert chunks[..i + 1] == chunks[..i] + [chunks[i]];
    F.ConcatAppend(chunks[..i], [chunks[i]]);
    assert F.Concat([chunks[i]]) == chunks[i] + F.Concat([]) == chunks[i];
    F.ConcatAppend(chunks[..i + 1], chunks[i + 1..]);
    assert chunks == chunks[..i + 1] + chunks[i + 1..];
  }

  lemma {:induction false} CollectFailureSticks(hashes: seq<Digest>, a: R.PeerAnswers, m: nat, n: nat)
    requires m <= n <= |hashes| && Collect(hashes, a, m).Failed?
    ensures Collect(hashes, a, n) == Collect(hashes, a, m)
  {
    if m < n {
      CollectFailureSticks(hashes, a, m, n - 1);
    }
  }

  lemma {:induction false} GatherFails(st: Store, hashes: seq<Digest>, k: nat)
    requires k <= |hashes| && Gather(st, hashes[..k]) == None
    ensures Gather(st, hashes) == None
    decreases |hashes|
  {
    if k == |hashes| {
      assert hashes[..k] == hashes;
    } else {
      assert hashes[..|hashes| - 1][..k] == hashes[..k];
      GatherFails(st, hashes[..|hashes| - 1], k);
    }
  }

  // ── What is stored is what was asked for ─────────────────────────

  /** Every stored fragment hashes to its name. */
  ghost predicate Named(st: Store) {
    forall h | h in st.fragments :: Blake3(st.fragments[h]) == h
  }

  /** Everything filed under a hex digest can be downloaded and hashes to it. */
  ghost predicate Intact(st: Store) {
    forall cid | cid in st.content && IsBlake3HexCid(cid) ::
      Download(st, cid).Some? && Blake3(Download(st, cid).value) == cid
  }

  /** Nothing stored goes away or changes. */
  ghost predicate Keeps(st: Store, st': Store) {
    forall h | h in st.fragments :: h in st'.fragments && st'.fragments[h] == st.fragments[h]
  }

  /** BLAKE3 tells the byte strings of `pool` apart. */
  ghost predicate CollisionFree(pool: set<Bytes>) {
    forall x, y | x in pool && y in pool :: !Collide(x, y)
  }

  ghost predicate Pooled(st: Store, pool: set<Bytes>) {
    forall h | h in st.fragments :: st.fragments[h] in pool
  }

  ghost predicate PartsVerified(parts: seq<(Digest, Bytes)>, pool: set<Bytes>) {
    forall i :: 0 <= i < |parts| ==> Blake3(parts[i].1) == parts[i].0 && parts[i].1 in pool
  }

  ghost predicate Sound(st: Store, pool: set<Bytes>) {
    Named(st) && Intact(st) && Pooled(st, pool)
  }

  lemma {:induction false} StoreAllKeeps(st: Store, parts: seq<(Digest, Bytes)>, pool: set<Bytes>)
    requires Named(st) && Pooled(st, pool) && CollisionFree(pool) && PartsVerified(parts, pool)
    ensures var (st', complete) := StoreAll(st, parts);
            && Named(st') && Pooled(st', pool) && Keeps(st, st') && st'.content == st.content
            && (complete ==> forall i :: 0 <= i < |parts| ==>
                  parts[i].0 in st'.fragments && st'.fragments[parts[i].0] == parts[i].1)
    decreases |parts|
  {
    if parts != [] && Fits(st, parts[0].0, parts[0].1) {
      var (h, data) := parts[0];
      assert h in st.fragments ==> !Collide(st.fragments[h], data);
      StoreAllKeeps(WithFragment(st, h, data), parts[1..], pool);
      assert forall i :: 0 < i < |parts| ==> parts[i] == parts[1..][i - 1];
    }
  }

  lemma {:induction false} GatherKept(st: Store, st': Store, hashes: seq<Digest>)
    requires Keeps(st, st') && Gather(st, hashes).Some?
    ensures Gather(st', hashes) == Gather(st, hashes)
    decreases |hashes|
  {
    if hashes != [] {
      GatherKept(st, st', hashes[..|hashes| - 1]);
    }
  }

  lemma {:induction false} GatherFetched(st: Store, hashes: seq<Digest>, parts: seq<(Digest, Bytes)>)
    requires |hashes| == |parts|
    requires forall i :: 0 <= i < |parts| ==>
               hashes[i] == parts[i].0 && hashes[i] in st.fragments && st.fragments[hashes[i]] == parts[i].1
    ensures Gather(st, hashes) == Some(Payload(parts))
    decreases |parts|
  {
    if parts != [] {
      GatherFetched(st, hashes[..|hashes| - 1], parts[..|parts| - 1]);
    }
  }

  /** Collected parts carry the manifest's names in order, within the caps. */
  lemma {:induction false} CollectShape(hashes: seq<Digest>, a: R.PeerAnswers, n: nat)
    requires n <= |hashes| && Collect(hashes, a, n).Fetched?
    ensures var parts := Collect(hashes, a, n).parts;
            && |parts| == n && |Payload(parts)| <= MAX_INBOUND_CONTENT_SIZE
            && forall i :: 0 <= i < n ==>
                 parts[i].0 == hashes[i] && a.Fragment(i) == R.Got(parts[i].1)
                   && |parts[i].1| <= MAX_INBOUND_FRAGMENT_SIZE
  {
    if n > 0 {
      CollectShape(hashes, a, n - 1);
      var parts := Collect(hashes, a, n).parts;
      assert parts[..n - 1] == Collect(hashes, a, n - 1).parts;
    }
  }

  /** All bytes the peer answers with. */
  ghost predicate AnswersPooled(a: R.PeerAnswers, pool: set<Bytes>) {
    forall i :: 0 <= i < |a.fragments| && a.fragments[i].Got? ==> a.fragments[i].value in pool
  }

  /** A remote fetch leaves the store sound. It files the content only when all of it arrived within the
      caps and, for a hex digest, hashes to that digest; a download then returns those bytes. */
  lemma FetchStaysSound(st: Store, cid: string, a: R.PeerAnswers, pool: set<Bytes>)
    requires Sound(st, pool) && CollisionFree(pool) && R.AnswersVerified(a) && AnswersPooled(a, pool)
    ensures var (st', r) := FetchRemote(st, cid, a);
            && Sound(st', pool) && Keeps(st, st')
            && (forall c | c in st.content :: c in st'.content && st'.content[c] == st.content[c])
            && (r.Stored? <==> cid !in st.content && cid in st'.content)
            && (r.Stored? ==>
                  && Download(st', cid).Some?
                  && |Download(st', cid).value| <= MAX_INBOUND_CONTENT_SIZE
                  && R.Fetched(a).Ok? && R.Fetched(a).value.data == Download(st', cid).value
                  && (IsBlake3HexCid(cid) ==>
                        Blake3(Download(st', cid).value) == cid && a.manifest.value.contentHash == cid))
  {
    if cid !in st.content && a.manifest.Got? {
      var hashes := a.manifest.value.fragmentHashes;
      var collected := Collect(hashes, a, |hashes|);
      if collected.Fetched? {
        StoringPartsStaysSound(st, hashes, a, collected.parts, pool);
        if FetchRemote(st, cid, a).1.Stored? {
          FilingStaysSound(st, cid, a, collected.parts, pool);
          FilingIsVerified(st, cid, a, collected.parts);
        }
      }
    }
  }

  lemma FilingIsVerified(st: Store, cid: string, a: R.PeerAnswers, parts: seq<(Digest, Bytes)>)
    requires FetchRemote(st, cid, a).1.Stored?
    requires Collect(a.manifest.value.fragmentHashes, a, |a.manifest.value.fragmentHashes|) == Fetched(parts)
    ensures IsBlake3HexCid(cid) ==> Blake3(Payload(parts)) == cid && a.manifest.value.contentHash == cid
  {
  }

  lemma StoringPartsStaysSound(st: Store, hashes: seq<Digest>, a: R.PeerAnswers, parts: seq<(Digest, Bytes)>,
                               pool: set<Bytes>)
    requires Sound(st, pool) && CollisionFree(pool) && R.AnswersVerified(a) && AnswersPooled(a, pool)
    requires a.manifest.Got? && a.manifest.value.fragmentHashes == hashes
    requires Collect(hashes, a, |hashes|) == Fetched(parts)
    ensures var st' := StoreAll(st, parts).0;
            && Sound(st', pool) && Keeps(st, st') && st'.content == st.content
            && (StoreAll(st, parts).1 ==> forall i :: 0 <= i < |parts| ==>
                  parts[i].0 in st'.fragments && st'.fragments[parts[i].0] == parts[i].1)
  {
    CollectShape(hashes, a, |hashes|);
    assert PartsVerified(parts, pool);
    StoreAllKeeps(st, parts, pool);
    StoringStaysSound(st, StoreAll(st, parts).0, pool);
  }

  lemma StoringStaysSound(st: Store, st': Store, pool: set<Bytes>)
    requires Intact(st) && Named(st') && Pooled(st', pool) && Keeps(st, st') && st'.content == st.content
    ensures Sound(st', pool)
  {
    forall c | c in st'.content && IsBlake3HexCid(c)
      ensures Download(st', c).Some? && Blake3(Download(st', c).value) == c
    {
      assert Download(st, c).Some?;
      GatherKept(st, st', st.content[c].fragments);
    }
  }

  lemma {:induction false} PayloadIsAssembled(hashes: seq<Digest>, a: R.PeerAnswers, n: nat)
    requires n <= |hashes| && Collect(hashes, a, n).Fetched?
    ensures R.Assembled(a, n) == R.Ok(Payload(Collect(hashes, a, n).parts))
  {
    if n > 0 {
      PayloadIsAssembled(hashes, a, n - 1);
      var parts := Collect(hashes, a, n).parts;
      assert parts[..n - 1] == Collect(hashes, a, n - 1).parts by { CollectShape(hashes, a, n - 1); }
    }
  }

  lemma FilingStaysSound(st: Store, cid: string, a: R.PeerAnswers, parts: seq<(Digest, Bytes)>, pool: set<Bytes>)
    requires FetchRemote(st, cid, a).1.Stored? && Sound(StoreAll(st, parts).0, pool)
    requires Collect(a.manifest.value.fragmentHashes, a, |a.manifest.value.fragmentHashes|) == Fetched(parts)
    requires forall i :: 0 <= i < |parts| ==>
               parts[i].0 in StoreAll(st, parts).0.fragments
                 && StoreAll(st, parts).0.fragments[parts[i].0] == parts[i].1
    ensures var st' := FetchRemote(st, cid, a).0;
            && Sound(st', pool)
            && Download(st', cid) == Some(Payload(parts)) && |Payload(parts)| <= MAX_INBOUND_CONTENT_SIZE
            && R.Fetched(a).Ok? && R.Fetched(a).value.data == Payload(parts)
  {
    var hashes := a.manifest.value.fragmentHashes;
    var mid, st' := StoreAll(st, parts).0, FetchRemote(st, cid, a).0;
    CollectShape(hashes, a, |hashes|);
    GatherFetched(st', hashes, parts);
    PayloadIsAssembled(hashes, a, |hashes|);
    forall c | c in st'.content && IsBlake3HexCid(c) && c != cid
      ensures Download(st', c).Some? && Blake3(Download(st', c).value) == c
    {
      assert Download(mid, c).Some?;
      GatherKept(mid, st', mid.content[c].fragments);
    }
  }

  lemma UploadStaysSound(st: Store, data: Bytes, name: string, mimeType: string, pool: set<Bytes>)
    requires Sound(st, pool) && CollisionFree(pool) && data in pool
    ensures var (st', r) := Upload(st, data, name, mimeType);
            && Sound(st', pool) && Keeps(st, st')
            && (forall c | c in st.content :: c in st'.content)
            && (r.Stored? ==> Download(st', Blake3(data)) == Some(data))
  {
    var (st', r) := Upload(st, data, name, mimeType);
    if r.Stored? {
      var cid := Blake3(data);
      assert cid in st.fragments ==> !Collide(st.fragments[cid], data);
      GatherOne(st', cid, data);
      forall c | c in st'.content && IsBlake3HexCid(c) && c != cid
        ensures Download(st', c).Some? && Blake3(Download(st', c).value) == c
      {
        assert Download(st, c).Some?;
        GatherKept(st, st', st.content[c].fragments);
      }
    }
  }

  lemma GatherOne(st: Store, h: Digest, data: Bytes)
    requires h in st.fragments && st.fragments[h] == data
    ensures Gather(st, [h]) == Some(data)
  {
    var hashes := [h];
    assert hashes[..|hashes| - 1] == [] && hashes[|hashes| - 1] == h;
    assert [] + data == data;
  }

  // ── Whole runs ───────────────────────────────────────────────────

  datatype Op = DoUpload(data: Bytes, name: string, mimeType: string) | DoFetch(cid: string, answers: R.PeerAnswers)

  function Perform(st: Store, op: Op): (Store, Outcome) {
    match op
    case DoUpload(data, name, mimeType) => Upload(st, data, name, mimeType)
    case DoFetch(cid, a) => FetchRemote(st, cid, a)
  }

  function Run(st: Store, ops: seq<Op>): Store
    decreases |ops|
  {
    if ops == [] then st else Run(Perform(st, ops[0]).0, ops[1..])
  }

  ghost predicate Trusted(op: Op, pool: set<Bytes>) {
    match op
    case DoUpload(data, _, _) => data in pool
    case DoFetch(_, a) => R.AnswersVerified(a) && AnswersPooled(a, pool)
  }

  lemma {:induction false} RunStaysSound(st: Store, ops: seq<Op>, pool: set<Bytes>)
    requires Sound(st, pool) && CollisionFree(pool) && forall op | op in ops :: Trusted(op, pool)
    ensures Sound(Run(st, ops), pool) && forall c | c in st.content :: c in Run(st, ops).content
    decreases |ops|
  {
    if ops != [] {
      assert ops[0] in ops;
      match ops[0] {
        case DoUpload(data, name, mimeType) => UploadStaysSound(st, data, name, mimeType, pool);
        case DoFetch(cid, a) => FetchStaysSound(st, cid, a, pool);
      }
      RunStaysSound(Perform(st, ops[0]).0, ops[1..], pool);
    }
  }

  /** Once a fetch of a hex digest has stored it, every later download, after any uploads and fetches,
      returns bytes with that digest. */
  lemma LaterDownloadsHashToTheCid(capacity: nat, before: seq<Op>, cid: string, a: R.PeerAnswers, later: seq<Op>,
                                   pool: set<Bytes>)
    requires CollisionFree(pool) && IsBlake3HexCid(cid)
    requires Trusted(DoFetch(cid, a), pool) && (forall op | op in before :: Trusted(op, pool))
             && forall op | op in later :: Trusted(op, pool)
    requires Perform(Run(Store(map[], map[], 0, capacity), before), DoFetch(cid, a)).1 == Stored
    ensures var st := Run(Perform(Run(Store(map[], map[], 0, capacity), before), DoFetch(cid, a)).0, later);
            Download(st, cid).Some? && Blake3(Download(st, cid).value) == cid
  {
    var empty := Store(map[], map[], 0, capacity);
    RunStaysSound(empty, before, pool);
    FetchStaysSound(Run(empty, before), cid, a, pool);
    RunStaysSound(Perform(Run(empty, before), DoFetch(cid, a)).0, later, pool);
  }

  // ── Nothing is stored before it is verified ──────────────────────

  /** The whole content arrived, each part under its manifest name, within both caps, and hashes to a hex
      digest asked for. */
  ghost predicate Verified(cid: string, a: R.PeerAnswers) {
    && a.manifest.Got?
    && var hashes := a.manifest.value.fragmentHashes;
       var c := Collect(hashes, a, |hashes|);
       && c.Fetched? && |c.parts| == |hashes| && |Payload(c.parts)| <= MAX_INBOUND_CONTENT_SIZE
       && (forall i :: 0 <= i < |hashes| ==>
             c.parts[i].0 == hashes[i] && a.Fragment(i) == R.Got(c.parts[i].1)
               && |c.parts[i].1| <= MAX_INBOUND_FRAGMENT_SIZE)
       && (IsBlake3HexCid(cid) ==> Blake3(Payload(c.parts)) == cid && a.manifest.value.contentHash == cid)
  }

  function Parts(a: R.PeerAnswers): seq<(Digest, Bytes)> {
    if !a.manifest.Got? then []
    else match Collect(a.manifest.value.fragmentHashes, a, |a.manifest.value.fragmentHashes|)
      case Fetched(parts) => parts
      case Failed(_) => []
  }

  lemma {:induction false} StoreAllAddsParts(st: Store, parts: seq<(Digest, Bytes)>, h: Digest)
    requires h in StoreAll(st, parts).0.fragments
    ensures var v := StoreAll(st, parts).0.fragments[h]; (h in st.fragments && st.fragments[h] == v) || (h, v) in parts
    decreases |parts|
  {
    if parts != [] && Fits(st, parts[0].0, parts[0].1) {
      StoreAllAddsParts(WithFragment(st, parts[0].0, parts[0].1), parts[1..], h);
    }
  }

  lemma {:induction false} StoreAllKeepsContent(st: Store, parts: seq<(Digest, Bytes)>)
    ensures StoreAll(st, parts).0.content == st.content
    decreases |parts|
  {
    if parts != [] && Fits(st, parts[0].0, parts[0].1) {
      StoreAllKeepsContent(WithFragment(st, parts[0].0, parts[0].1), parts[1..]);
    }
  }

  /** A fetch that changes anything in the store, a single fragment included, has verified the whole content
      before. This holds of rejected fetches too, and trusts nobody. */
  lemma FetchChangesOnlyWhenVerified(st: Store, cid: string, a: R.PeerAnswers)
    ensures FetchRemote(st, cid, a).0 != st ==> Verified(cid, a)
    ensures FetchRemote(st, cid, a).1.Stored? ==> Verified(cid, a)
  {
    if a.manifest.Got? {
      var hashes := a.manifest.value.fragmentHashes;
      if Collect(hashes, a, |hashes|).Fetched? {
        CollectShape(hashes, a, |hashes|);
      }
    }
  }

  /** It changes it by the parts it fetched, and by filing the content under their names. */
  lemma FetchAddsParts(st: Store, cid: string, a: R.PeerAnswers, h: Digest)
    ensures var st' := FetchRemote(st, cid, a).0;
            h in st'.fragments ==>
              || (h in st.fragments && st.fragments[h] == st'.fragments[h])
              || (Verified(cid, a) && (h, st'.fragments[h]) in Parts(a))
  {
    FetchChangesOnlyWhenVerified(st, cid, a);
    var st' := FetchRemote(st, cid, a).0;
    if st' != st && h in st'.fragments {
      StoreAllAddsParts(st, Parts(a), h);
    }
  }

  lemma FetchFiles(st: Store, cid: string, a: R.PeerAnswers, c: string)
    ensures var st' := FetchRemote(st, cid, a).0;
            c in st'.content ==>
              (c in st.content && st.content[c] == st'.content[c])
              || (c == cid && Verified(cid, a) && st'.content[c].fragments == a.manifest.value.fragmentHashes)
  {
    FetchChangesOnlyWhenVerified(st, cid, a);
    StoreAllKeepsContent(st, Parts(a));
  }

  /** The operation stores this fragment: an upload its data under their hash, a fetch a part of a content
      verified as a whole. */
  ghost predicate Brings(op: Op, h: Digest, data: Bytes) {
    match op
    case DoUpload(d, _, _) => d == data && Blake3(d) == h && 0 < |d| <= MAX_UPLOAD_SIZE
    case DoFetch(cid, a) => Verified(cid, a) && (h, data) in Parts(a)
  }

  ghost predicate Files(op: Op, c: string, hashes: seq<Digest>) {
    match op
    case DoUpload(d, _, _) => c == Blake3(d) && hashes == [c]
    case DoFetch(cid, a) => c == cid && Verified(cid, a) && hashes == a.manifest.value.fragmentHashes
  }

  lemma PerformBrings(st: Store, op: Op, h: Digest)
    ensures var st' := Perform(st, op).0;
            h in st'.fragments ==>
              (h in st.fragments && st.fragments[h] == st'.fragments[h]) || Brings(op, h, st'.fragments[h])
  {
    match op
    case DoUpload(_, _, _) =>
    case DoFetch(cid, a) => FetchAddsParts(st, cid, a, h);
  }

  lemma PerformFiles(st: Store, op: Op, c: string)
    ensures var st' := Perform(st, op).0;
            c in st'.content ==>
              (c in st.content && st.content[c] == st'.content[c]) || Files(op, c, st'.content[c].fragments)
  {
    match op
    case DoUpload(_, _, _) =>
    case DoFetch(cid, a) => FetchFiles(st, cid, a, c);
  }

  /** Over any run of uploads and fetches, whatever peers send: every fragment in the store was there at the
      start, was uploaded, or belongs to a content that had been verified as a whole. */
  lemma {:induction false} EveryFragmentWasVerified(st: Store, ops: seq<Op>, h: Digest)
    requires h in Run(st, ops).fragments
    ensures var data := Run(st, ops).fragments[h];
            (h in st.fragments && st.fragments[h] == data) || exists op :: op in ops && Brings(op, h, data)
    decreases |ops|
  {
    if ops != [] {
      var data := Run(st, ops).fragments[h];
      EveryFragmentWasVerified(Perform(st, ops[0]).0, ops[1..], h);
      PerformBrings(st, ops[0], h);
      if op :| op in ops[1..] && Brings(op, h, data) {
        assert op in ops;
      } else {
        assert ops[0] in ops;
      }
    }
  }

  /** The same for what is filed. */
  lemma {:induction false} EveryContentWasVerified(st: Store, ops: seq<Op>, c: string)
    requires c in Run(st, ops).content
    ensures var filed := Run(st, ops).content[c];
            (c in st.content && st.content[c] == filed) || exists op :: op in ops && Files(op, c, filed.fragments)
    decreases |ops|
  {
    if ops != [] {
      var filed := Run(st, ops).content[c];
      EveryContentWasVerified(Perform(st, ops[0]).0, ops[1..], c);
      PerformFiles(st, ops[0], c);
      if op :| op in ops[1..] && Files(op, c, filed.fragments) {
        assert op in ops;
      } else {
        assert ops[0] in ops;
      }
    }
  }

  // ── What is stored at all, and how it is counted ─────────────────

  /** An upload is stored exactly when there is something in it, at most 100 MiB, its digest will do as a file
      name, and there is room for it. It then takes up its size; otherwise nothing changes. */
  lemma UploadIsStoredExactlyWhen(st: Store, data: Bytes, name: string, mimeType: string)
    ensures var (st', r) := Upload(st, data, name, mimeType);
            && (r == Stored <==>
                  && data != [] && |data| <= 104_857_600
                  && 0 < |Blake3(data)| <= 512 && (forall c | c in Blake3(data) :: IsAlphanumeric(c))
                  && st.usage + |data| <= st.capacity)
            && (r == Stored ==>
                  && st'.fragments == st.fragments[Blake3(data) := data]
                  && st'.content == st.content[Blake3(data) :=
                       StoredContent(Blake3(data), name, |data|, [Blake3(data)], mimeType)]
                  && st'.usage == st.usage + |data|)
            && (r != Stored ==> st' == st)
  {
  }

  /** What all of it comes to, fragments that did not arrive left out. */
  function Total(a: R.PeerAnswers, n: nat): nat { |F.Concat(R.Received(a, n))| }

  lemma ReceivedGrows(a: R.PeerAnswers, n: nat)
    requires n > 0 && a.Fragment(n - 1).Got?
    ensures F.Concat(R.Received(a, n)) == F.Concat(R.Received(a, n - 1)) + a.Fragment(n - 1).value
  {
    var last := a.Fragment(n - 1).value;
    assert R.Received(a, n) == R.Received(a, n - 1) + [last];
    F.ConcatAppend(R.Received(a, n - 1), [last]);
    assert F.Concat([last]) == last + F.Concat([]) == last;
  }

  lemma CollectOneMore(hashes: seq<Digest>, a: R.PeerAnswers, n: nat, before: Collected)
    requires 0 < n <= |hashes| && before == Collect(hashes, a, n - 1)
    ensures var c := Collect(hashes, a, n);
            && (c.Fetched? <==>
                  && before.Fetched? && a.Fragment(n - 1).Got? && |a.Fragment(n - 1).value| <= 4_194_304
                  && |Payload(before.parts)| + |a.Fragment(n - 1).value| <= 104_857_600)
            && (c.Fetched? ==> Payload(c.parts) == Payload(before.parts) + a.Fragment(n - 1).value)
  {
    if before.Fetched? && a.Fragment(n - 1).Got? {
      var more := before.parts + [(hashes[n - 1], a.Fragment(n - 1).value)];
      assert more[..|more| - 1] == before.parts;
    }
  }

  /** The first `n` fragments are collected exactly when each arrives within its cap and all fit the other. */
  lemma {:induction false} CollectedExactlyWhen(hashes: seq<Digest>, a: R.PeerAnswers, n: nat)
    requires n <= |hashes|
    ensures Collect(hashes, a, n).Fetched? <==>
              && (forall i :: 0 <= i < n ==> a.Fragment(i).Got? && |a.Fragment(i).value| <= 4_194_304)
              && Total(a, n) <= 104_857_600
    ensures Collect(hashes, a, n).Fetched? ==> Payload(Collect(hashes, a, n).parts) == F.Concat(R.Received(a, n))
  {
    if n > 0 {
      var c, before := Collect(hashes, a, n), Collect(hashes, a, n - 1);
      CollectedExactlyWhen(hashes, a, n - 1);
      CollectOneMore(hashes, a, n, before);
      if a.Fragment(n - 1).Got? {
        ReceivedGrows(a, n);
        assert Total(a, n) == Total(a, n - 1) + |a.Fragment(n - 1).value|;
      }
      if !before.Fetched? || !a.Fragment(n - 1).Got? {
        assert !c.Fetched?;
      }
    }
  }

  /** The parts are all stored exactly when their names will do and all of them fit. */
  lemma {:induction false} AllStoredExactlyWhen(st: Store, parts: seq<(Digest, Bytes)>)
    requires st.usage <= st.capacity
    ensures var (st', complete) := StoreAll(st, parts);
            && (complete <==>
                  && st.usage + |Payload(parts)| <= st.capacity
                  && forall i :: 0 <= i < |parts| ==>
                       0 < |parts[i].0| <= 512 && forall c | c in parts[i].0 :: IsAlphanumeric(c))
            && (complete ==> st'.usage == st.usage + |Payload(parts)|)
            && st.usage <= st'.usage <= st'.capacity == st.capacity
    decreases |parts|
  {
    if parts != [] {
      PayloadFromFront(parts);
      if Fits(st, parts[0].0, parts[0].1) {
        AllStoredExactlyWhen(WithFragment(st, parts[0].0, parts[0].1), parts[1..]);
        assert forall i :: 0 < i < |parts| ==> parts[i] == parts[1..][i - 1];
        assert forall i :: 0 <= i < |parts| - 1 ==> parts[1..][i] == parts[i + 1];
      }
    }
  }

  lemma {:induction false} PayloadFromFront(parts: seq<(Digest, Bytes)>)
    requires parts != []
    ensures Payload(parts) == parts[0].1 + Payload(parts[1..])
    decreases |parts|
  {
    var n := |parts| - 1;
    if n == 0 {
      assert parts[..0] == [] && parts[1..] == [];
      assert Payload(parts) == Payload([]) + parts[0].1 == parts[0].1;
    } else {
      var front, rest := parts[..n], parts[1..];
      PayloadFromFront(front);
      assert front[1..] == rest[..n - 1] && rest[n - 1] == parts[n];
      assert Payload(rest) == Payload(rest[..n - 1]) + parts[n].1;
      assert parts[0].1 + Payload(rest[..n - 1]) + parts[n].1 == parts[0].1 + (Payload(rest[..n - 1]) + parts[n].1);
    }
  }

  /** The peer answers with the whole of a content, within the caps and under the digest asked for. */
  ghost predicate Serves(cid: string, a: R.PeerAnswers) {
    && a.manifest.Got? && a.manifest.value.totalSize <= 104_857_600
    && var n := |a.manifest.value.fragmentHashes|;
       && (forall i :: 0 <= i < n ==> a.Fragment(i).Got? && |a.Fragment(i).value| <= 4_194_304)
       && Total(a, n) <= 104_857_600
       && (IsBlake3HexCid(cid) ==> a.manifest.value.contentHash == cid == Blake3(F.Concat(R.Received(a, n))))
  }

  /** A fetch of content not there yet is stored exactly when the peer serves it, all fragment names will do,
      and there is room for all of it. It then takes up its size. */
  lemma FetchIsStoredExactlyWhen(st: Store, cid: string, a: R.PeerAnswers)
    requires st.usage <= st.capacity
    ensures var (st', r) := FetchRemote(st, cid, a);
            && (r == Stored <==>
                  && cid !in st.content && Serves(cid, a)
                  && (forall h | h in a.manifest.value.fragmentHashes ::
                        0 < |h| <= 512 && forall c | c in h :: IsAlphanumeric(c))
                  && st.usage + Total(a, |a.manifest.value.fragmentHashes|) <= st.capacity)
            && (r == Stored ==>
                  var m := a.manifest.value;
                  && st'.usage == st.usage + Total(a, |m.fragmentHashes|)
                  && st'.content == st.content[cid :=
                       StoredContent(cid, cid, m.totalSize, m.fragmentHashes, m.mimeType)])
            && st.usage <= st'.usage <= st'.capacity == st.capacity
  {
    if cid !in st.content && a.manifest.Got? {
      var hashes := a.manifest.value.fragmentHashes;
      var collected := Collect(hashes, a, |hashes|);
      CollectedExactlyWhen(hashes, a, |hashes|);
      FetchCases(st, cid, a, collected);
      if collected.Fetched? {
        AllStoredExactlyWhen(st, collected.parts);
        CollectShape(hashes, a, |hashes|);
        SameNames(hashes, collected.parts);
        StoreAllKeepsContent(st, collected.parts);
      }
    }
  }

  lemma FetchCases(st: Store, cid: string, a: R.PeerAnswers, c: Collected)
    requires cid !in st.content && a.manifest.Got?
    requires c == Collect(a.manifest.value.fragmentHashes, a, |a.manifest.value.fragmentHashes|)
    ensures var (st', r) := FetchRemote(st, cid, a);
            && (r == Stored <==>
                  && a.manifest.value.totalSize <= 104_857_600 && c.Fetched?
                  && (IsBlake3HexCid(cid) ==> a.manifest.value.contentHash == cid == Blake3(Payload(c.parts)))
                  && StoreAll(st, c.parts).1)
            && (st' == st || (c.Fetched? && st'.usage == StoreAll(st, c.parts).0.usage
                              && st'.capacity == StoreAll(st, c.parts).0.capacity))
            && (r == Stored ==>
                  var m := a.manifest.value;
                  && st'.usage == StoreAll(st, c.parts).0.usage
                  && st'.content == StoreAll(st, c.parts).0.content[cid :=
                       StoredContent(cid, cid, m.totalSize, m.fragmentHashes, m.mimeType)])
  {
  }

  lemma SameNames(hashes: seq<Digest>, parts: seq<(Digest, Bytes)>)
    requires |parts| == |hashes| && forall i :: 0 <= i < |hashes| ==> parts[i].0 == hashes[i]
    ensures (forall i :: 0 <= i < |parts| ==> ValidName(parts[i].0)) <==> forall h | h in hashes :: ValidName(h)
  {
    if forall i :: 0 <= i < |parts| ==> ValidName(parts[i].0) {
      forall h | h in hashes
        ensures ValidName(h)
      {
        var i :| 0 <= i < |hashes| && hashes[i] == h;
        assert ValidName(parts[i].0);
      }
    }
  }

  /** Over any run the store never takes up more than its capacity, nor gives space back. */
  lemma {:induction false} UsageStaysWithinCapacity(st: Store, ops: seq<Op>)
    requires st.usage <= st.capacity
    ensures var u := Run(st, ops); st.usage <= u.usage <= u.capacity == st.capacity
    decreases |ops|
  {
    if ops != [] {
      if ops[0].DoFetch? {
        FetchIsStoredExactlyWhen(st, ops[0].cid, ops[0].answers);
      }
      UsageStaysWithinCapacity(Perform(st, ops[0]).0, ops[1..]);
    }
  }

  /** The bytes actually held. */
  ghost function Held(fragments: map<Digest, Bytes>): nat {
    if fragments == map[] then 0
    else
      var h :| h in fragments;
      |fragments[h]| + Held(fragments - {h})
  }

  lemma {:induction false} HeldWithout(fragments: map<Digest, Bytes>, h: Digest)
    requires h in fragments
    ensures Held(fragments) == |fragments[h]| + Held(fragments - {h})
    decreases |fragments|
  {
    var g :| g in fragments && Held(fragments) == |fragments[g]| + Held(fragments - {g});
    if g != h {
      RemovalSize(fragments, g);
      RemovalSize(fragments, h);
      HeldWithout(fragments - {g}, h);
      HeldWithout(fragments - {h}, g);
      assert fragments - {g} - {h} == fragments - {h} - {g};
    }
  }

  /** What is stored under a name already taken replaces what was there, but both count. */
  lemma StoringCounts(st: Store, h: Digest, data: Bytes)
    ensures var u := WithFragment(st, h, data);
            u.usage - Held(u.fragments)
              == st.usage - Held(st.fragments) + if h in st.fragments then |st.fragments[h]| else 0
  {
    var u := WithFragment(st, h, data);
    HeldWithout(u.fragments, h);
    if h in st.fragments {
      HeldWithout(st.fragments, h);
      assert u.fragments - {h} == st.fragments - {h};
    } else {
      assert u.fragments - {h} == st.fragments;
    }
  }

  lemma {:induction false} StoreAllCounts(st: Store, parts: seq<(Digest, Bytes)>)
    ensures var u := StoreAll(st, parts).0; u.usage - Held(u.fragments) >= st.usage - Held(st.fragments)
    decreases |parts|
  {
    if parts != [] && Fits(st, parts[0].0, parts[0].1) {
      StoringCounts(st, parts[0].0, parts[0].1);
      StoreAllCounts(WithFragment(st, parts[0].0, parts[0].1), parts[1..]);
    }
  }

  /** An upload takes up exactly what it adds, exactly when nothing but an empty fragment has its name. */
  lemma UploadCountsExactlyWhen(st: Store, data: Bytes, name: string, mimeType: string)
    requires st.usage == Held(st.fragments) && Upload(st, data, name, mimeType).1 == Stored
    ensures var u := Upload(st, data, name, mimeType).0;
            u.usage == Held(u.fragments) <==> !(Blake3(data) in st.fragments && st.fragments[Blake3(data)] != [])
  {
    StoringCounts(st, Blake3(data), data);
  }

  /** Over any run the store never holds more than it counts. */
  lemma {:induction false} UsageCoversWhatIsHeld(st: Store, ops: seq<Op>)
    requires Held(st.fragments) <= st.usage
    ensures Held(Run(st, ops).fragments) <= Run(st, ops).usage
    decreases |ops|
  {
    if ops != [] {
      match ops[0] {
        case DoUpload(data, _, _) => StoringCounts(st, Blake3(data), data);
        case DoFetch(_, a) => StoreAllCounts(st, Parts(a));
      }
      UsageCoversWhatIsHeld(Perform(st, ops[0]).0, ops[1..]);
    }
  }
}
