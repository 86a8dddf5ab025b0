/** Splitting content into hashed fragments and putting it together again (protocol/src/fragments.rs). */
module Fragments {
  import opened Common
  import opened Crypto
  import opened StableSort

  const CHUNK_SIZE: nat := 256 * 1024

  type u32 = n: nat | n < U32_SPAN

  datatype ContentFragment = ContentFragment(index: u32, totalFragments: u32, data: Bytes, hash: Digest)

  datatype ContentMetadata = ContentMetadata(name: string, size: nat, mimeType: string)

  datatype ContentManifest = ContentManifest(contentHash: Digest, fragments: seq<Digest>, metadata: ContentMetadata)

  /** `slice::chunks`: full chunks, then a shorter one if anything is left. */
  function Chunks(data: Bytes): seq<Bytes> {
    if data == [] then []
    else if |data| <= CHUNK_SIZE then [data]
    else [data[..CHUNK_SIZE]] + Chunks(data[CHUNK_SIZE..])
  }

  function Concat(parts: seq<Bytes>): Bytes {
    if parts == [] then [] else parts[0] + Concat(parts[1..])
  }

  function Hashes(parts: seq<Bytes>): seq<Digest> {
    seq(|parts|, i requires 0 <= i < |parts| => Blake3(parts[i]))
  }

  lemma {:induction false} ConcatAppend(a: seq<Bytes>, b: seq<Bytes>)
    ensures Concat(a + b) == Concat(a) + Concat(b)
  {
    if a == [] {
      assert a + b == b;
    } else {
      assert (a + b)[1..] == a[1..] + b;
      ConcatAppend(a[1..], b);
    }
  }

  /** Chunks lose nothing, their number is the rounded-up quotient, and all but the last are full. */
  lemma {:induction false} ChunksPartition(data: Bytes)
    ensures Concat(Chunks(data)) == data
    ensures |Chunks(data)| == (|data| + CHUNK_SIZE - 1) / CHUNK_SIZE
    ensures forall i :: 0 <= i < |Chunks(data)| ==>
              0 < |Chunks(data)[i]| <= CHUNK_SIZE && (i < |Chunks(data)| - 1 ==> |Chunks(data)[i]| == CHUNK_SIZE)
    decreases |data|
  {
    if |data| > CHUNK_SIZE {
      ChunksPartition(data[CHUNK_SIZE..]);
      var rest := Chunks(data[CHUNK_SIZE..]);
      assert Chunks(data) == [data[..CHUNK_SIZE]] + rest;
      assert Chunks(data)[1..] == rest;
    }
  }

  function ManifestOf(data: Bytes, name: string): ContentManifest {
    ContentManifest(Blake3(data), Hashes(Chunks(data)), ContentMetadata(name, |data|, "application/octet-stream"))
  }

  /** The loop hashes each chunk and feeds the same chunk to the running hasher; what it has been fed is
      the content so far. */
  method FragmentContent(data: Bytes, name: string) returns (m: ContentManifest)
    ensures m == ManifestOf(data, name)
    ensures m.contentHash == Blake3(data) && m.metadata == ContentMetadata(name, |data|, "application/octet-stream")
    ensures |m.fragments| == (|data| + CHUNK_SIZE - 1) / CHUNK_SIZE
  {
    var fragments: seq<Digest> := [];
    var fed: Bytes := [];
    var i := 0;
    while i < |data|
      invariant 0 <= i <= |data| && fed == data[..i]
      invariant fragments + Hashes(Chunks(data[i..])) == Hashes(Chunks(data))
      decreases |data| - i
    {
      var end := if i + CHUNK_SIZE <= |data| then i + CHUNK_SIZE else |data|;
      var chunk := data[i..end];
      assert Chunks(data[i..]) == [chunk] + Chunks(data[end..]) by {
        var rest := data[i..];
        assert rest[..end - i] == chunk && rest[end - i..] == data[end..];
        assert end == |data| ==> rest == chunk && data[end..] == [];
      }
      assert Hashes(Chunks(data[i..])) == [Blake3(chunk)] + Hashes(Chunks(data[end..]));
      fragments := fragments + [Blake3(chunk)];
      fed := fed + chunk;
      i := end;
    }
    assert data[..i] == data && Hashes(Chunks(data[i..])) == [];
    ChunksPartition(data);
    m := ContentManifest(Blake3(fed), fragments, ContentMetadata(name, |data|, "application/octet-stream"));
  }

  function CreateFragment(data: Bytes, index: u32, total: u32): ContentFragment {
    ContentFragment(index, total, data, Blake3(data))
  }

  predicate VerifyFragment(f: ContentFragment) { Blake3(f.data) == f.hash }

  /** The fragments of a content, numbered in order. */
  function AllFragments(data: Bytes): seq<ContentFragment>
    requires |Chunks(data)| < U32_SPAN
  {
    var chunks := Chunks(data);
    seq(|chunks|, i requires 0 <= i < |chunks| => CreateFragment(chunks[i], i, |chunks|))
  }

  // ── Reassembly ───────────────────────────────────────────────────

  const ByIndex: Order<ContentFragment> := (a: ContentFragment, b: ContentFragment) => a.index < b.index

  function Payloads(fs: seq<ContentFragment>): seq<Bytes> {
    seq(|fs|, i requires 0 <= i < |fs| => fs[i].data)
  }

  ghost predicate StrictlyOrdered(fs: seq<ContentFragment>) {
    forall i, j :: 0 <= i < j < |fs| ==> fs[i].index < fs[j].index
  }

  method ReassembleFragments(fragments: seq<ContentFragment>) returns (data: Bytes)
    ensures data == Concat(Payloads(Sort(fragments, ByIndex)))
  {
    var sorted := Sort(fragments, ByIndex);
    data := [];
    for i := 0 to |sorted|
      invariant data == Concat(Payloads(sorted[..i]))
    {
      var part := sorted[i].data;
      assert Payloads(sorted[..i + 1]) == Payloads(sorted[..i]) + [part];
      ConcatAppend(Payloads(sorted[..i]), [part]);
      assert Concat([part]) == part + Concat([]) == part;
      data := data + part;
    }
    assert sorted[..|sorted|] == sorted;
  }

  /** There is only one way to order fragments with distinct indices. */
  lemma {:induction false} OrderIsUnique(a: seq<ContentFragment>, b: seq<ContentFragment>)
    requires Sorted(a, ByIndex) && StrictlyOrdered(b) && multiset(a) == multiset(b)
    ensures a == b
    decreases |b|
  {
    assert |a| == |multiset(a)| == |multiset(b)| == |b|;
    if b != [] {
      LastAgrees(a, b);
      var n := |b| - 1;
      FrontContents(a);
      FrontContents(b);
      FrontOrder(a, b, n);
      OrderIsUnique(a[..n], b[..n]);
    }
  }

  lemma FrontOrder(a: seq<ContentFragment>, b: seq<ContentFragment>, n: nat)
    requires n <= |a| && n <= |b| && Sorted(a, ByIndex) && StrictlyOrdered(b)
    ensures Sorted(a[..n], ByIndex) && StrictlyOrdered(b[..n])
  {
  }

  lemma FrontContents(s: seq<ContentFragment>)
    requires s != []
    ensures s == s[..|s| - 1] + [s[|s| - 1]]
    ensures multiset(s[..|s| - 1]) == multiset(s) - multiset{s[|s| - 1]}
  {
    assert s == s[..|s| - 1] + [s[|s| - 1]];
  }

  lemma LastAgrees(a: seq<ContentFragment>, b: seq<ContentFragment>)
    requires Sorted(a, ByIndex) && StrictlyOrdered(b) && multiset(a) == multiset(b) && |a| == |b| > 0
    ensures a[|a| - 1] == b[|b| - 1]
  {
    var x, y := a[|a| - 1], b[|b| - 1];
    assert x in multiset(b) by { assert x in multiset(a); }
    assert y in multiset(a) by { assert y in multiset(b); }
    var i :| 0 <= i < |b| && b[i] == x;
    var j :| 0 <= j < |a| && a[j] == y;
  }

  /** Splitting, numbering, shuffling in any way and reassembling gives back the content. */
  lemma ReassemblyUndoesFragmentation(data: Bytes, fs: seq<ContentFragment>)
    requires |Chunks(data)| < U32_SPAN && multiset(fs) == multiset(AllFragments(data))
    ensures Concat(Payloads(Sort(fs, ByIndex))) == data
    ensures forall f | f in fs :: VerifyFragment(f)
  {
    var all := AllFragments(data);
    SortSorts(fs, ByIndex);
    OrderIsUnique(Sort(fs, ByIndex), all);
    assert Payloads(all) == Chunks(data);
    ChunksPartition(data);
    forall f | f in fs
      ensures VerifyFragment(f)
    {
      assert f in multiset(all);
    }
  }
}
