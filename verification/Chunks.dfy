/** The driver records that one chunked allocation owns, as sets, and how undoing
    loops take them away one chunk at a time. */
module Chunks {
  import opened ChunkPlan
  import opened GpuDriver

  /** The mapping of chunk `k`, at the prefix sum of the sizes before it. */
  ghost function ChunkMap(base: nat, sizes: seq<nat>, handles: seq<nat>, k: nat): Mapping
    requires k < |sizes| == |handles|
  {
    Mapping(base + Offset(sizes, k), sizes[k], handles[k])
  }

  /** The call that unmaps chunk `k`. */
  ghost function UnmapOf(base: nat, sizes: seq<nat>, k: nat): Call
    requires k < |sizes|
  {
    Unmap(base + Offset(sizes, k), sizes[k])
  }

  /** The mappings of chunks `lo..hi` of an allocation based at `base`. */
  ghost function Maps(base: nat, sizes: seq<nat>, handles: seq<nat>, lo: nat, hi: nat): set<Mapping>
    requires hi <= |sizes| == |handles|
  {
    set k | lo <= k < hi :: ChunkMap(base, sizes, handles, k)
  }

  /** The physical memory of chunks `lo..hi`. */
  ghost function Backing(sizes: seq<nat>, handles: seq<nat>, lo: nat, hi: nat): set<Physical>
    requires hi <= |sizes| == |handles|
  {
    set k | lo <= k < hi :: Physical(handles[k], sizes[k])
  }

  ghost predicate Distinct(s: seq<nat>) {
    forall i, j :: 0 <= i < j < |s| ==> s[i] != s[j]
  }

  ghost predicate Positive(sizes: seq<nat>) {
    forall k :: 0 <= k < |sizes| ==> 0 < sizes[k]
  }

  ghost predicate NoneUsed(live: set<Physical>, handles: seq<nat>) {
    forall k :: 0 <= k < |handles| ==> Unused(live, handles[k])
  }

  lemma MapsLast(base: nat, sizes: seq<nat>, handles: seq<nat>, lo: nat, hi: nat)
    requires lo < hi <= |sizes| == |handles|
    ensures Maps(base, sizes, handles, lo, hi)
         == Maps(base, sizes, handles, lo, hi - 1) + {ChunkMap(base, sizes, handles, hi - 1)}
  {
  }

  lemma BackingLast(sizes: seq<nat>, handles: seq<nat>, lo: nat, hi: nat)
    requires lo < hi <= |sizes| == |handles|
    ensures Backing(sizes, handles, lo, hi)
         == Backing(sizes, handles, lo, hi - 1) + {Physical(handles[hi - 1], sizes[hi - 1])}
  {
  }

  /** All chunks lie inside the range of the allocation. */
  lemma MapsInside(base: nat, sizes: seq<nat>, handles: seq<nat>, n: nat)
    requires n <= |sizes| == |handles|
    ensures forall m :: m in Maps(base, sizes, handles, 0, n) ==>
              base <= m.addr && m.addr + m.bytes <= base + Offset(sizes, n)
  {
    forall k | 0 <= k < n ensures Offset(sizes, k) + sizes[k] <= Offset(sizes, n) {
      OffsetMonotone(sizes, k, n);
    }
  }

  // ---- undoing ----------------------------------------------------------------

  ghost predicate AtChunk(m: Mapping, base: nat, sizes: seq<nat>, k: nat)
    requires k < |sizes|
  {
    m.addr == base + Offset(sizes, k) && m.bytes == sizes[k]
  }

  ghost predicate AtSomeChunk(m: Mapping, base: nat, sizes: seq<nat>, n: nat)
    requires n <= |sizes|
  {
    exists k: nat :: k < n && AtChunk(m, base, sizes, k)
  }

  ghost predicate MappedAt(mapped: set<Mapping>, base: nat, sizes: seq<nat>, k: nat)
    requires k < |sizes|
  {
    exists m :: m in mapped && AtChunk(m, base, sizes, k)
  }

  ghost predicate AllMapped(mapped: set<Mapping>, base: nat, sizes: seq<nat>, n: nat)
    requires n <= |sizes|
  {
    forall k :: 0 <= k < n ==> MappedAt(mapped, base, sizes, k)
  }

  /** Something lives under each of the handles. */
  ghost predicate AllUsed(live: set<Physical>, handles: seq<nat>) {
    forall k :: 0 <= k < |handles| ==> !Unused(live, handles[k])
  }

  /** What is left after every chunk 0..n was unmapped, whoever mapped it. */
  ghost function UnmappedFrom(mapped: set<Mapping>, base: nat, sizes: seq<nat>, n: nat): set<Mapping>
    requires n <= |sizes|
  {
    set m | m in mapped && !AtSomeChunk(m, base, sizes, n)
  }

  /** What is left after every one of the handles was released, whoever owns its memory now. */
  ghost function ReleasedFrom(live: set<Physical>, handles: seq<nat>): set<Physical> {
    set p | p in live && p.handle !in handles
  }

  /** One more chunk unmapped; the call is legal exactly if something is mapped there. */
  lemma UnmapStep(g: Gpu, was: set<Mapping>, base: nat, sizes: seq<nat>, k: nat, out: nat)
    requires k < |sizes| && g.mapped == UnmappedFrom(was, base, sizes, k)
    ensures UnmappedFrom(was, base, sizes, k + 1)
         == if Legal(g, UnmapOf(base, sizes, k), out) then Effect(g, UnmapOf(base, sizes, k), out).mapped else g.mapped
    ensures Positive(sizes) ==>
      (AllMapped(was, base, sizes, k + 1) <==> AllMapped(was, base, sizes, k) && Legal(g, UnmapOf(base, sizes, k), out))
  {
    forall m | m in was ensures AtSomeChunk(m, base, sizes, k + 1)
                           <==> AtSomeChunk(m, base, sizes, k) || AtChunk(m, base, sizes, k) {
      assert AtChunk(m, base, sizes, k) ==> AtSomeChunk(m, base, sizes, k + 1);
      if AtSomeChunk(m, base, sizes, k) {
        var i: nat :| i < k && AtChunk(m, base, sizes, i);
        assert i < k + 1 && AtChunk(m, base, sizes, i);
      }
    }
    if Positive(sizes) {
      LegalIffMapped(g, was, base, sizes, k, out);
    }
  }

  lemma LegalIffMapped(g: Gpu, was: set<Mapping>, base: nat, sizes: seq<nat>, k: nat, out: nat)
    requires k < |sizes| && Positive(sizes) && g.mapped == UnmappedFrom(was, base, sizes, k)
    ensures Legal(g, UnmapOf(base, sizes, k), out) <==> MappedAt(was, base, sizes, k)
  {
    if MappedAt(was, base, sizes, k) {
      var m :| m in was && AtChunk(m, base, sizes, k);
      OneChunkEach(m, base, sizes, k);
      assert m in g.mapped;
    }
    if Legal(g, UnmapOf(base, sizes, k), out) {
      var m :| m in g.mapped && m.addr == base + Offset(sizes, k) && m.bytes == sizes[k];
      assert m in was && AtChunk(m, base, sizes, k);
    }
  }

  lemma OneChunkEach(m: Mapping, base: nat, sizes: seq<nat>, k: nat)
    requires k < |sizes| && Positive(sizes) && AtChunk(m, base, sizes, k)
    ensures !AtSomeChunk(m, base, sizes, k)
  {
    forall i: nat | i < k ensures Offset(sizes, i) < Offset(sizes, k) {
      OffsetMonotone(sizes, i, k);
    }
  }

  /** One more handle released; the call is legal exactly if something lives under it. */
  lemma ReleaseStep(g: Gpu, was: set<Physical>, handles: seq<nat>, k: nat, out: nat)
    requires k < |handles| && g.live == ReleasedFrom(was, handles[..k])
    ensures ReleasedFrom(was, handles[..k + 1])
         == if Legal(g, Release(handles[k]), out) then Effect(g, Release(handles[k]), out).live else g.live
    ensures Distinct(handles[..k + 1]) && AllUsed(was, handles[..k + 1])
      <==> Distinct(handles[..k]) && AllUsed(was, handles[..k]) && Legal(g, Release(handles[k]), out)
  {
    var before, handle := handles[..k], handles[k];
    assert handles[..k + 1] == before + [handle];
    assert Legal(g, Release(handle), out) <==> !Unused(was, handle) && handle !in before by {
      if !Unused(was, handle) && handle !in before {
        var p :| p in was && p.handle == handle;
        assert p in g.live;
      }
    }
    forall i | 0 <= i < k ensures before[i] == (before + [handle])[i] {
    }
    assert handle in before ==> exists i :: 0 <= i < k && (before + [handle])[i] == (before + [handle])[k];
  }

  /** Undoing chunks that are mapped takes away exactly them. */
  lemma UnmappedRest(rest: set<Mapping>, base: nat, sizes: seq<nat>, handles: seq<nat>, n: nat)
    requires n <= |sizes| == |handles| && Positive(sizes) && Clear(rest, base, Offset(sizes, n))
    ensures UnmappedFrom(rest + Maps(base, sizes, handles, 0, n), base, sizes, n) == rest
    ensures AllMapped(rest + Maps(base, sizes, handles, 0, n), base, sizes, n)
  {
    NotAtChunks(rest, base, sizes, n);
    forall m | m in Maps(base, sizes, handles, 0, n) ensures AtSomeChunk(m, base, sizes, n) {
      var k: nat :| k < n && m == ChunkMap(base, sizes, handles, k);
      assert AtChunk(m, base, sizes, k);
    }
    forall k | 0 <= k < n ensures MappedAt(rest + Maps(base, sizes, handles, 0, n), base, sizes, k) {
      var m := ChunkMap(base, sizes, handles, k);
      assert m in Maps(base, sizes, handles, 0, n) && AtChunk(m, base, sizes, k);
    }
  }

  /** Where nothing is mapped, no chunk is. */
  lemma NotAtChunks(mapped: set<Mapping>, base: nat, sizes: seq<nat>, n: nat)
    requires n <= |sizes| && Positive(sizes) && Clear(mapped, base, Offset(sizes, n))
    ensures forall m :: m in mapped ==> !AtSomeChunk(m, base, sizes, n)
    ensures UnmappedFrom(mapped, base, sizes, n) == mapped
    ensures 0 < n ==> !AllMapped(mapped, base, sizes, n)
  {
    forall m, k: nat | m in mapped && k < n ensures !AtChunk(m, base, sizes, k) {
      OffsetMonotone(sizes, k, n);
    }
    assert 0 < n ==> !MappedAt(mapped, base, sizes, 0);
  }

  /** Releasing handles that back chunks takes away exactly their memory. */
  lemma ReleasedRest(rest: set<Physical>, sizes: seq<nat>, handles: seq<nat>, n: nat)
    requires n <= |sizes| == |handles| && NoneUsed(rest, handles[..n])
    ensures ReleasedFrom(rest + Backing(sizes, handles, 0, n), handles[..n]) == rest
    ensures AllUsed(rest + Backing(sizes, handles, 0, n), handles[..n])
  {
    forall k | 0 <= k < n ensures handles[k] in handles[..n] && Physical(handles[k], sizes[k]) in Backing(sizes, handles, 0, n) {
      assert handles[..n][k] == handles[k];
    }
  }

  /** A range that is clear up to chunk `k` and over chunk `k` is clear up to the next one. */
  lemma ClearGrows(mapped: set<Mapping>, base: nat, sizes: seq<nat>, k: nat)
    requires k < |sizes|
    requires Clear(mapped, base, Offset(sizes, k)) && Clear(mapped, base + Offset(sizes, k), sizes[k])
    ensures Clear(mapped, base, Offset(sizes, k + 1))
  {
  }

  /** What chunks 0..n own depends on their own handles only. */
  lemma SamePrefix(base: nat, sizes: seq<nat>, handles: seq<nat>, handles': seq<nat>, n: nat)
    requires n <= |sizes| == |handles| == |handles'| && handles[..n] == handles'[..n]
    ensures Backing(sizes, handles, 0, n) == Backing(sizes, handles', 0, n)
    ensures Maps(base, sizes, handles, 0, n) == Maps(base, sizes, handles', 0, n)
  {
    forall k | 0 <= k < n
      ensures handles[k] == handles'[k] && ChunkMap(base, sizes, handles, k) == ChunkMap(base, sizes, handles', k)
    {
      assert handles[..n][k] == handles'[..n][k];
    }
  }
}
