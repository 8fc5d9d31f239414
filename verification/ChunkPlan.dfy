/** How `my_malloc` sizes an allocation on the ROCm path: rounding up to the
    driver's granularity and cutting the rounded size into chunks. */
module ChunkPlan {

  const ULLONG_MAX: nat := 0xFFFF_FFFF_FFFF_FFFF
  const MB: nat := 1024 * 1024
  const DEFAULT_CHUNK: nat := 256 * 1024 * 1024

  /** What `getenv` and `strtoull` make of VLLM_ROCM_SLEEP_MEM_CHUNK_SIZE. */
  datatype EnvValue =
    | Unset
    | Rejected                // no digits, or errno set
    | Parsed(megabytes: nat)

  /** The configured size is used exactly when it is positive and its byte count
      fits 64 bits; nothing ever wraps. */
  function MemcreateChunkSize(env: EnvValue): (bytes: nat)
    ensures 0 < bytes && bytes % MB == 0
    ensures env.Parsed? && 0 < env.megabytes * MB <= ULLONG_MAX ==> bytes == env.megabytes * MB
    ensures !(env.Parsed? && 0 < env.megabytes * MB <= ULLONG_MAX) ==> bytes == DEFAULT_CHUNK
  {
    match env
    case Unset => DEFAULT_CHUNK
    case Rejected => DEFAULT_CHUNK
    case Parsed(megabytes) =>
      if megabytes == 0 then DEFAULT_CHUNK
      else if megabytes > ULLONG_MAX / MB then DEFAULT_CHUNK
      else megabytes * MB
  }

  function CeilDiv(x: nat, d: nat): nat
    requires 0 < d
  {
    (x + d - 1) / d
  }

  function AlignUp(x: nat, granularity: nat): nat
    requires 0 < granularity
  {
    CeilDiv(x, granularity) * granularity
  }

  lemma MulMonotone(a: int, b: int, m: nat)
    requires a <= b
    ensures a * m <= b * m
  {
  }

  lemma StrictlyFewer(a: int, b: int, m: nat)
    requires a < b
    ensures a * m <= b * m - m
  {
    MulMonotone(a, b - 1, m);
  }

  lemma CeilDivBounds(x: nat, d: nat)
    requires 0 < d
    ensures CeilDiv(x, d) * d - d < x <= CeilDiv(x, d) * d
    ensures 0 < x ==> 0 < CeilDiv(x, d)
  {
    var q, r := (x + d - 1) / d, (x + d - 1) % d;
    assert x + d - 1 == q * d + r;
    if 0 < x && q == 0 {
      assert false;
    }
  }

  /** The rounded size is the least multiple of the granularity that holds the request. */
  lemma AlignUpIsLeast(x: nat, granularity: nat, k: nat)
    requires 0 < granularity
    ensures AlignUp(x, granularity) % granularity == 0
    ensures x <= AlignUp(x, granularity) < x + granularity
    ensures x <= k * granularity ==> AlignUp(x, granularity) <= k * granularity
  {
    var q := CeilDiv(x, granularity);
    CeilDivBounds(x, granularity);
    MultipleOf(q, granularity);
    if k < q {
      StrictlyFewer(k, q, granularity);
    } else {
      MulMonotone(q, k, granularity);
    }
  }

  lemma MultipleOf(q: int, g: nat)
    requires 0 < g
    ensures (q * g) % g == 0
  {
    assert q * g == g * q + 0;
    DivModUnique(q * g, g, q, 0);
  }

  lemma DivModUnique(x: int, d: nat, q: int, r: int)
    requires 0 < d && x == d * q + r && 0 <= r < d
    ensures x / d == q && x % d == r
  {
    var q', r' := x / d, x % d;
    assert x == d * q' + r';
    assert d * (q - q') == r' - r;
    if q - q' >= 1 {
      MulMonotone(1, q - q', d);
      assert false;
    }
    if q - q' <= -1 {
      MulMonotone(q - q', -1, d);
      assert false;
    }
  }

  /** Sum of the first `k` chunk sizes: the offset at which chunk `k` is mapped. */
  function Offset(sizes: seq<nat>, k: nat): nat
    requires k <= |sizes|
  {
    if k == 0 then 0 else Offset(sizes, k - 1) + sizes[k - 1]
  }

  lemma {:induction false} OffsetPrefix(s: seq<nat>, t: seq<nat>, k: nat)
    requires k <= |s| && k <= |t| && s[..k] == t[..k]
    ensures Offset(s, k) == Offset(t, k)
  {
    if k > 0 {
      assert s[..k - 1] == s[..k][..k - 1] && t[..k - 1] == t[..k][..k - 1];
      assert s[k - 1] == s[..k][k - 1] && t[k - 1] == t[..k][k - 1];
      OffsetPrefix(s, t, k - 1);
    }
  }

  /** Offsets of positive chunks never decrease, and chunk `j` starts after all of chunk `i`. */
  lemma {:induction false} OffsetMonotone(sizes: seq<nat>, i: nat, j: nat)
    requires i < j <= |sizes|
    ensures Offset(sizes, i) + sizes[i] <= Offset(sizes, j)
    decreases j
  {
    if i + 1 < j {
      OffsetMonotone(sizes, i, j - 1);
    }
  }

  /** Chunk `i` starts inside the aligned size, and only the last one reaches its end. */
  lemma ChunkWindow(aligned: nat, chunk: nat, i: nat)
    requires 0 < chunk && i < CeilDiv(aligned, chunk)
    ensures i * chunk < aligned
    ensures (i + 1) * chunk == i * chunk + chunk
    ensures if i + 1 < CeilDiv(aligned, chunk) then (i + 1) * chunk < aligned else aligned <= (i + 1) * chunk
  {
    var count := CeilDiv(aligned, chunk);
    CeilDivBounds(aligned, chunk);
    MulMonotone(i, count - 1, chunk);
    if i + 1 < count {
      MulMonotone(i + 1, count - 1, chunk);
    }
  }

  /** The chunk-size buffer `my_malloc` fills. The sizes tile the aligned size:
      all but the last are one aligned chunk, the last is what remains. */
  method PlanChunks(aligned: nat, chunk: nat) returns (sizes: array<nat>)
    requires 0 < chunk
    ensures fresh(sizes) && sizes.Length == CeilDiv(aligned, chunk)
    ensures forall i :: 0 <= i < sizes.Length ==> 0 < sizes[i] <= chunk
    ensures forall i :: 0 <= i < sizes.Length - 1 ==> sizes[i] == chunk
    ensures Offset(sizes[..], sizes.Length) == aligned
  {
    var count := CeilDiv(aligned, chunk);
    CeilDivBounds(aligned, chunk);
    sizes := new nat[count];
    for i := 0 to count
      invariant forall k :: 0 <= k < i ==> 0 < sizes[k] <= chunk
      invariant forall k :: 0 <= k < i ==> k < count - 1 ==> sizes[k] == chunk
      invariant Offset(sizes[..], i) == if i < count then i * chunk else aligned
    {
      ghost var before := sizes[..];
      ChunkWindow(aligned, chunk, i);
      sizes[i] := if aligned - i * chunk < chunk then aligned - i * chunk else chunk;
      OffsetPrefix(sizes[..], before, i);
    }
  }

  /** Every chunk is itself a multiple of the granularity, so each can be created and mapped. */
  lemma ChunksAreGranular(sizes: seq<nat>, aligned: nat, chunk: nat, g: nat, i: nat)
    requires 0 < g && 0 < chunk && aligned % g == 0 && chunk % g == 0
    requires |sizes| == CeilDiv(aligned, chunk) && i < |sizes|
    requires forall k :: 0 <= k < |sizes| - 1 ==> sizes[k] == chunk
    requires Offset(sizes, |sizes|) == aligned
    ensures sizes[i] % g == 0
  {
    if i == |sizes| - 1 {
      FullChunksOffset(sizes, chunk, i);
      RemainderGranular(aligned, chunk, i, g, sizes[i]);
    }
  }

  lemma RemainderGranular(aligned: nat, chunk: nat, i: nat, g: nat, last: int)
    requires 0 < g && aligned % g == 0 && chunk % g == 0
    requires last == aligned - i * chunk
    ensures last % g == 0
  {
    var a := Quotient(aligned, g);
    var c := Quotient(chunk, g);
    LastChunk(a, c, i, g);
    assert last == (a - i * c) * g;
    MultipleOf(a - i * c, g);
  }

  lemma Quotient(x: nat, g: nat) returns (q: nat)
    requires 0 < g && x % g == 0
    ensures x == q * g
  {
    q := x / g;
  }

  lemma LastChunk(a: nat, c: nat, i: nat, g: nat)
    ensures a * g - i * (c * g) == (a - i * c) * g
  {
    assert i * (c * g) == (i * c) * g;
  }

  lemma {:induction false} FullChunksOffset(sizes: seq<nat>, chunk: nat, k: nat)
    requires k <= |sizes| && forall i :: 0 <= i < k ==> sizes[i] == chunk
    ensures Offset(sizes, k) == k * chunk
  {
    if k > 0 {
      FullChunksOffset(sizes, chunk, k - 1);
      assert k * chunk == (k - 1) * chunk + chunk;
    }
  }
}
