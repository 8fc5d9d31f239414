/** vllm/forward_context.py: how many tokens each sequence-parallel rank runs in
    each chunk, so that all data-parallel ranks take the same number of chunks. */
module LockstepChunks {

  import ChunkPlan

  // ---- token counts across sequence-parallel ranks -----------------------------------------

  function Repeat(x: nat, n: nat): (s: seq<nat>)
    ensures |s| == n && forall i :: 0 <= i < n ==> s[i] == x
  {
    seq(n, _ => x)
  }

  /** `_compute_sp_num_tokens`: every rank's tokens cut into `sp` shares, rounded up. */
  function SpNumTokens(across: seq<nat>, sp: nat): (tokens: seq<nat>)
    requires 0 < sp
    ensures |tokens| == |across| * sp
  {
    if across == [] then []
    else
      var front := across[..|across| - 1];
      assert |across| * sp == |front| * sp + sp;
      SpNumTokens(front, sp) + Repeat(ChunkPlan.CeilDiv(across[|front|], sp), sp)
  }

  /** `torch.cumsum` */
  function CumSum(s: seq<nat>): (c: seq<nat>)
    ensures |c| == |s|
  {
    if s == [] then []
    else
      var c := CumSum(s[..|s| - 1]);
      c + [Before(c, |c|) + s[|s| - 1]]
  }

  /** What the cumulative counts say lies before position `i`. */
  function Before(c: seq<nat>, i: nat): nat
    requires i <= |c|
  {
    if i == 0 then 0 else c[i - 1]
  }

  function CuTokensAcrossSp(across: seq<nat>, sp: nat): seq<nat>
    requires 0 < sp
  {
    CumSum(SpNumTokens(across, sp))
  }

  lemma {:induction false} CumSumIsOffset(s: seq<nat>, i: nat)
    requires i <= |s|
    ensures Before(CumSum(s), i) == ChunkPlan.Offset(s, i)
  {
    if s != [] {
      var front := s[..|s| - 1];
      if i < |s| {
        CumSumIsOffset(front, i);
        ChunkPlan.OffsetPrefix(s, front, i);
      } else {
        CumSumIsOffset(front, i - 1);
        ChunkPlan.OffsetPrefix(s, front, i - 1);
      }
    }
  }

  lemma {:induction false} OffsetOfRun(s: seq<nat>, start: nat, n: nat, x: nat)
    requires start + n <= |s| && forall i :: start <= i < start + n ==> s[i] == x
    ensures ChunkPlan.Offset(s, start + n) == ChunkPlan.Offset(s, start) + n * x
  {
    if n > 0 {
      OffsetOfRun(s, start, n - 1, x);
      assert n * x == (n - 1) * x + x;
    }
  }

  /** Rank `r` owns the `sp` consecutive entries from `r * sp`, all alike. */
  lemma {:induction false} ShareEntries(across: seq<nat>, sp: nat, r: nat)
    requires 0 < sp && r < |across|
    ensures r * sp + sp <= |across| * sp
    ensures forall i :: r * sp <= i < r * sp + sp ==> SpNumTokens(across, sp)[i] == ChunkPlan.CeilDiv(across[r], sp)
  {
    var front := across[..|across| - 1];
    assert |across| * sp == |front| * sp + sp;
    if r < |front| {
      ShareEntries(front, sp, r);
    }
  }

  /** A data-parallel rank with n tokens is charged at least n and fewer than n + sp of
      them, and this is what the cumulative counts step by. */
  lemma RankShare(across: seq<nat>, sp: nat, r: nat)
    requires 0 < sp && r < |across|
    ensures r * sp + sp <= |CuTokensAcrossSp(across, sp)|
    ensures var cu := CuTokensAcrossSp(across, sp);
      across[r] <= Before(cu, r * sp + sp) - Before(cu, r * sp) < across[r] + sp
  {
    var tokens := SpNumTokens(across, sp);
    ShareEntries(across, sp, r);
    OffsetOfRun(tokens, r * sp, sp, ChunkPlan.CeilDiv(across[r], sp));
    CumSumIsOffset(tokens, r * sp);
    CumSumIsOffset(tokens, r * sp + sp);
    ChunkPlan.CeilDivBounds(across[r], sp);
  }

  /** All ranks together: no token is left out, and each rank pads by less than `sp`. */
  lemma {:induction false} TotalTokens(across: seq<nat>, sp: nat, ranks: nat)
    requires 0 < sp && ranks <= |across|
    ensures ranks * sp <= |CuTokensAcrossSp(across, sp)|
    ensures var total := Before(CuTokensAcrossSp(across, sp), ranks * sp);
      ChunkPlan.Offset(across, ranks) <= total <= ChunkPlan.Offset(across, ranks) + ranks * (sp - 1)
  {
    ChunkPlan.MulMonotone(ranks, |across|, sp);
    if ranks > 0 {
      TotalTokens(across, sp, ranks - 1);
      RankShare(across, sp, ranks - 1);
      assert (ranks - 1) * sp + sp == ranks * sp;
      assert (ranks - 1) * (sp - 1) + (sp - 1) == ranks * (sp - 1);
    }
  }

  // ---- chunk sizes ---------------------------------------------------------------------------

  /** What one rank runs in chunk `k`: its next `m` tokens or what is left of them, and a
      single dummy token once it has none. */
  function LocalSize(tokens: nat, m: int, k: nat): int {
    var size := if m < tokens - m * k then m else tokens - m * k;
    if size <= 0 then 1 else size
  }

  method ComputeChunkedLocalNumTokens(across: seq<nat>, sp: nat, m: int, k: nat) returns (localSize: array<int>)
    requires 0 < sp
    ensures fresh(localSize) && localSize.Length == |across| * sp
    ensures forall i :: 0 <= i < localSize.Length ==> localSize[i] == LocalSize(SpNumTokens(across, sp)[i], m, k)
  {
    var spTokens := SpNumTokens(across, sp);
    var spSize := |spTokens|;
    localSize := new int[spSize](_ => -1);
    for i := 0 to spSize
      invariant forall j :: 0 <= j < i ==> localSize[j] == LocalSize(spTokens[j], m, k)
    {
      localSize[i] := if m < spTokens[i] - m * k then m else spTokens[i] - m * k;
      if localSize[i] <= 0 {
        localSize[i] := 1;
      }
    }
  }

  /** Tokens a rank has run after its first `chunks` chunks, dummies included. */
  function TokensRun(tokens: nat, m: int, chunks: nat): int {
    if chunks == 0 then 0 else TokensRun(tokens, m, chunks - 1) + LocalSize(tokens, m, chunks - 1)
  }

  lemma StillBusy(tokens: nat, m: nat, k: nat)
    requires 0 < m
    ensures k * m < tokens <==> k < ChunkPlan.CeilDiv(tokens, m)
  {
    var c := ChunkPlan.CeilDiv(tokens, m);
    ChunkPlan.CeilDivBounds(tokens, m);
    if k < c {
      ChunkPlan.StrictlyFewer(k, c, m);
    } else {
      ChunkPlan.MulMonotone(c, k, m);
    }
  }

  /** A chunk never runs more than `m` tokens, and never none; it is a dummy only on a rank
      whose earlier chunks covered all its tokens. */
  lemma ChunkBounds(tokens: nat, m: nat, k: nat)
    requires 0 < m
    ensures 1 <= LocalSize(tokens, m, k) <= m
    ensures k * m < tokens ==> LocalSize(tokens, m, k) <= tokens - k * m
    ensures tokens <= k * m ==> LocalSize(tokens, m, k) == 1
  {
  }

  /** After any number of chunks a rank has run its first `chunks * m` tokens, or all of
      them, once each; what exceeds them is one dummy per chunk after it finished. */
  lemma {:induction false} TokensConserved(tokens: nat, m: nat, chunks: nat)
    requires 0 < m
    ensures var busy := ChunkPlan.CeilDiv(tokens, m);
      TokensRun(tokens, m, chunks) == if chunks <= busy && chunks * m <= tokens then chunks * m
                                      else tokens + chunks - busy
  {
    var busy := ChunkPlan.CeilDiv(tokens, m);
    if chunks == 0 {
      ChunkPlan.CeilDivBounds(tokens, m);
    } else {
      TokensConserved(tokens, m, chunks - 1);
      StillBusy(tokens, m, chunks - 1);
      StillBusy(tokens, m, chunks);
      assert (chunks - 1) * m + m == chunks * m;
    }
  }

  /** A rank given enough chunks runs each token exactly once and one dummy in every
      chunk beyond the ceil(tokens / m) it needed. */
  lemma EnoughChunks(tokens: nat, m: nat, chunks: nat)
    requires 0 < m && tokens <= chunks * m
    ensures TokensRun(tokens, m, chunks) == tokens + chunks - ChunkPlan.CeilDiv(tokens, m)
  {
    TokensConserved(tokens, m, chunks);
    StillBusy(tokens, m, chunks);
    ChunkPlan.CeilDivBounds(tokens, m);
    if chunks * m == tokens {
      ChunkPlan.AlignUpIsLeast(tokens, m, chunks);
    }
  }
}
