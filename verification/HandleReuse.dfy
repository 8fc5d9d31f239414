/** When undoing one allocation can take the memory of another: a sleeping allocation keeps the handles it
    released in its cells, and the driver may grant one of them again. */
module HandleReuse {
  import opened GpuDriver
  import opened Chunks
  import opened AllocatorState
  import opened AllocatorRuns

  /** No cell of one living allocation names a handle that another one is mapped to. */
  ghost predicate AllHarmless(s: State)
    requires Tabled(s)
  {
    forall d :: d in s.alive ==> Harmless(s, d)
  }

  ghost predicate Shares(handles: seq<nat>, others: seq<nat>) {
    exists k :: 0 <= k < |handles| && handles[k] in others
  }

  /** The handles granted to `d` are named by the cells of no other living allocation. */
  ghost predicate Unnamed(s: State, d: nat, handles: seq<nat>)
    requires Tabled(s)
  {
    forall a :: a in s.alive && a != d ==> !Shares(handles, Named(s, a))
  }

  /** Whatever the operation maps was granted handles that nobody else's cells name. */
  ghost predicate GrantsUnnamed(s: State, op: Op)
    requires Tabled(s)
  {
    match op
    case Malloc(d, _, handles) => Unnamed(s, d, handles)
    case Wake(d, handles) => Unnamed(s, d, handles)
    case _ => true
  }

  /** Along a run no undoing can ever take another allocation's memory if and only if the driver never
      grants a mapped allocation a handle that the cells of another living one still name. */
  lemma HarmlessIff(states: seq<State>, ops: seq<Op>)
    requires IsRun(states, ops) && states[0] == EMPTY
    ensures (forall k :: 0 <= k <= |ops| ==> Tabled(states[k]) && AllHarmless(states[k]))
      <==> forall k :: 0 <= k < |ops| ==> Tabled(states[k]) && GrantsUnnamed(states[k], ops[k])
  {
    if forall k :: 0 <= k < |ops| ==> Tabled(states[k]) && GrantsUnnamed(states[k], ops[k]) {
      forall k | 0 <= k <= |ops| ensures Tabled(states[k]) && AllHarmless(states[k]) {
        StaysHarmless(states, ops, k);
      }
    }
    if forall k :: 0 <= k <= |ops| ==> Tabled(states[k]) && AllHarmless(states[k]) {
      forall k | 0 <= k < |ops| ensures Tabled(states[k]) && GrantsUnnamed(states[k], ops[k]) {
        RunsConserve(states, ops, k);
        HarmlessStep(states[k], ops[k]);
        assert AllHarmless(states[k + 1]);
      }
    }
  }

  lemma {:induction false} StaysHarmless(states: seq<State>, ops: seq<Op>, k: nat)
    requires IsRun(states, ops) && states[0] == EMPTY && k <= |ops|
    requires forall i :: 0 <= i < |ops| ==> Tabled(states[i]) && GrantsUnnamed(states[i], ops[i])
    ensures Tabled(states[k]) && AllHarmless(states[k])
  {
    if k > 0 {
      StaysHarmless(states, ops, k - 1);
      RunsConserve(states, ops, k - 1);
      HarmlessStep(states[k - 1], ops[k - 1]);
    }
  }

  lemma HarmlessStep(s: State, op: Op)
    requires Conserved(s) && Enabled(s, op) && AllHarmless(s)
    ensures Tabled(Apply(s, op)) && (AllHarmless(Apply(s, op)) <==> GrantsUnnamed(s, op))
  {
    StepConserves(s, op);
    match op
    case Malloc(d, e, handles) => MallocHarmlessIff(s, d, e, handles);
    case Wake(d, handles) => WakeHarmlessIff(s, d, handles);
    case WakeUndone(_, _) => FailedWakeStaysHarmless(s, op);
    case WakePending(_, _) => FailedWakeStaysHarmless(s, op);
    case Free(d, status) => FreeStaysHarmless(s, d, status);
    case _ => OtherStaysHarmless(s, op);
  }

  lemma MallocHarmlessIff(s: State, d: nat, e: Entry, handles: seq<nat>)
    requires var op := Malloc(d, e, handles);
      Conserved(s) && Enabled(s, op) && AllHarmless(s) && Tabled(Apply(s, op))
    ensures AllHarmless(Apply(s, Malloc(d, e, handles))) <==> Unnamed(s, d, handles)
  {
    var t := Apply(s, Malloc(d, e, handles));
    StoreAt(s.cells, e, handles);
    forall a | a in s.alive ensures Named(t, a) == Named(s, a) {
      CellsOnHeap(s, a);
      OthersNames(s, t.cells, e, handles, a);
    }
    MappedHarmlessIff(s, t, d, handles);
  }

  lemma WakeHarmlessIff(s: State, d: nat, handles: seq<nat>)
    requires Conserved(s) && Enabled(s, Wake(d, handles)) && AllHarmless(s) && Tabled(Apply(s, Wake(d, handles)))
    ensures AllHarmless(Apply(s, Wake(d, handles))) <==> Unnamed(s, d, handles)
  {
    WakeMaps(s, d, handles);
    MappedHarmlessIff(s, Apply(s, Wake(d, handles)), d, handles);
  }

  lemma WakeMaps(s: State, d: nat, handles: seq<nat>)
    requires Conserved(s) && Enabled(s, Wake(d, handles)) && Tabled(Apply(s, Wake(d, handles)))
    ensures NewlyMapped(s, Apply(s, Wake(d, handles)), d)
  {
    StoreAt(s.cells, s.table[d], handles);
    OthersStay(s, Apply(s, Wake(d, handles)), d, handles);
  }

  lemma FailedWakeStaysHarmless(s: State, op: Op)
    requires Conserved(s) && (op.WakeUndone? || op.WakePending?) && Enabled(s, op) && AllHarmless(s)
    requires Tabled(Apply(s, op))
    ensures AllHarmless(Apply(s, op))
  {
    HasChunks(s.table[op.d]);
    RenamedStaysHarmless(s, Apply(s, op), op.d, op.created);
  }

  lemma OtherStaysHarmless(s: State, op: Op)
    requires Conserved(s) && (op.MallocRefused? || op.MallocUndone? || op.Sleep?) && Enabled(s, op) && AllHarmless(s)
    requires Tabled(Apply(s, op))
    ensures AllHarmless(Apply(s, op))
  {
    FewerStaysHarmless(s, Apply(s, op));
  }

  lemma FreeStaysHarmless(s: State, d: nat, status: nat)
    requires Conserved(s) && Enabled(s, Free(d, status)) && AllHarmless(s) && Tabled(Apply(s, Free(d, status)))
    ensures AllHarmless(Apply(s, Free(d, status)))
  {
    var t := Apply(s, Free(d, status));
    forall a | a in t.alive ensures Named(t, a) == Named(s, a) {
      OwnCells(s, a, d);
      OthersKeepNames(s, t, d, a);
    }
    FewerStaysHarmless(s, t);
  }

  lemma OthersKeepNames(s: State, t: State, d: nat, a: nat)
    requires Tabled(s) && Tabled(t) && d in s.alive && a in t.alive && a in s.alive && t.table[a] == s.table[a]
    requires Cells(s.table[a]) !! Cells(s.table[d]) && t.cells == s.cells - Cells(s.table[d])
    ensures Named(t, a) == Named(s, a)
  {
    var own := s.table[a].cells;
    forall k | 0 <= k < |own| ensures t.cells[own[k]] == s.cells[own[k]] {
      assert own[k] in Cells(s.table[a]);
    }
  }

  lemma OthersStay(s: State, t: State, d: nat, handles: seq<nat>)
    requires Conserved(s) && Tabled(t) && d in s.alive && |handles| == |s.table[d].cells|
    requires t.alive == s.alive && t.table == s.table && t.cells == Store(s.cells, s.table[d], handles)
    ensures forall a :: a in s.alive && a != d ==> Named(t, a) == Named(s, a)
  {
    forall a | a in s.alive && a != d ensures Named(t, a) == Named(s, a) {
      OwnCells(s, a, d);
      OthersNames(s, t.cells, s.table[d], handles, a);
    }
  }

  /** Whoever stays mapped as before and keeps its cells stays harmless. */
  lemma FewerStaysHarmless(s: State, t: State)
    requires Tabled(s) && Tabled(t) && AllHarmless(s) && t.alive <= s.alive && t.awake <= s.awake
    requires forall a :: a in t.awake ==> SameHolding(s, t, a)
    requires forall a :: a in t.alive ==> Named(t, a) == Named(s, a)
    ensures AllHarmless(t)
  {
    forall a, b | a in t.alive && b in t.awake && a != b ensures NotNamed(Owned(t, b), Named(t, a)) {
      assert Harmless(s, a);
      SameOwnedAt(s, t, b);
    }
  }

  /** Fresh names are no one's memory, so renaming an allocation's cells harms nobody. */
  lemma RenamedStaysHarmless(s: State, t: State, d: nat, created: seq<nat>)
    requires Conserved(s) && Tabled(t) && AllHarmless(s) && d in s.alive && |created| <= |s.table[d].sizes|
    requires FreshHandles(s.gpu.live, created) && t.cells == Renamed(s, d, created)
    requires t.table == s.table && t.alive == s.alive && t.awake == s.awake && t.held == s.held
    ensures AllHarmless(t)
  {
    var handles := created + Named(s, d)[|created|..];
    StoreAt(s.cells, s.table[d], handles);
    OthersStay(s, t, d, handles);
    forall a, b | a in t.alive && b in t.awake && a != b ensures NotNamed(Owned(t, b), Named(t, a)) {
      assert Harmless(s, a);
      SameOwnedAt(s, t, b);
      if a == d {
        LiveIsNotFresh(s, b, created);
        NotNamedSuffix(Owned(s, b), created, Named(s, d));
      }
    }
  }

  lemma LiveIsNotFresh(s: State, a: nat, handles: seq<nat>)
    requires Conserved(s) && a in s.awake && NoneUsed(s.gpu.live, handles)
    ensures NotNamed(Owned(s, a), handles)
  {
    forall p | p in Owned(s, a) ensures p.handle !in handles {
      assert p in AwakeMemory(s)[a];
      assert p in s.gpu.live - s.leaked;
    }
  }

  lemma NotNamedSuffix(part: set<Physical>, created: seq<nat>, names: seq<nat>)
    requires |created| <= |names| && NotNamed(part, created) && NotNamed(part, names)
    ensures NotNamed(part, created + names[|created|..])
  {
  }

  /** `t` maps `d` to fresh handles, which its cells name, and changes nothing about the others. */
  ghost predicate NewlyMapped(s: State, t: State, d: nat)
    requires Tabled(s) && Tabled(t)
  {
    && d !in s.awake && t.alive == s.alive + {d} && t.awake == s.awake + {d}
    && Named(t, d) == t.held[d] && NoneUsed(s.gpu.live, t.held[d])
    && (forall a :: a in s.awake ==> SameHolding(s, t, a))
    && (forall a :: a in s.alive && a != d ==> Named(t, a) == Named(s, a))
  }

  /** After that nobody is harmful exactly if none of the new handles was named before. */
  lemma MappedHarmlessIff(s: State, t: State, d: nat, handles: seq<nat>)
    requires Conserved(s) && Tabled(t) && AllHarmless(s) && NewlyMapped(s, t, d) && t.held[d] == handles
    ensures AllHarmless(t) <==> Unnamed(s, d, handles)
  {
    forall a | a in t.alive
      ensures Harmless(t, a) <==> (a == d || !Shares(handles, Named(s, a)))
    {
      MappedHarmlessAt(s, t, d, a);
    }
    if AllHarmless(t) {
      forall a | a in s.alive && a != d ensures !Shares(handles, Named(s, a)) {
        assert Harmless(t, a);
      }
    }
  }

  lemma MappedHarmlessAt(s: State, t: State, d: nat, a: nat)
    requires Conserved(s) && Tabled(t) && AllHarmless(s) && NewlyMapped(s, t, d) && a in t.alive
    ensures Harmless(t, a) <==> (a == d || !Shares(t.held[d], Named(s, a)))
  {
    forall b | b in s.awake && b != a ensures NotNamed(Owned(t, b), Named(t, a)) {
      SameOwnedAt(s, t, b);
      if a == d {
        LiveIsNotFresh(s, b, t.held[d]);
      } else {
        assert Harmless(s, a);
      }
    }
    if a != d {
      OwnedIsNamedIff(t, d, Named(s, a));
    }
  }

  lemma OwnedIsNamedIff(s: State, d: nat, names: seq<nat>)
    requires Tabled(s) && d in s.awake
    ensures NotNamed(Owned(s, d), names) <==> !Shares(s.held[d], names)
  {
    var sizes, handles := s.table[d].sizes, s.held[d];
    forall k | 0 <= k < |handles| ensures Physical(handles[k], sizes[k]) in Owned(s, d) {
    }
    if Shares(handles, names) {
      var k :| 0 <= k < |handles| && handles[k] in names;
      assert Physical(handles[k], sizes[k]) in Owned(s, d);
    }
  }
}
