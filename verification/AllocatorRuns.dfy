/** Safety of every run of my_malloc, my_free, sleep and wake. */
module AllocatorRuns {
  import opened GpuDriver
  import opened Chunks
  import opened AllocatorState

  /** Consecutive states of a run, each obtained by the enabled operation between them. */
  ghost predicate IsRun(states: seq<State>, ops: seq<Op>) {
    && |states| == |ops| + 1
    && forall k :: 0 <= k < |ops| ==>
         Tabled(states[k]) && Enabled(states[k], ops[k]) && states[k + 1] == Apply(states[k], ops[k])
  }

  // ---- parts --------------------------------------------------------------------

  lemma PartAdded<T(!new)>(whole: set<T>, parts: map<nat, set<T>>, d: nat, part: set<T>)
    requires IsUnion(whole, parts) && d !in parts
    ensures IsUnion(whole + part, parts[d := part])
  {
    var parts' := parts[d := part];
    forall x | x in whole + part ensures exists a :: a in parts' && x in parts'[a] {
      if x in part {
        assert d in parts' && x in parts'[d];
      } else {
        var a :| a in parts && x in parts[a];
        assert a in parts' && x in parts'[a];
      }
    }
  }

  lemma PartRemoved<T(!new)>(whole: set<T>, parts: map<nat, set<T>>, d: nat)
    requires IsUnion(whole, parts) && d in parts
    requires forall a :: a in parts && a != d ==> parts[a] !! parts[d]
    ensures IsUnion(whole - parts[d], parts - {d})
  {
    var parts' := parts - {d};
    forall x | x in whole - parts[d] ensures exists a :: a in parts' && x in parts'[a] {
      var a :| a in parts && x in parts[a];
      assert a in parts' && x in parts'[a];
    }
  }

  /** The accounting of memory: the parts make up all that lives and is not leaked, under handles of their own. */
  ghost predicate Accounted(live: set<Physical>, leaked: set<Physical>, parts: map<nat, set<Physical>>) {
    && IsUnion(live - leaked, parts) && leaked <= live
    && PairwiseDisjoint(parts) && NoneLeaked(parts, leaked)
  }

  lemma MemoryAdded(live: set<Physical>, leaked: set<Physical>, parts: map<nat, set<Physical>>, d: nat,
                    sizes: seq<nat>, handles: seq<nat>)
    requires Accounted(live, leaked, parts) && d !in parts
    requires |sizes| == |handles| && NoneUsed(live, handles)
    ensures var part := Backing(sizes, handles, 0, |sizes|); Accounted(live + part, leaked, parts[d := part])
  {
    var part := Backing(sizes, handles, 0, |sizes|);
    forall a | a in parts ensures Disjoint(parts[a], part) {
      PartLives(live, leaked, parts, a);
      FreshIsDisjoint(live, parts[a], sizes, handles);
    }
    FreshIsDisjoint(live, leaked, sizes, handles);
    StillBesides(live, leaked, part);
    PartAdded(live - leaked, parts, d, part);
    DisjointAdded(parts, d, part);
  }

  lemma PartLives(live: set<Physical>, leaked: set<Physical>, parts: map<nat, set<Physical>>, a: nat)
    requires IsUnion(live - leaked, parts) && a in parts
    ensures parts[a] <= live
  {
    assert forall x :: x in parts[a] ==> x in live - leaked;
  }

  /** What one owner had is leaked instead. */
  lemma MemoryDisowned(live: set<Physical>, leaked: set<Physical>, parts: map<nat, set<Physical>>, d: nat)
    requires Accounted(live, leaked, parts) && d in parts
    ensures Accounted(live, leaked + parts[d], parts - {d})
  {
    forall a | a in parts && a != d ensures parts[a] !! parts[d] {
      assert Disjoint(parts[a], parts[d]);
    }
    PartLives(live, leaked, parts, d);
    assert live - (leaked + parts[d]) == (live - leaked) - parts[d];
    PartRemoved(live - leaked, parts, d);
  }

  /** Releasing handles that no owner has takes away leaked memory only. */
  lemma MemoryReleased(live: set<Physical>, leaked: set<Physical>, parts: map<nat, set<Physical>>, handles: seq<nat>)
    requires Accounted(live, leaked, parts) && forall a :: a in parts ==> NotNamed(parts[a], handles)
    ensures Accounted(ReleasedFrom(live, handles), ReleasedFrom(leaked, handles), parts)
  {
    forall p | p in live - leaked ensures p.handle !in handles {
      var a :| a in parts && p in parts[a];
      assert NotNamed(parts[a], handles);
    }
    assert ReleasedFrom(live, handles) - ReleasedFrom(leaked, handles) == live - leaked;
  }

  lemma MemoryLeaked(live: set<Physical>, leaked: set<Physical>, parts: map<nat, set<Physical>>, left: set<Physical>)
    requires Accounted(live, leaked, parts) && forall p :: p in left ==> Unused(live, p.handle)
    ensures Accounted(live + left, leaked + left, parts)
  {
    assert (live + left) - (leaked + left) == live - leaked;
    forall a | a in parts ensures Disjoint(parts[a], leaked + left) {
      PartLives(live, leaked, parts, a);
    }
  }

  lemma StillBesides(live: set<Physical>, leaked: set<Physical>, part: set<Physical>)
    requires Disjoint(leaked, part)
    ensures (live + part) - leaked == (live - leaked) + part && Disjoint(part, leaked)
  {
  }

  lemma DisjointAdded(parts: map<nat, set<Physical>>, d: nat, part: set<Physical>)
    requires PairwiseDisjoint(parts) && d !in parts
    requires forall a :: a in parts ==> Disjoint(parts[a], part)
    ensures PairwiseDisjoint(parts[d := part])
  {
  }

  lemma FreshIsDisjoint(live: set<Physical>, part: set<Physical>, sizes: seq<nat>, handles: seq<nat>)
    requires |sizes| == |handles| && part <= live && NoneUsed(live, handles)
    ensures Disjoint(part, Backing(sizes, handles, 0, |sizes|))
  {
  }

  // ---- the allocations that a step does not touch --------------------------------------

  /** Both states map the allocation in the same way. */
  ghost predicate SameHolding(s: State, t: State, d: nat) {
    && d in s.table && d in t.table && s.table[d] == t.table[d]
    && d in s.held && d in t.held && s.held[d] == t.held[d]
  }

  lemma SameOwnedAt(s: State, t: State, a: nat)
    requires Tabled(s) && Tabled(t) && a in s.awake && SameHolding(s, t, a)
    ensures Owned(t, a) == Owned(s, a) && OwnedMaps(t, a) == OwnedMaps(s, a)
  {
  }

  lemma SameOwned(s: State, t: State)
    requires Tabled(s) && Tabled(t) && t.awake == s.awake && forall a :: a in s.awake ==> SameHolding(s, t, a)
    ensures AwakeMemory(t) == AwakeMemory(s) && AwakeMaps(t) == AwakeMaps(s)
  {
    forall a | a in s.awake ensures Owned(t, a) == Owned(s, a) && OwnedMaps(t, a) == OwnedMaps(s, a) {
      SameOwnedAt(s, t, a);
    }
  }

  lemma SameView(s: State, t: State)
    requires Conserved(s) && t.gpu == s.gpu && t.cells == s.cells && t.alive == s.alive && t.awake == s.awake
    requires t.leaked == s.leaked && t.held == s.held
    requires s.alive <= t.table.Keys && forall d :: d in s.alive ==> t.table[d] == s.table[d]
    ensures Conserved(t)
  {
    SameOwned(s, t);
    assert AliveCells(t) == AliveCells(s);
  }

  /** Mappings of two awake allocations differ, since their handles do. */
  lemma MapsDiffer(s: State, a: nat, b: nat)
    requires Tabled(s) && a in s.awake && b in s.awake && Disjoint(Owned(s, a), Owned(s, b))
    ensures OwnedMaps(s, a) !! OwnedMaps(s, b)
  {
    forall m | m in OwnedMaps(s, a) ensures Physical(m.handle, m.bytes) in Owned(s, a) {
    }
    forall m | m in OwnedMaps(s, b) ensures Physical(m.handle, m.bytes) in Owned(s, b) {
    }
  }

  /** A newly mapped allocation with fresh handles keeps the accounting exact. */
  lemma AwakeAdded(s: State, t: State, d: nat, handles: seq<nat>)
    requires Added(s, t, d) && Exact(s) && Unshared(s) && t.held[d] == handles
    requires FreshHandles(s.gpu.live, handles) && t.leaked == s.leaked
    requires t.gpu.live == s.gpu.live + Owned(t, d) && t.gpu.mapped == s.gpu.mapped + OwnedMaps(t, d)
    requires t.gpu.accessible == s.gpu.accessible + OwnedMaps(t, d)
    ensures Exact(t) && Unshared(t)
  {
    AddedMemory(s, t, d);
    AddedMaps(s, t, d);
    MemoryAdded(s.gpu.live, s.leaked, AwakeMemory(s), d, t.table[d].sizes, handles);
    PartAdded(s.gpu.mapped, AwakeMaps(s), d, OwnedMaps(t, d));
  }

  ghost predicate Added(s: State, t: State, d: nat) {
    && Tabled(s) && Tabled(t) && d !in s.awake && t.awake == s.awake + {d} && d in t.held
    && t.held == s.held[d := t.held[d]] && forall a :: a in s.awake ==> t.table[a] == s.table[a]
  }

  lemma AddedMemory(s: State, t: State, d: nat)
    requires Added(s, t, d)
    ensures AwakeMemory(t) == AwakeMemory(s)[d := Owned(t, d)]
  {
    forall a | a in s.awake ensures Owned(t, a) == Owned(s, a) {
      SameOwnedAt(s, t, a);
    }
  }

  lemma AddedMaps(s: State, t: State, d: nat)
    requires Added(s, t, d)
    ensures AwakeMaps(t) == AwakeMaps(s)[d := OwnedMaps(t, d)]
  {
    forall a | a in s.awake ensures OwnedMaps(t, a) == OwnedMaps(s, a) {
      SameOwnedAt(s, t, a);
    }
  }

  ghost function PartOf<T>(parts: map<nat, set<T>>, d: nat): set<T> {
    if d in parts then parts[d] else {}
  }

  lemma UndoMemory(live: set<Physical>, leaked: set<Physical>, parts: map<nat, set<Physical>>, d: nat, handles: seq<nat>)
    requires Accounted(live, leaked, parts) && forall a :: a in parts && a != d ==> NotNamed(parts[a], handles)
    ensures Accounted(ReleasedFrom(live, handles), ReleasedFrom(leaked + PartOf(parts, d), handles), parts - {d})
  {
    if d in parts {
      MemoryDisowned(live, leaked, parts, d);
    } else {
      assert parts - {d} == parts && leaked + PartOf(parts, d) == leaked;
    }
    MemoryReleased(live, leaked + PartOf(parts, d), parts - {d}, handles);
  }

  lemma UndoMaps(mapped: set<Mapping>, parts: map<nat, set<Mapping>>, d: nat)
    requires IsUnion(mapped, parts) && (d in parts ==> forall a :: a in parts && a != d ==> parts[a] !! parts[d])
    ensures IsUnion(mapped - PartOf(parts, d), parts - {d})
  {
    if d in parts {
      PartRemoved(mapped, parts, d);
    } else {
      assert parts - {d} == parts && mapped - PartOf(parts, d) == mapped;
    }
  }

  /** The state after undoing, but for the reservation, the cells, the table and the error. */
  lemma UndoingKeepsExact(s: State, t: State, d: nat)
    requires Conserved(s) && d in s.alive && Harmless(s, d) && Tabled(t)
    requires t.awake == s.awake - {d} && t.held == s.held - {d}
    requires forall a :: a in t.awake ==> t.table[a] == s.table[a]
    requires t.leaked == AfterUndoing(s, d).leaked
    requires t.gpu.live == AfterUndoing(s, d).gpu.live && t.gpu.mapped == AfterUndoing(s, d).gpu.mapped
    requires t.gpu.accessible == AfterUndoing(s, d).gpu.accessible
    ensures Exact(t) && Unshared(t)
  {
    RemainingParts(s, t, d);
    OthersNotNamed(s, d);
    assert PartOf(AwakeMemory(s), d) == HeldMemory(s, d) && PartOf(AwakeMaps(s), d) == HeldMaps(s, d);
    UndoMemory(s.gpu.live, s.leaked, AwakeMemory(s), d, Named(s, d));
    OwnMapsOnly(s, d);
    UndoMaps(s.gpu.mapped, AwakeMaps(s), d);
  }

  lemma OwnMapsOnly(s: State, d: nat)
    requires Tabled(s) && Unshared(s)
    ensures d in AwakeMaps(s) ==> forall a :: a in AwakeMaps(s) && a != d ==> AwakeMaps(s)[a] !! AwakeMaps(s)[d]
  {
    if d in s.awake {
      forall a | a in s.awake && a != d ensures AwakeMaps(s)[a] !! AwakeMaps(s)[d] {
        assert Disjoint(AwakeMemory(s)[a], AwakeMemory(s)[d]);
        MapsDiffer(s, a, d);
      }
    }
  }

  lemma RemainingParts(s: State, t: State, d: nat)
    requires Tabled(s) && Tabled(t) && t.awake == s.awake - {d} && t.held == s.held - {d}
    requires forall a :: a in t.awake ==> t.table[a] == s.table[a]
    ensures AwakeMemory(t) == AwakeMemory(s) - {d} && AwakeMaps(t) == AwakeMaps(s) - {d}
  {
    forall a | a in t.awake ensures Owned(t, a) == Owned(s, a) && OwnedMaps(t, a) == OwnedMaps(s, a) {
      SameOwnedAt(s, t, a);
    }
  }

  lemma OthersNotNamed(s: State, d: nat)
    requires Tabled(s) && d in s.alive && Harmless(s, d)
    ensures forall a :: a in AwakeMemory(s) && a != d ==> NotNamed(AwakeMemory(s)[a], Named(s, d))
  {
  }

  lemma ReservedAfterMalloc(s: State, t: State, d: nat, e: Entry)
    requires Tabled(s) && Reserved(s) && Tabled(t) && 0 < d && d !in s.alive
    requires RangeFree(s.gpu.reserved, d, e.bytes)
    requires t.gpu.reserved == s.gpu.reserved[d := e.bytes] && t.table == s.table[d := e] && t.alive == s.alive + {d}
    ensures Reserved(t)
  {
    forall a | a in s.alive ensures Apart(a, s.table[a].bytes, d, e.bytes) {
      assert a in s.gpu.reserved;
    }
  }

  lemma CellsAfterMalloc(s: State, t: State, d: nat, e: Entry)
    requires Tabled(s) && CellsOwned(s) && Tabled(t) && d !in s.alive && Cells(e) !! s.cells.Keys
    requires t.cells.Keys == s.cells.Keys + Cells(e) && t.table == s.table[d := e] && t.alive == s.alive + {d}
    ensures CellsOwned(t)
  {
    PartAdded(s.cells.Keys, AliveCells(s), d, Cells(e));
    assert AliveCells(t) == AliveCells(s)[d := Cells(e)];
    forall a | a in s.alive ensures AliveCells(s)[a] !! Cells(e) {
      CellsOnHeap(s, a);
    }
  }

  lemma CellsOnHeap(s: State, a: nat)
    requires a in s.table && HasCells(s.cells, s.table[a])
    ensures Cells(s.table[a]) <= s.cells.Keys
  {
    forall c | c in Cells(s.table[a]) ensures c in s.cells {
      var k := IndexOf(s.table[a].cells, c);
      assert s.table[a].cells[k] in s.cells;
    }
  }

  lemma CellsAfterFree(s: State, t: State, d: nat)
    requires Tabled(s) && CellsOwned(s) && d in s.alive && Tabled(t)
    requires t.cells.Keys == s.cells.Keys - Cells(s.table[d]) && t.table == s.table - {d} && t.alive == s.alive - {d}
    ensures CellsOwned(t)
  {
    PartRemoved(s.cells.Keys, AliveCells(s), d);
    assert AliveCells(t) == AliveCells(s) - {d};
  }

  // ---- each step ------------------------------------------------------------------------

  lemma TabledAfterMalloc(s: State, d: nat, e: Entry, handles: seq<nat>)
    requires Tabled(s) && Enabled(s, Malloc(d, e, handles))
    ensures var t := Apply(s, Malloc(d, e, handles));
      && Tabled(t) && Added(s, t, d)
      && Owned(t, d) == Backing(e.sizes, handles, 0, |e.sizes|) && OwnedMaps(t, d) == Maps(d, e.sizes, handles, 0, |e.sizes|)
  {
    StoreAt(s.cells, e, handles);
  }

  lemma MallocConserves(s: State, d: nat, e: Entry, handles: seq<nat>)
    requires Conserved(s) && Enabled(s, Malloc(d, e, handles))
    ensures Conserved(Apply(s, Malloc(d, e, handles)))
  {
    var t := Apply(s, Malloc(d, e, handles));
    TabledAfterMalloc(s, d, e, handles);
    ReservedAfterMalloc(s, t, d, e);
    CellsAfterMalloc(s, t, d, e);
    AwakeAdded(s, t, d, handles);
  }

  lemma FreeConserves(s: State, d: nat, status: nat)
    requires Conserved(s) && Enabled(s, Free(d, status))
    ensures Conserved(Apply(s, Free(d, status)))
  {
    var t := Apply(s, Free(d, status));
    OthersKeepTheirs(s, t, d);
    CellsAfterFree(s, t, d);
    UndoingKeepsExact(s, t, d);
  }

  /** Freeing one allocation's cells leaves the others' on the heap. */
  lemma OthersKeepTheirs(s: State, t: State, d: nat)
    requires Tabled(s) && CellsOwned(s) && d in s.alive
    requires t.cells == s.cells - Cells(s.table[d]) && t.table == s.table - {d}
    requires t.alive == s.alive - {d} && t.awake == s.awake - {d} && t.held == s.held - {d}
    ensures Tabled(t)
  {
    forall a | a in t.alive ensures HasCells(t.cells, t.table[a]) {
      assert AliveCells(s)[a] !! AliveCells(s)[d];
      forall k | 0 <= k < |t.table[a].cells| ensures t.table[a].cells[k] in t.cells {
        assert t.table[a].cells[k] in AliveCells(s)[a];
      }
    }
  }

  lemma SleepConserves(s: State, d: nat)
    requires Conserved(s) && Enabled(s, Sleep(d))
    ensures Conserved(Apply(s, Sleep(d)))
  {
    var t := Apply(s, Sleep(d));
    assert AliveCells(t) == AliveCells(s);
    UndoingKeepsExact(s, t, d);
  }

  /** Writing into cells that are on the heap changes nothing but their contents. */
  lemma StoringKeepsCells(s: State, d: nat, handles: seq<nat>)
    requires Tabled(s) && d in s.alive && |handles| == |s.table[d].cells|
    ensures Store(s.cells, s.table[d], handles).Keys == s.cells.Keys
  {
    CellsOnHeap(s, d);
  }

  lemma TabledAfterWake(s: State, d: nat, handles: seq<nat>)
    requires Tabled(s) && Enabled(s, Wake(d, handles))
    ensures var t := Apply(s, Wake(d, handles));
      Added(s, t, d) && AliveCells(t) == AliveCells(s) && t.cells.Keys == s.cells.Keys
  {
    StoringKeepsCells(s, d, handles);
  }

  lemma WakeConserves(s: State, d: nat, handles: seq<nat>)
    requires Conserved(s) && Enabled(s, Wake(d, handles))
    ensures Conserved(Apply(s, Wake(d, handles)))
  {
    var t := Apply(s, Wake(d, handles));
    TabledAfterWake(s, d, handles);
    AwakeAdded(s, t, d, handles);
  }

  /** Renaming cells disturbs no accounting: what an allocation is mapped to does not depend on them. */
  lemma RenamingConserves(s: State, d: nat, created: seq<nat>)
    requires Conserved(s) && d in s.alive && |created| <= |s.table[d].sizes|
    ensures Conserved(s.(cells := Renamed(s, d, created)))
  {
    var t := s.(cells := Renamed(s, d, created));
    StoringKeepsCells(s, d, created + Named(s, d)[|created|..]);
    assert Tabled(t) && AliveCells(t) == AliveCells(s);
    SameOwned(s, t);
  }

  lemma LeakConserves(s: State, left: set<Physical>)
    requires Conserved(s) && forall p :: p in left ==> Unused(s.gpu.live, p.handle)
    ensures Conserved(s.(gpu := s.gpu.(live := s.gpu.live + left), leaked := s.leaked + left, error := 0))
  {
    var t := s.(gpu := s.gpu.(live := s.gpu.live + left), leaked := s.leaked + left, error := 0);
    assert Tabled(t) && AliveCells(t) == AliveCells(s);
    SameOwned(s, t);
    MemoryLeaked(s.gpu.live, s.leaked, AwakeMemory(s), left);
  }

  // ---- every run --------------------------------------------------------------

  lemma StepConserves(s: State, op: Op)
    requires Conserved(s) && Enabled(s, op)
    ensures Conserved(Apply(s, op))
  {
    match op
    case Malloc(d, e, handles) => MallocConserves(s, d, e, handles);
    case MallocRefused(_) => SameView(s, Apply(s, op));
    case MallocUndone(d, e, _) => SameView(s, Apply(s, op));
    case Free(d, status) => FreeConserves(s, d, status);
    case Sleep(d) => SleepConserves(s, d);
    case Wake(d, handles) => WakeConserves(s, d, handles);
    case WakeUndone(d, created) => RenamingConserves(s, d, created);
    case WakePending(d, created) =>
      HasChunks(s.table[d]);
      RenamingConserves(s, d, created);
      LeakConserves(s.(cells := Renamed(s, d, created)), LeftBehind(s.table[d], created));
  }

  lemma {:induction false} StaysConserved(states: seq<State>, ops: seq<Op>, k: nat)
    requires IsRun(states, ops) && k <= |ops| && Conserved(states[0])
    ensures Conserved(states[k])
  {
    if k > 0 {
      StaysConserved(states, ops, k - 1);
      StepConserves(states[k - 1], ops[k - 1]);
    }
  }

  /** Every state of every run from the empty allocator is conserved. */
  lemma RunsConserve(states: seq<State>, ops: seq<Op>, k: nat)
    requires IsRun(states, ops) && k < |states| && states[0] == EMPTY
    ensures Conserved(states[k])
  {
    StaysConserved(states, ops, k);
  }

  // ---- when undoing does harm ---------------------------------------------------------

  /** Undoing an allocation keeps the accounting if and only if its cells name no handle another
      awake allocation is mapped to: otherwise that one stays mapped to memory that is gone. */
  lemma HarmBreaks(s: State, t: State, d: nat)
    requires Conserved(s) && d in s.alive && !Harmless(s, d)
    requires t.gpu.live == ReleasedFrom(s.gpu.live, Named(s, d)) && t.gpu.mapped == s.gpu.mapped - HeldMaps(s, d)
    ensures !Conserved(t)
  {
    var a :| a in s.awake && a != d && !NotNamed(Owned(s, a), Named(s, d));
    var p :| p in Owned(s, a) && p.handle in Named(s, d);
    var m := MappingOf(s, a, p);
    StaysMapped(s, a, d, m);
    if Conserved(t) {
      MappedIsLive(t, m);
      assert false;
    }
  }

  lemma StaysMapped(s: State, a: nat, d: nat, m: Mapping)
    requires Conserved(s) && a in s.awake && a != d && m in OwnedMaps(s, a)
    ensures m in s.gpu.mapped - HeldMaps(s, d)
  {
    assert AwakeMaps(s)[a] == OwnedMaps(s, a);
    OwnMapsOnly(s, d);
  }

  lemma MappingOf(s: State, d: nat, p: Physical) returns (m: Mapping)
    requires Tabled(s) && d in s.awake && p in Owned(s, d)
    ensures m in OwnedMaps(s, d) && m.handle == p.handle
  {
    var sizes := s.table[d].sizes;
    var k: nat :| k < |sizes| && p == Physical(s.held[d][k], sizes[k]);
    m := ChunkMap(d, sizes, s.held[d], k);
  }

  /** In a conserved state something lives under the handle of every mapping. */
  lemma MappedIsLive(s: State, m: Mapping)
    requires Conserved(s) && m in s.gpu.mapped
    ensures !Unused(s.gpu.live, m.handle)
  {
    var d :| d in AwakeMaps(s) && m in AwakeMaps(s)[d];
    var p := Physical(m.handle, m.bytes);
    assert p in AwakeMemory(s)[d];
    assert p in s.gpu.live - s.leaked;
  }

  /** A sound allocation undoes its own memory, all of it and nothing else. */
  lemma SoundUndoing(s: State, d: nat)
    requires Conserved(s) && Sound(s, d)
    ensures Harmless(s, d) && Undoable(s, d)
    ensures AfterUndoing(s, d).leaked == s.leaked && AfterUndoing(s, d).gpu.live == s.gpu.live - Owned(s, d)
  {
    var sizes, handles := s.table[d].sizes, s.held[d];
    var parts := AwakeMemory(s);
    assert parts[d] == Owned(s, d);
    PartLives(s.gpu.live, s.leaked, parts, d);
    OwnNames(sizes, handles);
    forall a | a in s.awake && a != d ensures NotNamed(Owned(s, a), handles) {
      assert Disjoint(parts[a], parts[d]);
      OtherNames(parts[a], sizes, handles);
    }
    assert Disjoint(parts[d], s.leaked);
    OtherNames(s.leaked, sizes, handles);
    forall p | p in s.gpu.live && p !in parts[d] ensures p.handle !in handles {
      if p !in s.leaked {
        assert p in s.gpu.live - s.leaked;
        var a :| a in parts && p in parts[a];
        assert NotNamed(Owned(s, a), handles);
      }
    }
    forall k | 0 <= k < |handles| ensures !Unused(s.gpu.live, handles[k]) {
      assert Physical(handles[k], sizes[k]) in parts[d];
    }
  }

  lemma OwnNames(sizes: seq<nat>, handles: seq<nat>)
    requires |sizes| == |handles|
    ensures forall p :: p in Backing(sizes, handles, 0, |sizes|) ==> p.handle in handles
  {
  }

  lemma OtherNames(others: set<Physical>, sizes: seq<nat>, handles: seq<nat>)
    requires |sizes| == |handles|
    requires Disjoint(others, Backing(sizes, handles, 0, |sizes|)) || Disjoint(Backing(sizes, handles, 0, |sizes|), others)
    ensures NotNamed(others, handles)
  {
    forall p | p in others ensures p.handle !in handles {
      forall k | 0 <= k < |handles| ensures p.handle != handles[k] {
        assert Physical(handles[k], sizes[k]) in Backing(sizes, handles, 0, |sizes|);
      }
    }
  }

  // ---- when nothing is lost -------------------------------------------------------------

  /** Nothing is leaked, and every awake allocation can be undone through its own cells. */
  ghost predicate Tidy(s: State)
    requires Tabled(s)
  {
    s.leaked == {} && forall d :: d in s.awake ==> Sound(s, d)
  }

  /** The operation is no wake that creates memory although an error is pending or the allocation
      is awake already. */
  ghost predicate Careful(s: State, op: Op) {
    && (op.WakePending? ==> op.created == [])
    && (op.WakeUndone? && op.d in s.awake ==> op.created == [])
  }

  /** Memory is lost by exactly those wakes. */
  lemma TidyStep(s: State, op: Op)
    requires Conserved(s) && Enabled(s, op) && Tidy(s)
    ensures Tabled(Apply(s, op)) && (Tidy(Apply(s, op)) <==> Careful(s, op))
  {
    StepConserves(s, op);
    match op
    case Malloc(d, e, handles) => MallocStaysTidy(s, d, e, handles);
    case MallocRefused(_) => CellsDecide(s, Apply(s, op));
    case MallocUndone(d, e, _) => CellsDecide(s, Apply(s, op));
    case Free(d, status) => FreeStaysTidy(s, d, status);
    case Sleep(d) => SleepStaysTidy(s, d);
    case Wake(d, handles) => WakeStaysTidy(s, d, handles);
    case WakeUndone(d, created) => RenamingIsTidyIff(s, Apply(s, op), d, created);
    case WakePending(d, created) => PendingIsTidyIff(s, d, created);
  }

  lemma CellsDecide(s: State, t: State)
    requires Tabled(s) && Tabled(t) && t.leaked == s.leaked && t.awake == s.awake && t.held == s.held && t.cells == s.cells
    requires forall d :: d in s.awake ==> t.table[d] == s.table[d]
    ensures Tidy(t) <==> Tidy(s)
  {
    forall d | d in s.awake ensures Sound(t, d) <==> Sound(s, d) {
    }
  }

  /** Writing into one allocation's cells leaves what the others' name. */
  lemma OthersNames(s: State, cells: map<nat, nat>, e: Entry, handles: seq<nat>, a: nat)
    requires Tabled(s) && a in s.alive && |handles| == |e.cells| && cells == Store(s.cells, e, handles)
    requires Cells(s.table[a]) !! Cells(e)
    ensures HasCells(cells, s.table[a]) && Handles(cells, s.table[a]) == Named(s, a)
  {
    var own := s.table[a].cells;
    forall k | 0 <= k < |own| ensures own[k] in cells && cells[own[k]] == s.cells[own[k]] {
      assert own[k] in Cells(s.table[a]);
    }
  }

  lemma MallocStaysTidy(s: State, d: nat, e: Entry, handles: seq<nat>)
    requires Conserved(s) && Enabled(s, Malloc(d, e, handles)) && Tidy(s)
    ensures var t := Apply(s, Malloc(d, e, handles)); Tabled(t) && Tidy(t)
  {
    var t := Apply(s, Malloc(d, e, handles));
    StepConserves(s, Malloc(d, e, handles));
    StoreAt(s.cells, e, handles);
    forall a | a in s.awake ensures Sound(t, a) {
      assert Sound(s, a);
      CellsOnHeap(s, a);
      OthersNames(s, t.cells, e, handles, a);
    }
  }

  lemma WakeStaysTidy(s: State, d: nat, handles: seq<nat>)
    requires Conserved(s) && Enabled(s, Wake(d, handles)) && Tidy(s)
    ensures var t := Apply(s, Wake(d, handles)); Tabled(t) && Tidy(t)
  {
    var t := Apply(s, Wake(d, handles));
    StepConserves(s, Wake(d, handles));
    StoreAt(s.cells, s.table[d], handles);
    forall a | a in s.awake ensures Sound(t, a) {
      assert Sound(s, a);
      OwnCells(s, a, d);
      OthersNames(s, t.cells, s.table[d], handles, a);
    }
  }

  lemma OwnCells(s: State, a: nat, b: nat)
    requires Conserved(s) && a in s.alive && b in s.alive && a != b
    ensures Cells(s.table[a]) !! Cells(s.table[b])
  {
    assert AliveCells(s)[a] !! AliveCells(s)[b];
  }

  lemma AsleepUndoing(s: State, d: nat)
    requires Tabled(s) && d in s.alive && d !in s.awake && s.leaked == {}
    ensures AfterUndoing(s, d).leaked == {}
  {
  }

  lemma SleepStaysTidy(s: State, d: nat)
    requires Conserved(s) && Enabled(s, Sleep(d)) && Tidy(s)
    ensures var t := Apply(s, Sleep(d)); Tabled(t) && Tidy(t)
  {
    var t := Apply(s, Sleep(d));
    StepConserves(s, Sleep(d));
    if d in s.awake {
      SoundUndoing(s, d);
    } else {
      AsleepUndoing(s, d);
    }
    forall a | a in t.awake ensures Sound(t, a) {
      assert Sound(s, a);
    }
  }

  lemma FreeStaysTidy(s: State, d: nat, status: nat)
    requires Conserved(s) && Enabled(s, Free(d, status)) && Tidy(s)
    ensures var t := Apply(s, Free(d, status)); Tabled(t) && Tidy(t)
  {
    var t := Apply(s, Free(d, status));
    StepConserves(s, Free(d, status));
    if d in s.awake {
      SoundUndoing(s, d);
    } else {
      AsleepUndoing(s, d);
    }
    forall a | a in t.awake ensures Sound(t, a) {
      assert Sound(s, a);
    }
  }

  lemma RenamingIsTidyIff(s: State, t: State, d: nat, created: seq<nat>)
    requires Conserved(s) && Tidy(s) && d in s.alive && |created| <= |s.table[d].sizes| && FreshHandles(s.gpu.live, created)
    requires Tabled(t) && t.cells == Renamed(s, d, created) && t.leaked == {}
    requires t.table == s.table && t.alive == s.alive && t.awake == s.awake && t.held == s.held
    ensures Tidy(t) <==> (d in s.awake ==> created == [])
  {
    var handles := created + Named(s, d)[|created|..];
    StoreAt(s.cells, s.table[d], handles);
    forall a | a in s.awake && a != d ensures Sound(t, a) {
      assert Sound(s, a);
      OwnCells(s, a, d);
      OthersNames(s, t.cells, s.table[d], handles, a);
    }
    if d in s.awake {
      assert Sound(s, d) && Named(t, d) == handles;
      if created != [] {
        HeldIsUsed(s, d, 0);
        assert handles[0] == created[0];
      }
    }
  }

  lemma HeldIsUsed(s: State, d: nat, k: nat)
    requires Conserved(s) && d in s.awake && k < |s.held[d]|
    ensures !Unused(s.gpu.live, s.held[d][k])
  {
    var p := Physical(s.held[d][k], s.table[d].sizes[k]);
    assert p in AwakeMemory(s)[d];
    assert p in s.gpu.live - s.leaked;
  }

  lemma PendingIsTidyIff(s: State, d: nat, created: seq<nat>)
    requires Conserved(s) && Enabled(s, WakePending(d, created)) && Tidy(s)
    ensures var t := Apply(s, WakePending(d, created)); Tabled(t) && (Tidy(t) <==> created == [])
  {
    var t := Apply(s, WakePending(d, created));
    StepConserves(s, WakePending(d, created));
    HasChunks(s.table[d]);
    if created == [] {
      RenamingIsTidyIff(s, t, d, created);
    } else {
      assert Physical(created[0], s.table[d].sizes[0]) in t.leaked;
    }
  }

  /** In a run, nothing is ever lost if and only if no wake creates memory while an error is pending or on
      an allocation that is awake. */
  lemma NothingIsLostIff(states: seq<State>, ops: seq<Op>)
    requires IsRun(states, ops) && states[0] == EMPTY
    ensures (forall k :: 0 <= k <= |ops| ==> Tabled(states[k]) && Tidy(states[k]))
      <==> forall k :: 0 <= k < |ops| ==> Careful(states[k], ops[k])
  {
    if forall k :: 0 <= k < |ops| ==> Careful(states[k], ops[k]) {
      forall k | 0 <= k <= |ops| ensures Tabled(states[k]) && Tidy(states[k]) {
        StaysTidy(states, ops, k);
      }
    }
    if forall k :: 0 <= k <= |ops| ==> Tabled(states[k]) && Tidy(states[k]) {
      forall k | 0 <= k < |ops| ensures Careful(states[k], ops[k]) {
        RunsConserve(states, ops, k);
        TidyStep(states[k], ops[k]);
        assert Tidy(states[k + 1]);
      }
    }
  }

  lemma {:induction false} StaysTidy(states: seq<State>, ops: seq<Op>, k: nat)
    requires IsRun(states, ops) && states[0] == EMPTY && k <= |ops|
    requires forall i :: 0 <= i < |ops| ==> Careful(states[i], ops[i])
    ensures Tabled(states[k]) && Tidy(states[k])
  {
    if k > 0 {
      StaysTidy(states, ops, k - 1);
      RunsConserve(states, ops, k - 1);
      TidyStep(states[k - 1], ops[k - 1]);
    }
  }

  // ---- consequences -------------------------------------------------------

  /** A failed `my_malloc` poisons the allocator: until a sleep, or a wake that fails for it, clears the
      error code, no later `my_malloc` or wake succeeds and nothing new comes alive. */
  lemma {:induction false} ErrorIsSticky(states: seq<State>, ops: seq<Op>, k: nat)
    requires IsRun(states, ops) && k <= |ops| && states[0].error != 0
    requires forall i :: 0 <= i < |ops| ==> !ops[i].Sleep? && !ops[i].WakePending?
    ensures states[k].error != 0 && states[k].alive <= states[0].alive
    ensures k < |ops| ==> !ops[k].Malloc? && !ops[k].Wake?
  {
    if k > 0 {
      ErrorIsSticky(states, ops, k - 1);
    }
  }

  /** Addresses whose table entry was left behind by an undone `my_malloc` and not overwritten since. */
  function Stale(ops: seq<Op>): set<nat> {
    if ops == [] then {} else StaleAfter(Stale(ops[..|ops| - 1]), ops[|ops| - 1])
  }

  function StaleAfter(before: set<nat>, op: Op): set<nat> {
    match op
    case MallocUndone(d, _, _) => before + {d}
    case Malloc(d, _, _) => before - {d}
    case _ => before
  }

  /** The Python table holds the living allocations and the stale entries, and nothing else.
      So it lists exactly the living ones if and only if no undone `my_malloc` is outstanding. */
  lemma {:induction false} TableIsAliveAndStale(states: seq<State>, ops: seq<Op>, k: nat)
    requires IsRun(states, ops) && k <= |ops| && states[0] == EMPTY
    ensures states[k].table.Keys == states[k].alive + Stale(ops[..k])
    ensures states[k].table.Keys == states[k].alive <==> Stale(ops[..k]) == {}
  {
    TableKeys(states, ops, k);
  }

  lemma {:induction false} TableKeys(states: seq<State>, ops: seq<Op>, k: nat)
    requires IsRun(states, ops) && k <= |ops| && states[0] == EMPTY
    ensures states[k].table.Keys == states[k].alive + Stale(ops[..k])
    ensures states[k].alive !! Stale(ops[..k])
  {
    if k > 0 {
      TableKeys(states, ops, k - 1);
      RunsConserve(states, ops, k - 1);
      assert ops[..k][..k - 1] == ops[..k - 1];
      TableKeysStep(states[k - 1], ops[k - 1], Stale(ops[..k - 1]));
    }
  }

  lemma TableKeysStep(s: State, op: Op, stale: set<nat>)
    requires Tabled(s) && Enabled(s, op)
    requires s.table.Keys == s.alive + stale && s.alive !! stale
    ensures var t := Apply(s, op);
      t.table.Keys == t.alive + StaleAfter(stale, op) && t.alive !! StaleAfter(stale, op)
  {
  }

  predicate Frees(op: Op, d: nat) {
    op.Free? && op.d == d
  }

  /** While an allocation lives, its tuple never changes, whatever else happens. */
  lemma {:induction false} TupleIsStable(states: seq<State>, ops: seq<Op>, d: nat, k: nat)
    requires IsRun(states, ops) && k <= |ops| && Tabled(states[0]) && d in states[0].alive
    requires forall i :: 0 <= i < |ops| ==> !Frees(ops[i], d)
    ensures d in states[k].alive && d in states[k].table
    ensures states[k].table[d] == states[0].table[d]
  {
    if k > 0 {
      TupleIsStable(states, ops, d, k - 1);
    }
  }

  datatype Range = Range(addr: nat, bytes: nat)

  ghost function RangesOf(maps: set<Mapping>): set<Range> {
    set m | m in maps :: Range(m.addr, m.bytes)
  }

  /** Sleeping and waking, with anything but a free of `d` in between, maps the same
      ranges at the same address again; a sound allocation gave up all its memory meanwhile. */
  lemma SleepThenWakeRestores(states: seq<State>, ops: seq<Op>, d: nat)
    requires IsRun(states, ops) && Conserved(states[0]) && d in states[0].awake && |ops| >= 2
    requires ops[0] == Sleep(d) && ops[|ops| - 1].Wake? && ops[|ops| - 1].d == d
    requires forall i :: 0 <= i < |ops| ==> !Frees(ops[i], d)
    ensures var s, t := states[0], states[|ops|];
      && Tabled(t) && d in t.awake
      && RangesOf(OwnedMaps(t, d)) == RangesOf(OwnedMaps(s, d))
      && OwnedMaps(t, d) <= t.gpu.mapped && OwnedMaps(t, d) <= t.gpu.accessible && OwnedMaps(s, d) !! states[1].gpu.mapped
      && (Sound(s, d) ==> Owned(s, d) !! states[1].gpu.live)
  {
    var s, t := states[0], states[|ops|];
    TupleIsStable(states, ops, d, |ops|);
    EndsAwake(states, ops, d);
    StaysConserved(states, ops, |ops|);
    SameRanges(d, s.table[d].sizes, s.held[d], t.held[d]);
    OwnedIsMapped(t, d);
    SleepGivesUp(s, d);
  }

  lemma EndsAwake(states: seq<State>, ops: seq<Op>, d: nat)
    requires IsRun(states, ops) && ops != [] && ops[|ops| - 1].Wake? && ops[|ops| - 1].d == d
    ensures d in states[|ops|].awake
  {
    assert states[|ops| - 1 + 1] == states[|ops|];
  }

  /** What a sleep takes away: all mappings, and all memory if the cells name its handles. */
  lemma SleepGivesUp(s: State, d: nat)
    requires Conserved(s) && d in s.awake && Enabled(s, Sleep(d))
    ensures OwnedMaps(s, d) !! Apply(s, Sleep(d)).gpu.mapped
    ensures Sound(s, d) ==> Owned(s, d) !! Apply(s, Sleep(d)).gpu.live
  {
    if Sound(s, d) {
      SoundUndoing(s, d);
    }
  }

  lemma OwnedIsMapped(s: State, d: nat)
    requires Tabled(s) && Exact(s) && d in s.awake
    ensures OwnedMaps(s, d) <= s.gpu.mapped
  {
    assert AwakeMaps(s)[d] == OwnedMaps(s, d);
  }

  lemma SameRanges(d: nat, sizes: seq<nat>, handles: seq<nat>, handles': seq<nat>)
    requires |sizes| == |handles| == |handles'|
    ensures RangesOf(Maps(d, sizes, handles, 0, |sizes|)) == RangesOf(Maps(d, sizes, handles', 0, |sizes|))
  {
    RangesIncluded(d, sizes, handles, handles');
    RangesIncluded(d, sizes, handles', handles);
  }

  lemma RangesIncluded(d: nat, sizes: seq<nat>, handles: seq<nat>, handles': seq<nat>)
    requires |sizes| == |handles| == |handles'|
    ensures RangesOf(Maps(d, sizes, handles, 0, |sizes|)) <= RangesOf(Maps(d, sizes, handles', 0, |sizes|))
  {
    var maps, maps' := Maps(d, sizes, handles, 0, |sizes|), Maps(d, sizes, handles', 0, |sizes|);
    forall r | r in RangesOf(maps) ensures r in RangesOf(maps') {
      var m :| m in maps && r == Range(m.addr, m.bytes);
      var k: nat :| k < |sizes| && m == ChunkMap(d, sizes, handles, k);
      var m' := ChunkMap(d, sizes, handles', k);
      assert m' in maps' && r == Range(m'.addr, m'.bytes);
    }
  }
}
