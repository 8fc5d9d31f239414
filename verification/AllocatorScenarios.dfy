/** Short runs of the allocator that end in the states its description does not expect. */
module AllocatorScenarios {
  import opened GpuDriver
  import opened Chunks
  import opened AllocatorState
  import opened AllocatorRuns

  /** An allocation of one chunk. */
  function OneChunk(bytes: nat, cell: nat): Entry {
    Entry(bytes, [cell], [bytes])
  }

  lemma OneChunkIsWellFormed(bytes: nat, cell: nat)
    requires 0 < bytes
    ensures WellFormed(OneChunk(bytes, cell)) && Cells(OneChunk(bytes, cell)) == {cell}
  {
  }

  lemma RunIsTabled(states: seq<State>, ops: seq<Op>)
    requires IsRun(states, ops) && states[0] == EMPTY
    ensures Tabled(states[|ops|])
  {
    RunsConserve(states, ops, |ops|);
  }

  lemma RunExtends(states: seq<State>, ops: seq<Op>, op: Op)
    requires IsRun(states, ops) && states[0] == EMPTY && Tabled(states[|ops|]) && Enabled(states[|ops|], op)
    ensures IsRun(states + [Apply(states[|ops|], op)], ops + [op])
  {
    var states', ops' := states + [Apply(states[|ops|], op)], ops + [op];
    forall k | 0 <= k < |ops'|
      ensures Tabled(states'[k]) && Enabled(states'[k], ops'[k]) && states'[k + 1] == Apply(states'[k], ops'[k])
    {
      assert k < |ops| ==> Tabled(states[k]) && states'[k] == states[k] && ops'[k] == ops[k];
    }
  }

  lemma EmptyRun()
    ensures IsRun([EMPTY], []) && Tabled(EMPTY)
  {
    RunsConserve([EMPTY], [], 0);
  }

  /** One `my_malloc` that fails after its callback: its entry stays in the Python table. */
  lemma EntryLeftBehind() returns (states: seq<State>, ops: seq<Op>)
    ensures IsRun(states, ops) && states[0] == EMPTY
    ensures Stale(ops) != {} && states[|ops|].table.Keys != states[|ops|].alive
  {
    var op := MallocUndone(4, OneChunk(2, 0), 1);
    EmptyRun();
    RunExtends([EMPTY], [], op);
    states, ops := [EMPTY] + [Apply(EMPTY, op)], [] + [op];
    assert ops[..|ops| - 1] == [] && 4 in Stale(ops);
  }

  /** One allocation of one chunk at address 4, backed by handle 7, and the same put to sleep. */
  const AWAKE: State := State(Gpu(map[4 := 2], {Physical(7, 2)}, {Mapping(4, 2, 7)}, {Mapping(4, 2, 7)}),
                              map[0 := 7], map[4 := OneChunk(2, 0)], {4}, {4}, map[4 := [7]], {}, 0)
  const ASLEEP: State := AWAKE.(gpu := Gpu(map[4 := 2], {}, {}, {}), awake := {}, held := map[])

  /** Its cell after a wake that failed but created handle 9. */
  const REWOKEN: State := AWAKE.(cells := map[0 := 9])

  lemma OneChunkOwns(d: nat, bytes: nat, handle: nat)
    ensures Backing([bytes], [handle], 0, 1) == {Physical(handle, bytes)}
    ensures Maps(d, [bytes], [handle], 0, 1) == {Mapping(d, bytes, handle)}
  {
    assert ChunkMap(d, [bytes], [handle], 0) == Mapping(d, bytes, handle);
  }

  lemma OneChunkStores(handles: seq<nat>, before: map<nat, nat>)
    requires |handles| == 1 && before.Keys <= {0}
    ensures Store(before, OneChunk(2, 0), handles) == map[0 := handles[0]]
  {
    assert Cells(OneChunk(2, 0)) == {0};
    StoreAt(before, OneChunk(2, 0), handles);
    assert Handles(Store(before, OneChunk(2, 0), handles), OneChunk(2, 0))[0] == handles[0];
  }

  lemma MallocGives()
    ensures Enabled(EMPTY, Malloc(4, OneChunk(2, 0), [7])) && Tabled(EMPTY)
    ensures Apply(EMPTY, Malloc(4, OneChunk(2, 0), [7])) == AWAKE
  {
    OneChunkIsWellFormed(2, 0);
    OneChunkOwns(4, 2, 7);
    OneChunkStores([7], map[]);
  }

  lemma Awake() returns (states: seq<State>, ops: seq<Op>)
    ensures IsRun(states, ops) && states[0] == EMPTY && |ops| == 1 && states[1] == AWAKE && Tabled(AWAKE)
  {
    var malloc := Malloc(4, OneChunk(2, 0), [7]);
    EmptyRun();
    MallocGives();
    RunExtends([EMPTY], [], malloc);
    states, ops := [EMPTY] + [AWAKE], [] + [malloc];
    RunIsTabled(states, ops);
  }

  lemma SleepGives()
    requires Tabled(AWAKE)
    ensures Enabled(AWAKE, Sleep(4)) && Apply(AWAKE, Sleep(4)) == ASLEEP
  {
    OneChunkOwns(4, 2, 7);
    assert Named(AWAKE, 4)[0] == 7;
    assert Owned(AWAKE, 4) == {Physical(7, 2)} && OwnedMaps(AWAKE, 4) == {Mapping(4, 2, 7)};
  }

  lemma Asleep() returns (states: seq<State>, ops: seq<Op>)
    ensures IsRun(states, ops) && states[0] == EMPTY && |ops| == 2 && states[2] == ASLEEP && Tabled(ASLEEP)
  {
    states, ops := Awake();
    SleepGives();
    RunExtends(states, ops, Sleep(4));
    states, ops := states + [ASLEEP], ops + [Sleep(4)];
    RunIsTabled(states, ops);
  }

  /** A failed `my_malloc` while an allocation sleeps: waking it now fails, leaves a handle behind and
      clears the error, after which allocating works again. */
  lemma HandleLeaks() returns (states: seq<State>, ops: seq<Op>)
    ensures IsRun(states, ops) && states[0] == EMPTY && |ops| == 4
    ensures states[3].error != 0 && 4 in states[3].alive - states[3].awake && ops[3].WakePending?
    ensures states[4].leaked != {} && states[4].error == 0
  {
    states, ops := Asleep();
    var undone := MallocUndone(8, OneChunk(2, 1), 1);
    var s := Apply(states[2], undone);
    RunExtends(states, ops, undone);
    states, ops := states + [s], ops + [undone];
    RunIsTabled(states, ops);
    var wake := WakePending(4, [9]);
    RunExtends(states, ops, wake);
    var t := Apply(s, wake);
    assert Physical(9, 2) in t.leaked;
    states, ops := states + [t], ops + [wake];
  }

  lemma RewakeGives()
    requires Tabled(AWAKE)
    ensures Enabled(AWAKE, WakeUndone(4, [9])) && Apply(AWAKE, WakeUndone(4, [9])) == REWOKEN
  {
    OneChunkIsWellFormed(2, 0);
    OneChunkStores([9], AWAKE.cells);
    assert [9] + Named(AWAKE, 4)[1..] == [9];
  }

  lemma SleepLeaves()
    requires Tabled(REWOKEN)
    ensures !Sound(REWOKEN, 4) && Enabled(REWOKEN, Sleep(4))
    ensures var t := Apply(REWOKEN, Sleep(4)); t.leaked == t.gpu.live == {Physical(7, 2)} && t.awake == {}
  {
    OneChunkOwns(4, 2, 7);
    var names := Named(REWOKEN, 4);
    assert names[0] == 9 && REWOKEN.held[4][0] == 7;
    assert Owned(REWOKEN, 4) == {Physical(7, 2)};
  }

  lemma Rewoken() returns (states: seq<State>, ops: seq<Op>)
    ensures IsRun(states, ops) && states[0] == EMPTY && |ops| == 2 && Tabled(REWOKEN)
    ensures states[1] == AWAKE && states[2] == REWOKEN && ops[1] == WakeUndone(4, [9])
  {
    states, ops := Awake();
    RewakeGives();
    RunExtends(states, ops, WakeUndone(4, [9]));
    states, ops := states + [REWOKEN], ops + [WakeUndone(4, [9])];
    RunIsTabled(states, ops);
  }

  /** A wake of an allocation that is awake, with no error pending: it fails and renames the cell, so
      that the next sleep no longer reaches the memory and loses it. */
  lemma RewokenLeaks() returns (states: seq<State>, ops: seq<Op>)
    ensures IsRun(states, ops) && states[0] == EMPTY && |ops| == 3
    ensures states[1].error == states[2].error == states[3].error == 0
    ensures 4 in states[1].awake && ops[1] == WakeUndone(4, [9]) && ops[2] == Sleep(4)
    ensures states[3].awake == {} && states[3].leaked == states[3].gpu.live == {Physical(7, 2)}
  {
    states, ops := Rewoken();
    SleepLeaves();
    RunExtends(states, ops, Sleep(4));
    states, ops := states + [Apply(REWOKEN, Sleep(4))], ops + [Sleep(4)];
  }

  /** The driver hands the handle of a sleeping allocation to another one: freeing the sleeping one, or
      putting it to sleep again, would release the other's memory. */
  lemma HandleReused() returns (states: seq<State>, ops: seq<Op>)
    ensures IsRun(states, ops) && states[0] == EMPTY
    ensures var s := states[|ops|]; Tabled(s) && 4 in s.alive - s.awake && 8 in s.awake && !Harmless(s, 4)
  {
    var malloc := Malloc(8, OneChunk(2, 1), [7]);
    states, ops := Asleep();
    SecondGetsTheHandle();
    RunExtends(states, ops, malloc);
    var t := Apply(ASLEEP, malloc);
    states, ops := states + [t], ops + [malloc];
    RunIsTabled(states, ops);
    assert Physical(7, 2) in Owned(t, 8) && Named(t, 4)[0] == 7;
  }

  lemma SecondGetsTheHandle()
    requires Tabled(ASLEEP)
    ensures var malloc := Malloc(8, OneChunk(2, 1), [7]);
      && Enabled(ASLEEP, malloc)
      && var t := Apply(ASLEEP, malloc);
      && t.table[4] == OneChunk(2, 0) && 0 in t.cells && Handles(t.cells, OneChunk(2, 0))[0] == 7
      && t.awake == {8} && t.held[8] == [7] && t.table[8] == OneChunk(2, 1)
  {
    OneChunkIsWellFormed(2, 1);
    OneChunkOwns(8, 2, 7);
  }
}
