/** csrc/cumem_allocator.cpp on the ROCm path: chunked allocations over a driver. */
module CumemAllocator {
  import opened ChunkPlan
  import opened GpuDriver
  import opened Chunks
  import opened AllocatorState
  import opened AllocatorRuns

  class Allocator {
    const driver: Driver
    const env: EnvValue
    var errorCode: nat
    var cells: map<nat, nat>
    var table: map<nat, Entry>
    ghost var alive: set<nat>
    ghost var awake: set<nat>
    ghost var held: map<nat, seq<nat>>
    ghost var leaked: set<Physical>

    constructor (driver: Driver, env: EnvValue)
      requires driver.gpu == Gpu(map[], {}, {}, {})
      ensures this.driver == driver && this.env == env && Snapshot() == EMPTY
    {
      this.driver, this.env := driver, env;
      errorCode, cells, table := 0, map[], map[];
      alive, awake, held, leaked := {}, {}, map[], {};
    }

    ghost function Snapshot(): State
      reads this, driver
    {
      State(driver.gpu, cells, table, alive, awake, held, leaked, errorCode)
    }

    /** CUDA_CHECK: a failure overwrites the error code, a success leaves it. */
    method Check(status: nat)
      modifies this`errorCode
      ensures errorCode == if status != 0 then status else old(errorCode)
    {
      if status != 0 {
        errorCode := status;
      }
    }

    /** One `cuMemUnmap`, on what is left of the mappings `was`. */
    method UnmapChunk(d: nat, sizes: seq<nat>, i: nat, addr: nat, ghost was: set<Mapping>) returns (status: nat)
      requires i < |sizes| && addr == d + Offset(sizes, i)
      modifies driver
      ensures |driver.trace| == |old(driver.trace)| + 1 && old(driver.trace) <= driver.trace
      ensures driver.trace[|old(driver.trace)|].call == UnmapOf(d, sizes, i)
      ensures driver.trace[|old(driver.trace)|].status == status
      ensures driver.gpu.reserved == old(driver.gpu.reserved) && driver.gpu.live == old(driver.gpu.live)
      ensures driver.gpu.mapped <= old(driver.gpu.mapped)
      ensures driver.gpu.accessible == old(driver.gpu.accessible) * driver.gpu.mapped
      ensures driver.Tidies() && old(driver.gpu.mapped) == UnmappedFrom(was, d, sizes, i) ==>
                && driver.gpu.mapped == UnmappedFrom(was, d, sizes, i + 1)
                && (Positive(sizes) ==> (AllMapped(was, d, sizes, i + 1) <==> AllMapped(was, d, sizes, i) && status == 0))
    {
      ghost var g := driver.gpu;
      var out;
      status, out := driver.Issue(Unmap(addr, sizes[i]));
      if driver.Tidies() && g.mapped == UnmappedFrom(was, d, sizes, i) {
        UnmapStep(g, was, d, sizes, i, out);
      }
    }

    /** Unmaps chunks 0..n of an allocation, going on after a failure, and reports the first one. */
    method UnmapChunks(d: nat, sizes: seq<nat>, n: nat) returns (first: nat)
      requires n <= |sizes|
      modifies driver
      ensures |driver.trace| == |old(driver.trace)| + n && old(driver.trace) <= driver.trace
      ensures forall k :: 0 <= k < n ==>
                driver.trace[|old(driver.trace)| + k].call == UnmapOf(d, sizes, k)
      ensures first == FirstError(driver.trace, |old(driver.trace)|)
      ensures driver.gpu.reserved == old(driver.gpu.reserved) && driver.gpu.live == old(driver.gpu.live)
      ensures driver.gpu.accessible == old(driver.gpu.accessible) * driver.gpu.mapped
      ensures driver.Tidies() ==> driver.gpu.mapped == UnmappedFrom(old(driver.gpu.mapped), d, sizes, n)
      ensures driver.Tidies() && Positive(sizes) ==>
                (first == 0 <==> AllMapped(old(driver.gpu.mapped), d, sizes, n))
    {
      first := 0;
      var offset := 0;
      ghost var start, was := |driver.trace|, driver.gpu.mapped;
      for i := 0 to n
        invariant offset == Offset(sizes, i)
        invariant |driver.trace| == start + i && old(driver.trace) <= driver.trace
        invariant forall k :: 0 <= k < i ==> driver.trace[start + k].call == UnmapOf(d, sizes, k)
        invariant first == FirstError(driver.trace, start)
        invariant driver.gpu.reserved == old(driver.gpu.reserved) && driver.gpu.live == old(driver.gpu.live)
        invariant driver.gpu.mapped <= was && driver.gpu.accessible == old(driver.gpu.accessible) * driver.gpu.mapped
        invariant driver.Tidies() ==> driver.gpu.mapped == UnmappedFrom(was, d, sizes, i)
        invariant driver.Tidies() && Positive(sizes) ==> (first == 0 <==> AllMapped(was, d, sizes, i))
      {
        ghost var before := driver.trace;
        var status := UnmapChunk(d, sizes, i, d + offset, was);
        assert driver.trace == before + [driver.trace[|before|]];
        FirstErrorSnoc(before, driver.trace[|before|], start);
        if status != 0 && first == 0 {
          first := status;
        }
        offset := offset + sizes[i];
      }
    }

    /** One `cuMemRelease`, on what is left of the memory `was`. */
    method ReleaseChunk(handle: nat, i: nat, ghost was: set<Physical>, ghost handles: seq<nat>) returns (status: nat)
      requires i < |handles| && handle == handles[i]
      modifies driver
      ensures |driver.trace| == |old(driver.trace)| + 1 && old(driver.trace) <= driver.trace
      ensures driver.trace[|old(driver.trace)|].call == Release(handle)
      ensures driver.trace[|old(driver.trace)|].status == status
      ensures driver.gpu == old(driver.gpu).(live := driver.gpu.live)
      ensures driver.Tidies() && old(driver.gpu.live) == ReleasedFrom(was, handles[..i]) ==>
                && driver.gpu.live == ReleasedFrom(was, handles[..i + 1])
                && (Distinct(handles[..i + 1]) && AllUsed(was, handles[..i + 1])
                    <==> Distinct(handles[..i]) && AllUsed(was, handles[..i]) && status == 0)
    {
      ghost var g := driver.gpu;
      var out;
      status, out := driver.Issue(Release(handle));
      if driver.Tidies() && g.live == ReleasedFrom(was, handles[..i]) {
        ReleaseStep(g, was, handles, i, out);
      }
    }

    /** Releases the handles held by the first `n` cells, going on after a failure. */
    method ReleaseChunks(e: Entry, n: nat) returns (first: nat)
      requires n <= |e.cells| && HasCells(cells, e)
      modifies driver
      ensures |driver.trace| == |old(driver.trace)| + n && old(driver.trace) <= driver.trace
      ensures forall k :: 0 <= k < n ==>
                driver.trace[|old(driver.trace)| + k].call == Release(cells[e.cells[k]])
      ensures first == FirstError(driver.trace, |old(driver.trace)|)
      ensures driver.gpu == old(driver.gpu).(live := driver.gpu.live)
      ensures n == 0 ==> driver.gpu == old(driver.gpu)
      ensures driver.Tidies() ==> driver.gpu.live == ReleasedFrom(old(driver.gpu.live), Handles(cells, e)[..n])
      ensures driver.Tidies() ==>
                (first == 0 <==> Distinct(Handles(cells, e)[..n]) && AllUsed(old(driver.gpu.live), Handles(cells, e)[..n]))
    {
      first := 0;
      ghost var start, was, handles := |driver.trace|, driver.gpu.live, Handles(cells, e)[..n];
      for i := 0 to n
        invariant |driver.trace| == start + i && old(driver.trace) <= driver.trace
        invariant forall k :: 0 <= k < i ==> driver.trace[start + k].call == Release(cells[e.cells[k]])
        invariant first == FirstError(driver.trace, start)
        invariant driver.gpu == old(driver.gpu).(live := driver.gpu.live)
        invariant i == 0 ==> driver.gpu == old(driver.gpu)
        invariant driver.Tidies() ==> driver.gpu.live == ReleasedFrom(was, handles[..i])
        invariant driver.Tidies() ==> (first == 0 <==> Distinct(handles[..i]) && AllUsed(was, handles[..i]))
      {
        ghost var before := driver.trace;
        var status := ReleaseChunk(cells[e.cells[i]], i, was, handles);
        assert driver.trace == before + [driver.trace[|before|]];
        FirstErrorSnoc(before, driver.trace[|before|], start);
        if status != 0 && first == 0 {
          first := status;
        }
      }
      assert handles[..n] == handles;
    }

    /** One `cuMemCreate`: on success the new handle is stored in the chunk's cell. */
    method CreateChunk(e: Entry, i: nat, ghost was: map<nat, nat>, ghost g: Gpu)
      requires WellFormed(e) && HasCells(cells, e) && i < |e.sizes| && Created(was, g, cells, driver.gpu, e, i)
      modifies this`cells, this`errorCode, driver
      ensures |driver.trace| == |old(driver.trace)| + 1 && old(driver.trace) <= driver.trace
      ensures HasCells(cells, e) && SameElsewhere(was, cells, e)
      ensures var event := driver.trace[|old(driver.trace)|];
        && event.call == Create(e.sizes[i]) && (event.status == 0 ==> Unused(old(driver.gpu.live), event.out))
        && errorCode == (if event.status != 0 then event.status else old(errorCode))
        && driver.gpu == (if event.status != 0 then old(driver.gpu) else
             old(driver.gpu).(live := old(driver.gpu.live) + {Physical(event.out, e.sizes[i])}))
        && if event.status != 0 then cells == old(cells) else Created(was, g, cells, driver.gpu, e, i + 1)
    {
      var status, handle := driver.Issue(Create(e.sizes[i]));
      if status == 0 {
        CreatedOne(was, g, cells, e, i, handle);
        cells := cells[e.cells[i] := handle];
      }
      Check(status);
    }

    /** The clean-up of a failed creation: the handles created before it are released. */
    method ReleaseCreated(e: Entry, i: nat, ghost was: map<nat, nat>, ghost g: Gpu)
      requires WellFormed(e) && HasCells(cells, e) && i <= |e.sizes|
      requires i != 0 ==> Created(was, g, cells, driver.gpu, e, i)
      modifies driver
      ensures old(driver.trace) <= driver.trace
      ensures i == 0 ==> driver.gpu == old(driver.gpu) && |driver.trace| == |old(driver.trace)|
      ensures i != 0 && driver.Tidies() ==> driver.gpu == g
    {
      var _ := ReleaseChunks(e, i);
      if i != 0 {
        ReleasedRest(g.live, e.sizes, Handles(cells, e), i);
      }
    }

    /** One round of the creation loop. */
    method CreateOrClean(e: Entry, i: nat, ghost was: map<nat, nat>, ghost g: Gpu) returns (ok: bool, ghost made: nat)
      requires WellFormed(e) && HasCells(cells, e) && i < |e.sizes| && Created(was, g, cells, driver.gpu, e, i)
      requires errorCode != 0 ==> i == 0
      modifies this`cells, this`errorCode, driver
      ensures old(driver.trace) <= driver.trace && |old(driver.trace)| < |driver.trace|
      ensures ok ==> |driver.trace| == |old(driver.trace)| + 1 && errorCode == 0 && old(errorCode) == 0
      ensures ok ==> HasCells(cells, e) && Created(was, g, cells, driver.gpu, e, i + 1)
      ensures made == if driver.trace[|old(driver.trace)|].status == 0 then i + 1 else i
      ensures Overwrote(was, cells, e, made, g.live)
      ensures !ok ==> errorCode != 0
      ensures old(errorCode) == 0 ==>
                && errorCode == driver.trace[|old(driver.trace)|].status
                && errorCode == FirstError(driver.trace, |old(driver.trace)|)
                && (!ok && driver.Tidies() ==> driver.gpu == g)
      ensures old(errorCode) != 0 ==>
                && !ok && |driver.trace| == |old(driver.trace)| + 1
                && driver.gpu == g.(live := g.live + LeftBehind(e, Handles(cells, e)[..made]))
    {
      ghost var before := driver.trace;
      CreateChunk(e, i, was, g);
      ghost var created := driver.trace;
      made := if created[|before|].status == 0 then i + 1 else i;
      FirstErrorSnoc(before, created[|before|], |before|);
      assert created == before + [created[|before|]];
      ok := errorCode == 0;
      if !ok {
        ReleaseCreated(e, i, was, g);
        FirstErrorSplit(created, driver.trace, |before|);
      }
    }

    /** Creates a physical handle for every chunk, or none. Entered with an error pending,
        it stops after the first creation and leaves that handle behind. Either way the cells of the
        `made` chunks created first keep the new handles. */
    method CreateChunks(e: Entry) returns (ok: bool, ghost made: nat)
      requires WellFormed(e) && HasCells(cells, e)
      modifies this`cells, this`errorCode, driver
      ensures Overwrote(old(cells), cells, e, made, old(driver.gpu.live))
      ensures old(driver.trace) <= driver.trace && |old(driver.trace)| < |driver.trace|
      ensures made == 0 <==> driver.trace[|old(driver.trace)|].status != 0
      ensures old(errorCode) == 0 && ok ==>
                && errorCode == 0 && made == |e.sizes|
                && driver.gpu == old(driver.gpu).(live := old(driver.gpu.live)
                                                        + Backing(e.sizes, Handles(cells, e), 0, |e.sizes|))
      ensures ok ==> |driver.trace| == |old(driver.trace)| + |e.sizes|
      ensures old(errorCode) == 0 && !ok ==> errorCode != 0 && (driver.Tidies() ==> driver.gpu == old(driver.gpu))
      ensures old(errorCode) == 0 ==> errorCode == FirstError(driver.trace, |old(driver.trace)|)
      ensures old(errorCode) != 0 ==> !ok && errorCode != 0 && |driver.trace| == |old(driver.trace)| + 1 && made <= 1
      ensures old(errorCode) != 0 ==>
                driver.gpu == old(driver.gpu).(live := old(driver.gpu.live) + LeftBehind(e, Handles(cells, e)[..made]))
    {
      ghost var was, g, start := cells, driver.gpu, |driver.trace|;
      HasChunks(e);
      for i := 0 to |e.sizes|
        invariant HasCells(cells, e) && Created(was, g, cells, driver.gpu, e, i)
        invariant errorCode == old(errorCode) && (errorCode != 0 ==> i == 0)
        invariant old(driver.trace) <= driver.trace && FirstError(driver.trace, start) == 0
        invariant |driver.trace| == start + i
      {
        ghost var before := driver.trace;
        ok, made := CreateOrClean(e, i, was, g);
        FirstErrorSplit(before, driver.trace, start);
        if !ok {
          return;
        }
      }
      assert Handles(cells, e)[..|e.sizes|] == Handles(cells, e);
      return true, |e.sizes|;
    }

    /** One `cuMemMap`, on top of the mappings of the chunks before. */
    method MapChunk(d: nat, e: Entry, i: nat, addr: nat, ghost g: Gpu)
      requires |e.cells| == |e.sizes| && HasCells(cells, e) && errorCode == 0
      requires i < |e.sizes| && addr == d + Offset(e.sizes, i) && MappedUpTo(g, driver.gpu, d, e, Handles(cells, e), i)
      modifies this`errorCode, driver
      ensures |driver.trace| == |old(driver.trace)| + 1 && old(driver.trace) <= driver.trace
      ensures errorCode == driver.trace[|old(driver.trace)|].status
      ensures if errorCode != 0 then driver.gpu == old(driver.gpu)
              else MappedUpTo(g, driver.gpu, d, e, Handles(cells, e), i + 1)
    {
      ghost var now := driver.gpu;
      var status, out := driver.Issue(Map(addr, e.sizes[i], cells[e.cells[i]]));
      Check(status);
      if errorCode == 0 {
        MappedOne(g, now, d, e, Handles(cells, e), i, out);
        assert ChunkMap(d, e.sizes, Handles(cells, e), i) == Mapping(addr, e.sizes[i], cells[e.cells[i]]);
      }
    }

    /** The clean-up of a failed mapping: what was mapped before is unmapped and all handles are released. */
    method UndoMapping(d: nat, e: Entry, i: nat, ghost g: Gpu, ghost rest: set<Physical>)
      requires WellFormed(e) && HasCells(cells, e) && i < |e.sizes|
      requires MappedUpTo(g, driver.gpu, d, e, Handles(cells, e), i) && g.accessible <= g.mapped
      modifies driver
      ensures old(driver.trace) <= driver.trace
      ensures driver.Tidies() && FreshHandles(rest, Handles(cells, e))
           && g.live == rest + Backing(e.sizes, Handles(cells, e), 0, |e.sizes|)
          ==> driver.gpu == g.(live := rest)
    {
      ghost var handles := Handles(cells, e);
      var _ := UnmapChunks(d, e.sizes, i);
      var _ := ReleaseChunks(e, |e.cells|);
      assert handles[..|e.sizes|] == handles;
      UnmappedRest(g.mapped, d, e.sizes, handles, i);
      if FreshHandles(rest, handles) {
        ReleasedRest(rest, e.sizes, handles, |e.sizes|);
      }
    }

    /** Maps every chunk at its offset, or unmaps what it mapped and releases all handles. */
    method MapChunks(d: nat, e: Entry, ghost rest: set<Physical>) returns (ok: bool)
      requires WellFormed(e) && HasCells(cells, e) && errorCode == 0
      modifies this`errorCode, driver
      ensures ok ==>
                && errorCode == 0
                && driver.gpu == old(driver.gpu).(mapped := old(driver.gpu.mapped)
                                                          + Maps(d, e.sizes, Handles(cells, e), 0, |e.sizes|))
                && Clear(old(driver.gpu.mapped), d, e.bytes)
                && |driver.trace| == |old(driver.trace)| + |e.sizes|
      ensures old(driver.trace) <= driver.trace
      ensures errorCode == FirstError(driver.trace, |old(driver.trace)|)
      ensures !ok ==> errorCode != 0
      ensures !ok && driver.Tidies() && FreshHandles(rest, Handles(cells, e))
           && old(driver.gpu.live) == rest + Backing(e.sizes, Handles(cells, e), 0, |e.sizes|)
          ==> driver.gpu == old(driver.gpu).(live := rest)
    {
      ghost var g, start := driver.gpu, |driver.trace|;
      var offset := 0;
      assert Maps(d, e.sizes, Handles(cells, e), 0, 0) == {};
      for i := 0 to |e.sizes|
        invariant offset == Offset(e.sizes, i) && errorCode == 0
        invariant MappedUpTo(g, driver.gpu, d, e, Handles(cells, e), i)
        invariant old(driver.trace) <= driver.trace && FirstError(driver.trace, start) == 0
        invariant |driver.trace| == start + i
      {
        ghost var before := driver.trace;
        MapChunk(d, e, i, d + offset, g);
        assert driver.trace == before + [driver.trace[|before|]];
        FirstErrorSnoc(before, driver.trace[|before|], start);
        if errorCode != 0 {
          ghost var failed := driver.trace;
          UndoMapping(d, e, i, g, rest);
          FirstErrorSplit(failed, driver.trace, start);
          return false;
        }
        offset := offset + e.sizes[i];
      }
      return true;
    }

    /** `create_and_map`: with no error pending it either backs and maps every chunk, or
        changes nothing on the device. Granting access is the one failure that is not undone. The cells
        of the `made` chunks created first name the new handles in any case. */
    method CreateAndMap(d: nat, e: Entry) returns (ghost made: nat)
      requires WellFormed(e) && HasCells(cells, e)
      modifies this`cells, this`errorCode, driver
      ensures Overwrote(old(cells), cells, e, made, old(driver.gpu.live))
      ensures old(driver.trace) <= driver.trace && |old(driver.trace)| < |driver.trace|
      ensures made == 0 <==> driver.trace[|old(driver.trace)|].status != 0
      ensures old(errorCode) == 0 ==> errorCode == FirstError(driver.trace, |old(driver.trace)|)
      ensures old(errorCode) == 0 && errorCode == 0 ==>
                && made == |e.sizes| && Clear(old(driver.gpu.mapped), d, e.bytes)
                && Backed(old(driver.gpu), driver.gpu, d, e, Handles(cells, e), true)
                && |driver.trace| == |old(driver.trace)| + 2 * |e.sizes| + 1
                && driver.trace[|driver.trace| - 1].call == SetAccess(d, e.bytes)
      ensures old(errorCode) == 0 && errorCode != 0 && driver.Tidies() ==>
                || driver.gpu == old(driver.gpu)
                || (AccessRefused(driver.trace, d, e.bytes)
                    && Backed(old(driver.gpu), driver.gpu, d, e, Handles(cells, e), false))
      ensures old(errorCode) == 0 && errorCode != 0 && driver.Dependable() ==> driver.gpu == old(driver.gpu)
      ensures old(errorCode) != 0 ==>
                && errorCode != 0 && made <= 1
                && driver.gpu == old(driver.gpu).(live := old(driver.gpu.live) + LeftBehind(e, Handles(cells, e)[..made]))
    {
      ghost var start := |driver.trace|;
      var created;
      created, made := CreateChunks(e);
      if !created {
        return;
      }
      assert Handles(cells, e)[..|e.sizes|] == Handles(cells, e);
      ghost var afterCreate := driver.trace;
      var mapped := MapChunks(d, e, old(driver.gpu.live));
      FirstErrorSplit(afterCreate, driver.trace, start);
      if !mapped {
        return;
      }
      ghost var afterMap := driver.trace;
      MeetingIsMaps(old(driver.gpu), d, e, Handles(cells, e));
      var status, _ := driver.Issue(SetAccess(d, e.bytes));
      FirstErrorSnoc(afterMap, driver.trace[|afterMap|], start);
      Check(status);
    }

    /** The ROCm workaround: gives the address range back and takes the same one again. */
    method CycleReservation(d: nat, bytes: nat) returns (first: nat, moved: bool)
      modifies driver
      ensures old(driver.trace) <= driver.trace && Cycled(driver.trace, |old(driver.trace)|, d, bytes)
      ensures moved <==> |driver.trace| == |old(driver.trace)| + 3
      ensures !moved ==> first == FirstError(driver.trace, |old(driver.trace)|)
      ensures driver.gpu == old(driver.gpu).(reserved := driver.gpu.reserved)
      ensures !(d in old(driver.gpu.reserved) && old(driver.gpu.reserved[d]) == bytes)
          ==> driver.gpu.reserved == old(driver.gpu.reserved) && !moved && first != 0
      ensures driver.Dependable() && 0 < d && 0 < bytes && Clear(old(driver.gpu.mapped), d, bytes)
           && Alone(old(driver.gpu.reserved), d, bytes)
          ==> !moved && first == 0 && driver.gpu == old(driver.gpu)
    {
      moved := false;
      ghost var start := |driver.trace|;
      ghost var before := driver.trace;
      var address;
      first, address := driver.Issue(AddressFree(d, bytes));
      FirstErrorSnoc(before, driver.trace[start], start);
      if first == 0 {
        before := driver.trace;
        first, address := driver.Issue(AddressReserve(bytes, d));
        FirstErrorSnoc(before, driver.trace[start + 1], start);
        if first == 0 && address != d {
          var _, _ := driver.Issue(AddressFree(address, bytes));
          moved := true;
        }
      }
    }

    /** Both undo loops: each chunk unmapped once, then each handle released once, in order and
        whatever the statuses; the first failure is kept. What was mapped at the chunks or lived under
        the handles is gone, whoever owns it now. */
    method UndoChunks(d: nat, e: Entry) returns (first: nat)
      requires WellFormed(e) && HasCells(cells, e)
      modifies driver
      ensures old(driver.trace) <= driver.trace
      ensures Attempted(driver.trace, |old(driver.trace)|, d, e, Handles(cells, e))
      ensures |driver.trace| == |old(driver.trace)| + 2 * |e.sizes|
      ensures first == FirstError(driver.trace, |old(driver.trace)|)
      ensures driver.gpu.reserved == old(driver.gpu.reserved)
      ensures driver.Tidies() ==> driver.gpu == AfterUndo(old(driver.gpu), d, e, Handles(cells, e))
      ensures driver.Tidies() ==> (first == 0 <==> Undoes(old(driver.gpu), d, e, Handles(cells, e)))
    {
      ghost var start, handles := |driver.trace|, Handles(cells, e);
      assert handles[..|e.cells|] == handles;
      first := UnmapChunks(d, e.sizes, |e.sizes|);
      ghost var unmapped := driver.trace;
      var firstRelease := ReleaseChunks(e, |e.cells|);
      FirstErrorSplit(unmapped, driver.trace, start);
      if first == 0 {
        first := firstRelease;
      }
    }

    /** `unmap_and_release`: undoes every chunk, then cycles the reservation if nothing failed.
        The first failure becomes the error code. */
    method UnmapAndRelease(d: nat, e: Entry, bytes: nat)
      requires WellFormed(e) && HasCells(cells, e)
      modifies this`errorCode, driver
      ensures old(driver.trace) <= driver.trace
      ensures Attempted(driver.trace, |old(driver.trace)|, d, e, Handles(cells, e))
      ensures var start := |old(driver.trace)|; var cycle := start + 2 * |e.sizes|;
        && (|driver.trace| > cycle ==> Cycled(driver.trace, cycle, d, bytes))
        && (|driver.trace| == cycle ==> FirstError(driver.trace, start) != 0)
        && errorCode == if |driver.trace| == cycle + 3 then 1
                        else if FirstError(driver.trace, start) != 0 then FirstError(driver.trace, start)
                        else old(errorCode)
      ensures driver.Tidies() ==>
                && driver.gpu.live == ReleasedFrom(old(driver.gpu.live), Handles(cells, e))
                && driver.gpu.mapped == UnmappedFrom(old(driver.gpu.mapped), d, e.sizes, |e.sizes|)
                && driver.gpu.accessible == old(driver.gpu.accessible) * driver.gpu.mapped
      ensures !(d in old(driver.gpu.reserved) && old(driver.gpu.reserved[d]) == bytes)
          ==> driver.gpu.reserved == old(driver.gpu.reserved) && errorCode != 0
      ensures driver.Tidies() && !Undoes(old(driver.gpu), d, e, Handles(cells, e)) ==>
                driver.gpu.reserved == old(driver.gpu.reserved) && errorCode != 0
      ensures driver.Dependable() && bytes == e.bytes &&
              Whole(old(driver.gpu), d, e) && Undoes(old(driver.gpu), d, e, Handles(cells, e)) ==>
                driver.gpu.reserved == old(driver.gpu.reserved) && errorCode == old(errorCode)
    {
      ghost var start := |driver.trace|;
      var first := UndoChunks(d, e);
      if first == 0 {
        ghost var undone := driver.trace;
        var moved;
        first, moved := CycleReservation(d, bytes);
        FirstErrorSplit(undone, driver.trace, start);
        if moved {
          errorCode := 1;
          return;
        }
      }
      if first != 0 {
        Check(first);
      }
    }

    /** Host `malloc` of the handle cells: fresh and distinct, contents unspecified. */
    method NewCells(count: nat) returns (heapCells: seq<nat>)
      modifies this`cells
      ensures |heapCells| == count && Distinct(heapCells)
      ensures forall k :: 0 <= k < count ==> heapCells[k] !in old(cells)
      ensures cells.Keys == old(cells.Keys) + set c | c in heapCells
      ensures forall c :: c in old(cells) ==> cells[c] == old(cells)[c]
    {
      heapCells := [];
      for i := 0 to count
        invariant |heapCells| == i && Distinct(heapCells)
        invariant forall k :: 0 <= k < i ==> heapCells[k] !in old(cells)
        invariant cells.Keys == old(cells.Keys) + set c | c in heapCells
        invariant forall c :: c in old(cells) ==> cells[c] == old(cells)[c]
      {
        SomethingFresh(cells.Keys);
        var cell: nat, content: nat :| cell !in cells;
        cells := cells[cell := content];
        heapCells := heapCells + [cell];
      }
    }

    /** The first part of `my_malloc`: asks for the granularity and reserves the rounded size. */
    method ReserveRange(size: nat) returns (d: nat, aligned: nat)
      requires 0 < driver.granularity
      modifies this`errorCode, driver
      ensures aligned == AlignUp(size, driver.granularity) && aligned % driver.granularity == 0
      ensures old(driver.trace) <= driver.trace
      ensures errorCode == if old(errorCode) != 0 && FirstError(driver.trace, |old(driver.trace)|) == 0
                           then old(errorCode) else FirstError(driver.trace, |old(driver.trace)|)
      ensures errorCode != 0 ==> driver.gpu == old(driver.gpu)
      ensures old(errorCode) != 0 ==> errorCode != 0
      ensures errorCode == 0 ==>
                var start := |old(driver.trace)|;
                && |driver.trace| == start + 2 && driver.trace[start].call == GetGranularity
                && driver.trace[start + 1].call == AddressReserve(aligned, 0)
      ensures errorCode == 0 ==>
                && 0 < d && 0 < aligned && RangeFree(old(driver.gpu.reserved), d, aligned)
                && driver.gpu == old(driver.gpu).(reserved := old(driver.gpu.reserved)[d := aligned])
    {
      ghost var start, before := |driver.trace|, driver.trace;
      d, aligned := 0, AlignUp(size, driver.granularity);
      AlignUpIsLeast(size, driver.granularity, 0);
      var status, _ := driver.Issue(GetGranularity);
      FirstErrorSnoc(before, driver.trace[|before|], start);
      Check(status);
      if errorCode != 0 {
        return;
      }
      before := driver.trace;
      status, d := driver.Issue(AddressReserve(aligned, 0));
      FirstErrorSnoc(before, driver.trace[|before|], start);
      Check(status);
    }

    /** The second part: chunk sizes and one heap cell per chunk. */
    method NewEntry(aligned: nat) returns (e: Entry)
      requires 0 < aligned && 0 < driver.granularity && aligned % driver.granularity == 0
      modifies this`cells
      ensures WellFormed(e) && e.bytes == aligned && Chunked(e, driver.granularity, env)
      ensures HasCells(cells, e) && Cells(e) !! old(cells.Keys)
      ensures cells.Keys == old(cells.Keys) + Cells(e)
      ensures forall c :: c in old(cells) ==> cells[c] == old(cells)[c]
    {
      var chunk := AlignUp(MemcreateChunkSize(env), driver.granularity);
      AlignUpIsLeast(MemcreateChunkSize(env), driver.granularity, 0);
      var sizes := PlanChunks(aligned, chunk);
      forall k | 0 <= k < sizes.Length ensures sizes[k] % driver.granularity == 0 {
        ChunksAreGranular(sizes[..], aligned, chunk, driver.granularity, k);
      }
      var heapCells := NewCells(sizes.Length);
      e := Entry(aligned, heapCells, sizes[..]);
      forall k | 0 <= k < |heapCells| ensures heapCells[k] in cells {
        assert heapCells[k] in Cells(e);
      }
    }

    /** `my_malloc`: null when anything failed, and then the device and the C heap are as before. */
    method MyMalloc(size: nat) returns (ptr: nat, ghost op: Op)
      requires 0 < driver.granularity && Conserved(Snapshot())
      modifies this, driver
      ensures driver.Dependable() || !op.MallocUndone? ==>
                Enabled(old(Snapshot()), op) && Snapshot() == Apply(old(Snapshot()), op)
      ensures if ptr == 0 then op.MallocRefused? || op.MallocUndone? else op.Malloc? && op.d == ptr
      ensures ptr != 0 ==>
                && op.entry.bytes == AlignUp(size, driver.granularity)
                && Chunked(op.entry, driver.granularity, env)
      ensures old(errorCode) == 0 ==> (ptr == 0 <==> FirstError(driver.trace, |old(driver.trace)|) != 0)
      ensures old(errorCode) != 0 ==> ptr == 0 && op.MallocRefused?
    {
      ghost var s := Snapshot();
      var d, aligned := ReserveRange(size);
      if errorCode != 0 {
        ptr, op := 0, MallocRefused(errorCode);
        RefusedSteps(s, Snapshot());
        return;
      }
      ReservationReturns(s, d, aligned);
      ghost var before := driver.trace;
      var e := NewEntry(aligned);
      table := table[d := e];
      ptr, op := BackRange(d, e, s);
      FirstErrorSplit(before, driver.trace, |old(driver.trace)|);
    }

    /** The rest of `my_malloc`: Python knows the entry; map it, or give everything back. */
    method BackRange(d: nat, e: Entry, ghost s: State) returns (ptr: nat, ghost op: Op)
      requires Tabled(s) && WellFormed(e) && 0 < d && d !in s.alive && d !in s.gpu.reserved && errorCode == 0
      requires RangeFree(s.gpu.reserved, d, e.bytes) && Clear(s.gpu.mapped, d, e.bytes)
      requires Cells(e) !! s.cells.Keys && HasCells(cells, e) && cells.Keys == s.cells.Keys + Cells(e)
      requires forall c :: c in s.cells ==> cells[c] == s.cells[c]
      requires driver.gpu == s.gpu.(reserved := s.gpu.reserved[d := e.bytes])
      requires table == s.table[d := e] && alive == s.alive && awake == s.awake
      requires held == s.held && leaked == s.leaked && s.error == 0
      modifies this, driver
      ensures old(driver.trace) <= driver.trace
      ensures driver.Dependable() || ptr != 0 ==> Enabled(s, op) && Snapshot() == Apply(s, op)
      ensures if ptr == 0 then op.MallocUndone? else op.Malloc? && op.d == ptr && op.entry == e
      ensures ptr == 0 <==> FirstError(driver.trace, |old(driver.trace)|) != 0
    {
      ghost var start := |driver.trace|;
      ghost var made := CreateAndMap(d, e);
      IsStore(old(cells), cells, e);
      StoreOverFresh(s.cells, old(cells), e, Handles(cells, e));
      if errorCode != 0 {
        ghost var failed := driver.trace;
        ptr := 0;
        op := Abandon(d, e, s);
        FirstErrorSplit(failed, driver.trace, start);
        return;
      }
      alive, awake, held := alive + {d}, awake + {d}, held[d := Handles(cells, e)];
      assert Handles(cells, e)[..|e.sizes|] == Handles(cells, e);
      ptr, op := d, Malloc(d, e, Handles(cells, e));
      MallocSteps(s, Snapshot(), d, e, Handles(cells, e));
    }

    /** The failure exit of `my_malloc`: returns the range and frees the cells, but the Python
        table keeps the entry. */
    method Abandon(d: nat, e: Entry, ghost s: State) returns (ghost op: Op)
      requires Tabled(s) && s.error == 0 && errorCode != 0 && d !in s.alive && d !in s.gpu.reserved
      requires table == s.table[d := e] && alive == s.alive && awake == s.awake && held == s.held && leaked == s.leaked
      requires Cells(e) !! s.cells.Keys && cells.Keys == s.cells.Keys + Cells(e)
      requires forall c :: c in s.cells ==> cells[c] == s.cells[c]
      requires Clear(s.gpu.mapped, d, e.bytes)
      modifies this`errorCode, this`cells, driver
      ensures old(driver.trace) <= driver.trace && errorCode != 0
      ensures op == MallocUndone(d, e, errorCode)
      ensures driver.Dependable() && old(driver.gpu) == s.gpu.(reserved := s.gpu.reserved[d := e.bytes])
          ==> Enabled(s, op) && Snapshot() == Apply(s, op)
    {
      GiveBack(d, e, e.bytes);
      op := MallocUndone(d, e, errorCode);
      assert cells == s.cells;
    }

    /** Common exit of `my_free` and of a failed `my_malloc`: the range goes back to the driver and
        the handle cells to the C heap. */
    method GiveBack(d: nat, e: Entry, bytes: nat)
      modifies this`errorCode, this`cells, driver
      ensures |driver.trace| == |old(driver.trace)| + 1 && old(driver.trace) <= driver.trace
      ensures cells == old(cells) - Cells(e)
      ensures driver.gpu == old(driver.gpu).(reserved := driver.gpu.reserved)
      ensures old(errorCode) != 0 ==> errorCode != 0
      ensures !(d in old(driver.gpu.reserved) && old(driver.gpu.reserved[d]) == bytes)
          ==> driver.gpu == old(driver.gpu) && errorCode != 0
      ensures driver.Dependable() && Clear(old(driver.gpu.mapped), d, bytes)
           && d in old(driver.gpu.reserved) && old(driver.gpu.reserved[d]) == bytes
          ==> && errorCode == old(errorCode)
              && driver.gpu == old(driver.gpu).(reserved := old(driver.gpu.reserved) - {d})
    {
      var status, _ := driver.Issue(AddressFree(d, bytes));
      Check(status);
      cells := map c | c in cells && c !in e.cells :: cells[c];
    }

    /** What `my_free` does once it has the tuple: undo every chunk, give the range and the cells back. */
    method Reclaim(d: nat, e: Entry, size: nat)
      requires WellFormed(e) && HasCells(cells, e)
      modifies this`errorCode, this`cells, driver
      ensures Attempted(driver.trace, |old(driver.trace)|, d, e, old(Handles(cells, e)))
      ensures cells == old(cells) - Cells(e)
      ensures driver.Tidies() ==>
                && driver.gpu.live == ReleasedFrom(old(driver.gpu.live), old(Handles(cells, e)))
                && driver.gpu.mapped == UnmappedFrom(old(driver.gpu.mapped), d, e.sizes, |e.sizes|)
                && driver.gpu.accessible == old(driver.gpu.accessible) * driver.gpu.mapped
      ensures !(d in old(driver.gpu.reserved) && old(driver.gpu.reserved[d]) == size)
          ==> driver.gpu.reserved == old(driver.gpu.reserved) && errorCode != 0
      ensures driver.Dependable() && size == e.bytes && Whole(old(driver.gpu), d, e) ==>
                && driver.gpu.reserved == old(driver.gpu.reserved) - {d}
                && if Undoes(old(driver.gpu), d, e, old(Handles(cells, e))) then errorCode == old(errorCode)
                   else errorCode != 0
    {
      UnmapAndRelease(d, e, size);
      GiveBack(d, e, size);
    }

    /** `my_free`, whatever the allocation has been through. Torch passes the size; only the aligned size
        frees the range. It leaves an error pending unless the allocation is awake and all the handles its
        cells name are live. It keeps the accounting if and only if none of them is another's. */
    method MyFree(d: nat, size: nat) returns (ghost op: Op)
      requires Conserved(Snapshot()) && d in alive
      modifies this, driver
      ensures op == Free(d, errorCode)
      ensures driver.Dependable() && size == old(table)[d].bytes && Harmless(old(Snapshot()), d) ==>
                Enabled(old(Snapshot()), op) && Snapshot() == Apply(old(Snapshot()), op)
      ensures driver.Dependable() && size == old(table)[d].bytes ==>
                (Conserved(Snapshot()) <==> Harmless(old(Snapshot()), d))
      ensures size != old(table)[d].bytes ==>
                errorCode != 0 && driver.gpu.reserved == old(driver.gpu.reserved)
      ensures driver.Tidies() ==>
                driver.gpu.live == ReleasedFrom(old(driver.gpu.live), old(Handles(cells, table[d])))
      ensures table == old(table) - {d}
      ensures Attempted(driver.trace, |old(driver.trace)|, d, old(table)[d], old(Handles(cells, table[d])))
    {
      ghost var s := Snapshot();
      AliveIsWhole(s, d);
      FreeTuple(d, size, s);
      op := Free(d, errorCode);
      if driver.Dependable() && size == s.table[d].bytes {
        FreeSteps(s, Snapshot(), d);
      }
    }

    method FreeTuple(d: nat, size: nat, ghost s: State)
      requires Tabled(s) && d in s.alive && Snapshot() == s && UndoingIsExact(s, d)
      modifies this, driver
      ensures driver.Dependable() && size == s.table[d].bytes ==> Freed(s, Snapshot(), d)
      ensures size != s.table[d].bytes && d in s.gpu.reserved && s.gpu.reserved[d] == s.table[d].bytes ==>
                errorCode != 0 && driver.gpu.reserved == s.gpu.reserved
      ensures driver.Tidies() ==> driver.gpu.live == ReleasedFrom(s.gpu.live, Named(s, d))
      ensures table == s.table - {d}
      ensures Attempted(driver.trace, |old(driver.trace)|, d, s.table[d], Named(s, d))
    {
      var e := table[d];
      table := table - {d};
      Reclaim(d, e, size);
      ForgetAllocation(d, s);
      alive := alive - {d};
    }

    /** The bookkeeping after undoing: the allocation holds nothing, and what its cells did not name leaks. */
    ghost method ForgetAllocation(d: nat, s: State)
      requires Tabled(s) && d in s.alive && awake == s.awake && held == s.held
      modifies this`awake, this`held, this`leaked
      ensures awake == s.awake - {d} && held == s.held - {d} && leaked == AfterUndoing(s, d).leaked
    {
      awake, held, leaked := awake - {d}, held - {d}, AfterUndoing(s, d).leaked;
    }

    /** `python_unmap_and_release` with the stored tuple, whatever the allocation has been through: an
        error, old or new, is raised and cleared. Sleeping again takes nothing exactly when none of the
        handles the cells still name is in use. */
    method Sleep(d: nat) returns (ok: bool)
      requires Conserved(Snapshot()) && d in alive
      modifies this, driver
      ensures driver.Dependable() && Harmless(old(Snapshot()), d) ==>
                Enabled(old(Snapshot()), Op.Sleep(d)) && Snapshot() == Apply(old(Snapshot()), Op.Sleep(d))
      ensures driver.Dependable() ==> (Conserved(Snapshot()) <==> Harmless(old(Snapshot()), d))
      ensures driver.Dependable() ==> (ok <==> old(errorCode) == 0 && Undoable(old(Snapshot()), d))
      ensures errorCode == 0
      ensures driver.Tidies() && d !in old(awake) ==>
                (driver.gpu.live == old(driver.gpu.live) <==> NoneUsed(old(driver.gpu.live), old(Handles(cells, table[d]))))
      ensures Attempted(driver.trace, |old(driver.trace)|, d, old(table)[d], old(Handles(cells, table[d])))
    {
      ghost var s := Snapshot();
      AliveIsWhole(s, d);
      ok := SleepTuple(d, s);
      TakesNothingIff(s.gpu.live, Named(s, d));
      if driver.Dependable() {
        SleepSteps(s, Snapshot(), d);
      }
    }

    method SleepTuple(d: nat, ghost s: State) returns (ok: bool)
      requires Tabled(s) && d in s.alive && Snapshot() == s && UndoingIsExact(s, d)
      modifies this, driver
      ensures driver.Dependable() ==> Slept(s, Snapshot(), d) && (ok <==> s.error == 0 && Undoable(s, d))
      ensures errorCode == 0
      ensures driver.Tidies() ==> driver.gpu.live == ReleasedFrom(s.gpu.live, Named(s, d))
      ensures Attempted(driver.trace, |old(driver.trace)|, d, s.table[d], Named(s, d))
    {
      var e := table[d];
      UnmapAndRelease(d, e, e.bytes);
      ok := errorCode == 0;
      errorCode := 0;
      ForgetAllocation(d, s);
    }

    /** `python_create_and_map` with the stored tuple, whatever the allocation has been through. Entered
        with an error pending it cannot succeed: it clears the error, and the handle it creates first is
        left behind. On an allocation that is awake it cannot succeed either: the range is taken, and the
        cells of the chunks it created no longer name the handles that are mapped. */
    method WakeUp(d: nat) returns (ok: bool, ghost op: Op)
      requires Conserved(Snapshot()) && d in alive
      modifies this, driver
      ensures ok || old(errorCode) != 0 || driver.Dependable() ==>
                Enabled(old(Snapshot()), op) && Snapshot() == Apply(old(Snapshot()), op)
      ensures (if ok then op.Wake? else if old(errorCode) == 0 then op.WakeUndone? else op.WakePending?) && op.d == d
      ensures d in old(awake) ==> !ok
      ensures |old(driver.trace)| < |driver.trace|
      ensures !ok ==> (op.created == [] <==> driver.trace[|old(driver.trace)|].status != 0)
      ensures old(errorCode) == 0 ==> (ok <==> FirstError(driver.trace, |old(driver.trace)|) == 0)
      ensures old(errorCode) != 0 ==> !ok
      ensures errorCode == 0
    {
      ghost var s := Snapshot();
      AwakeIsOccupied(s, d);
      ok, op := WakeTuple(d, s);
    }

    method WakeTuple(d: nat, ghost s: State) returns (ok: bool, ghost op: Op)
      requires Tabled(s) && d in s.alive && Snapshot() == s
      requires d in s.awake ==> !Clear(s.gpu.mapped, d, s.table[d].bytes)
      modifies this, driver
      ensures ok || s.error != 0 || driver.Dependable() ==> Enabled(s, op) && Snapshot() == Apply(s, op)
      ensures (if ok then op.Wake? else if s.error == 0 then op.WakeUndone? else op.WakePending?) && op.d == d
      ensures d in s.awake ==> !ok
      ensures |old(driver.trace)| < |driver.trace|
      ensures !ok ==> (op.created == [] <==> driver.trace[|old(driver.trace)|].status != 0)
      ensures s.error == 0 ==> (ok <==> FirstError(driver.trace, |old(driver.trace)|) == 0)
      ensures s.error != 0 ==> !ok
      ensures errorCode == 0
    {
      var e := table[d];
      ghost var made := CreateAndMap(d, e);
      ghost var handles := Handles(cells, e);
      ok := errorCode == 0;
      errorCode := 0;
      if ok {
        op := Wake(d, handles);
        awake, held := awake + {d}, held[d := handles];
        WakeSteps(s, Snapshot(), d, handles, made);
      } else if s.error == 0 {
        op := WakeUndone(d, handles[..made]);
        UndoneSteps(s, Snapshot(), d, handles, made);
      } else {
        op := WakePending(d, handles[..made]);
        leaked := leaked + LeftBehind(e, handles[..made]);
        PendingSteps(s, Snapshot(), d, handles, made);
      }
    }
  }

  /** No other reservation meets the range reserved at `d`. */
  ghost predicate Alone(reserved: map<nat, nat>, d: nat, bytes: nat) {
    && d in reserved && reserved[d] == bytes
    && forall a :: a in reserved && a != d ==> Apart(a, reserved[a], d, bytes)
  }

  /** The device holds the whole allocation, open to access, and nothing else in its range or under its handles. */
  ghost predicate Holds(g: Gpu, d: nat, e: Entry, handles: seq<nat>)
    requires |handles| == |e.sizes|
  {
    var maps, backing := Maps(d, e.sizes, handles, 0, |e.sizes|), Backing(e.sizes, handles, 0, |e.sizes|);
    && 0 < d && Alone(g.reserved, d, e.bytes)
    && maps <= g.mapped && maps <= g.accessible && Clear(g.mapped - maps, d, e.bytes)
    && backing <= g.live && FreshHandles(g.live - backing, handles)
  }

  /** What both undo loops leave. */
  ghost function AfterUndo(g: Gpu, d: nat, e: Entry, handles: seq<nat>): Gpu {
    var mapped := UnmappedFrom(g.mapped, d, e.sizes, |e.sizes|);
    g.(live := ReleasedFrom(g.live, handles), mapped := mapped, accessible := g.accessible * mapped)
  }

  /** Every chunk is mapped and the handles are distinct and live: undoing meets no failure of its own. */
  ghost predicate Undoes(g: Gpu, d: nat, e: Entry, handles: seq<nat>) {
    AllMapped(g.mapped, d, e.sizes, |e.sizes|) && Distinct(handles) && AllUsed(g.live, handles)
  }

  /** The range is reserved for the entry alone, and nothing but its chunks is mapped in it. */
  ghost predicate Whole(g: Gpu, d: nat, e: Entry) {
    0 < d && Alone(g.reserved, d, e.bytes) && Clear(UnmappedFrom(g.mapped, d, e.sizes, |e.sizes|), d, e.bytes)
  }

  /** The calls from `start` on free the range, take it again, and give back a different one. */
  ghost predicate Cycled(trace: seq<Event>, start: nat, d: nat, bytes: nat) {
    && start < |trace| && trace[start].call == AddressFree(d, bytes)
    && if trace[start].status != 0 then |trace| == start + 1
       else
         && start + 1 < |trace| && trace[start + 1].call == AddressReserve(bytes, d)
         && if trace[start + 1].status != 0 || trace[start + 1].out == d then |trace| == start + 2
            else |trace| == start + 3 && trace[start + 2].call == AddressFree(trace[start + 1].out, bytes)
  }

  /** From `start` on: every chunk unmapped once, then every handle released once, in order. */
  ghost predicate Attempted(trace: seq<Event>, start: nat, d: nat, e: Entry, handles: seq<nat>)
    requires |handles| == |e.sizes|
  {
    var n := |e.sizes|;
    && start + 2 * n <= |trace|
    && (forall k :: 0 <= k < n ==> trace[start + k].call == UnmapOf(d, e.sizes, k))
    && (forall k :: 0 <= k < n ==> trace[start + n + k].call == Release(handles[k]))
  }

  lemma AsleepIsVacant(s: State, d: nat)
    requires Conserved(s) && d in s.alive && d !in s.awake
    ensures Clear(s.gpu.mapped, d, s.table[d].bytes)
  {
    forall m | m in s.gpu.mapped ensures Apart(m.addr, m.bytes, d, s.table[d].bytes) {
      var a :| a in AwakeMaps(s) && m in AwakeMaps(s)[a];
      MapsInside(a, s.table[a].sizes, s.held[a], |s.table[a].sizes|);
      assert Apart(a, s.table[a].bytes, d, s.table[d].bytes);
    }
  }

  /** In a conserved state that is so for every living allocation. */
  lemma AliveIsWhole(s: State, d: nat)
    requires Conserved(s) && d in s.alive
    ensures UndoingIsExact(s, d)
  {
    var e := s.table[d];
    HasChunks(e);
    if d in s.awake {
      AwakeHolds(s, d);
      var maps := OwnedMaps(s, d);
      assert (s.gpu.mapped - maps) + maps == s.gpu.mapped;
      UnmappedRest(s.gpu.mapped - maps, d, e.sizes, s.held[d], |e.sizes|);
    } else {
      AsleepIsVacant(s, d);
      NotAtChunks(s.gpu.mapped, d, e.sizes, |e.sizes|);
    }
    forall a | a in s.gpu.reserved && a != d ensures Apart(a, s.gpu.reserved[a], d, e.bytes) {
      assert Apart(a, s.table[a].bytes, d, e.bytes);
    }
  }

  /** Where an allocation is awake, nothing else can be mapped. */
  lemma AwakeIsOccupied(s: State, d: nat)
    requires Conserved(s) && d in s.alive
    ensures d in s.awake ==> !Clear(s.gpu.mapped, d, s.table[d].bytes)
  {
    if d in s.awake {
      HasChunks(s.table[d]);
      var sizes := s.table[d].sizes;
      AliveIsWhole(s, d);
      if Clear(s.gpu.mapped, d, s.table[d].bytes) {
        NotAtChunks(s.gpu.mapped, d, sizes, |sizes|);
      }
    }
  }

  lemma TakesNothingIff(live: set<Physical>, handles: seq<nat>)
    ensures ReleasedFrom(live, handles) == live <==> NoneUsed(live, handles)
  {
    if ReleasedFrom(live, handles) == live {
      forall k, p | 0 <= k < |handles| && p in live ensures p.handle != handles[k] {
        assert p in ReleasedFrom(live, handles);
      }
    }
  }

  /** Both states agree with undoing `d` on memory, mappings and what is held. */
  ghost predicate Undone(s: State, t: State, d: nat)
    requires Tabled(s) && d in s.alive
  {
    && t.gpu.live == ReleasedFrom(s.gpu.live, Named(s, d)) && t.gpu.mapped == s.gpu.mapped - HeldMaps(s, d)
    && t.gpu.accessible == s.gpu.accessible - HeldMaps(s, d)
    && t.awake == s.awake - {d} && t.held == s.held - {d} && t.leaked == AfterUndoing(s, d).leaked
  }

  /** What a call leaves of `d` when it only undoes it. */
  ghost predicate Slept(s: State, t: State, d: nat)
    requires Tabled(s) && d in s.alive
  {
    && Undone(s, t, d) && t.error == 0 && t.gpu.reserved == s.gpu.reserved
    && t.cells == s.cells && t.table == s.table && t.alive == s.alive
  }

  /** What a call leaves of `d` when it also gives its range and its cells back. */
  ghost predicate Freed(s: State, t: State, d: nat)
    requires Tabled(s) && d in s.alive
  {
    && Undone(s, t, d) && t.gpu.reserved == s.gpu.reserved - {d}
    && t.cells == s.cells - Cells(s.table[d]) && t.table == s.table - {d} && t.alive == s.alive - {d}
    && if Undoable(s, d) then t.error == s.error else t.error != 0
  }

  /** Undoing a living allocation makes up a `Sleep` step, or breaks the accounting. */
  lemma SleepSteps(s: State, t: State, d: nat)
    requires Conserved(s) && d in s.alive && Slept(s, t, d)
    ensures Harmless(s, d) ==> Enabled(s, Sleep(d)) && t == Apply(s, Sleep(d))
    ensures Conserved(t) <==> Harmless(s, d)
  {
    if Harmless(s, d) {
      StepConserves(s, Sleep(d));
    } else {
      HarmBreaks(s, t, d);
    }
  }

  /** Undoing it and giving its range and cells back makes up a `Free` step, or breaks the accounting. */
  lemma FreeSteps(s: State, t: State, d: nat)
    requires Conserved(s) && d in s.alive && Freed(s, t, d)
    ensures Harmless(s, d) ==> Enabled(s, Free(d, t.error)) && t == Apply(s, Free(d, t.error))
    ensures Conserved(t) <==> Harmless(s, d)
  {
    if Harmless(s, d) {
      StepConserves(s, Free(d, t.error));
    } else {
      HarmBreaks(s, t, d);
    }
  }

  lemma RenamedIsOverwritten(s: State, cells: map<nat, nat>, d: nat, made: nat)
    requires Tabled(s) && d in s.alive && Overwrote(s.cells, cells, s.table[d], made, s.gpu.live)
    ensures cells == Renamed(s, d, Handles(cells, s.table[d])[..made])
    ensures cells == Store(s.cells, s.table[d], Handles(cells, s.table[d]))
  {
    var e := s.table[d];
    var handles := Handles(cells, e);
    IsStore(s.cells, cells, e);
    assert handles == handles[..made] + handles[made..];
  }

  lemma WakeSteps(s: State, t: State, d: nat, handles: seq<nat>, made: nat)
    requires Tabled(s) && d in s.alive && d !in s.awake && s.error == 0
    requires Overwrote(s.cells, t.cells, s.table[d], made, s.gpu.live) && handles == Handles(t.cells, s.table[d])
    requires Backed(s.gpu, t.gpu, d, s.table[d], handles, true)
    requires t == s.(gpu := t.gpu, cells := t.cells, awake := s.awake + {d}, held := s.held[d := handles])
    ensures Enabled(s, Wake(d, handles)) && t == Apply(s, Wake(d, handles))
  {
    RenamedIsOverwritten(s, t.cells, d, made);
  }

  lemma UndoneSteps(s: State, t: State, d: nat, handles: seq<nat>, made: nat)
    requires Tabled(s) && d in s.alive && s.error == 0
    requires Overwrote(s.cells, t.cells, s.table[d], made, s.gpu.live) && handles == Handles(t.cells, s.table[d])
    ensures t == s.(cells := t.cells) ==>
              Enabled(s, WakeUndone(d, handles[..made])) && t == Apply(s, WakeUndone(d, handles[..made]))
  {
    RenamedIsOverwritten(s, t.cells, d, made);
  }

  lemma PendingSteps(s: State, t: State, d: nat, handles: seq<nat>, made: nat)
    requires Tabled(s) && d in s.alive && s.error != 0 && made <= 1
    requires Overwrote(s.cells, t.cells, s.table[d], made, s.gpu.live) && handles == Handles(t.cells, s.table[d])
    requires var left := LeftBehind(s.table[d], handles[..made]);
      t == s.(gpu := s.gpu.(live := s.gpu.live + left), leaked := s.leaked + left, cells := t.cells, error := 0)
    ensures Enabled(s, WakePending(d, handles[..made])) && t == Apply(s, WakePending(d, handles[..made]))
  {
    RenamedIsOverwritten(s, t.cells, d, made);
  }

  /** Undoing unmaps what the allocation holds and nothing else, all of it exactly if it is awake, and its
      range can be given back. */
  ghost predicate UndoingIsExact(s: State, d: nat)
    requires Tabled(s) && d in s.alive
  {
    var sizes := s.table[d].sizes;
    && Whole(s.gpu, d, s.table[d])
    && UnmappedFrom(s.gpu.mapped, d, sizes, |sizes|) == s.gpu.mapped - HeldMaps(s, d)
    && (AllMapped(s.gpu.mapped, d, sizes, |sizes|) <==> d in s.awake)
  }

  /** In a conserved state the device holds every awake allocation completely and exclusively. */
  lemma AwakeHolds(s: State, d: nat)
    requires Conserved(s) && d in s.awake
    ensures Holds(s.gpu, d, s.table[d], s.held[d])
  {
    var e, handles := s.table[d], s.held[d];
    var maps, backing := OwnedMaps(s, d), Owned(s, d);
    assert AwakeMaps(s)[d] == maps && AwakeMemory(s)[d] == backing;
    forall m | m in s.gpu.mapped - maps ensures Apart(m.addr, m.bytes, d, e.bytes) {
      var a :| a in AwakeMaps(s) && m in AwakeMaps(s)[a];
      MapsInside(a, s.table[a].sizes, s.held[a], |s.table[a].sizes|);
      assert Apart(a, s.table[a].bytes, d, e.bytes);
    }
    OthersHandles(s.gpu.live, s.leaked, AwakeMemory(s), d);
    BackingHandles(s.gpu.live - backing, e.sizes, handles);
  }

  /** Memory outside one part lives under other handles. */
  lemma OthersHandles(live: set<Physical>, leaked: set<Physical>, parts: map<nat, set<Physical>>, d: nat)
    requires IsUnion(live - leaked, parts) && PairwiseDisjoint(parts) && NoneLeaked(parts, leaked) && d in parts
    ensures parts[d] <= live && Disjoint(live - parts[d], parts[d])
  {
    forall p | p in live - parts[d] ensures forall q :: q in parts[d] ==> p.handle != q.handle {
      if p !in leaked {
        assert p in live - leaked;
        var a :| a in parts && p in parts[a];
        assert Disjoint(parts[a], parts[d]);
      } else {
        assert Disjoint(parts[d], leaked);
      }
    }
    forall p | p in parts[d] ensures p in live {
      assert p in live - leaked;
    }
  }

  lemma BackingHandles(others: set<Physical>, sizes: seq<nat>, handles: seq<nat>)
    requires |sizes| == |handles| && Disjoint(others, Backing(sizes, handles, 0, |sizes|))
    ensures NoneUsed(others, handles)
  {
    forall k, p | 0 <= k < |handles| && p in others ensures p.handle != handles[k] {
      assert Physical(handles[k], sizes[k]) in Backing(sizes, handles, 0, |sizes|);
    }
  }

  /** Cells allocated on top of the heap and then written are a store into the heap. */
  lemma StoreOverFresh(was: map<nat, nat>, mid: map<nat, nat>, e: Entry, handles: seq<nat>)
    requires |handles| == |e.cells| && mid.Keys == was.Keys + Cells(e)
    requires forall c :: c in was ==> mid[c] == was[c]
    ensures Store(mid, e, handles) == Store(was, e, handles)
    ensures Store(was, e, handles).Keys == was.Keys + Cells(e)
    ensures Cells(e) !! was.Keys ==> forall c :: c in was ==> Store(was, e, handles)[c] == was[c]
  {
  }

  lemma RefusedSteps(s: State, t: State)
    requires Tabled(s) && t == s.(error := t.error) && t.error != 0
    ensures Enabled(s, MallocRefused(t.error)) && t == Apply(s, MallocRefused(t.error))
  {
  }

  /** A reservation, fresh cells and a successful mapping make up one `Malloc` step. */
  lemma MallocSteps(s: State, t: State, d: nat, e: Entry, handles: seq<nat>)
    requires Tabled(s) && s.error == 0 && 0 < d && d !in s.alive && RangeFree(s.gpu.reserved, d, e.bytes)
    requires WellFormed(e) && Cells(e) !! s.cells.Keys && |handles| == |e.sizes|
    requires Backed(s.gpu.(reserved := s.gpu.reserved[d := e.bytes]), t.gpu, d, e, handles, true)
    requires t == s.(gpu := t.gpu, cells := Store(s.cells, e, handles), table := s.table[d := e],
                     alive := s.alive + {d}, awake := s.awake + {d}, held := s.held[d := handles])
    ensures Enabled(s, Malloc(d, e, handles)) && t == Apply(s, Malloc(d, e, handles))
  {
  }

  /** The entry is cut into chunks of the configured size, rounded up; the last may be shorter, and
      all are multiples of the granularity. */
  ghost predicate Chunked(e: Entry, granularity: nat, env: EnvValue)
    requires 0 < granularity
  {
    var chunk := AlignUp(MemcreateChunkSize(env), granularity);
    && (forall k :: 0 <= k < |e.sizes| ==> 0 < e.sizes[k] <= chunk && e.sizes[k] % granularity == 0)
    && (forall k :: 0 <= k < |e.sizes| - 1 ==> e.sizes[k] == chunk)
  }

  lemma SomethingFresh(used: set<nat>)
    ensures exists c: nat :: c !in used
  {
    var bound := UpperBound(used);
    assert bound + 1 !in used;
  }

  lemma UpperBound(used: set<nat>) returns (bound: nat)
    ensures forall c :: c in used ==> c <= bound
  {
    if used == {} {
      bound := 0;
    } else {
      var c :| c in used;
      var rest := UpperBound(used - {c});
      bound := if rest < c then c else rest;
      assert forall x :: x in used ==> x == c || x in used - {c};
    }
  }

  /** Nothing is mapped in a range that was free to reserve, so the reservation can be returned. */
  lemma ReservationReturns(s: State, d: nat, bytes: nat)
    requires Conserved(s) && 0 < bytes && RangeFree(s.gpu.reserved, d, bytes)
    ensures Clear(s.gpu.mapped, d, bytes) && d !in s.gpu.reserved
  {
    forall m | m in s.gpu.mapped ensures Apart(m.addr, m.bytes, d, bytes) {
      var a :| a in AwakeMaps(s) && m in AwakeMaps(s)[a];
      MapsInside(a, s.table[a].sizes, s.held[a], |s.table[a].sizes|);
      assert Apart(a, s.gpu.reserved[a], d, bytes);
    }
  }

  ghost predicate AccessRefused(trace: seq<Event>, d: nat, bytes: nat) {
    && 0 < |trace| && trace[|trace| - 1].call == SetAccess(d, bytes) && trace[|trace| - 1].status != 0
  }

  /** Every chunk of the entry is backed by a handle of its own and mapped at its offset from `d`, and
      access to it is granted or not. */
  ghost predicate Backed(before: Gpu, after: Gpu, d: nat, e: Entry, handles: seq<nat>, granted: bool)
    requires |handles| == |e.sizes|
  {
    && FreshHandles(before.live, handles)
    && after == Gpu(before.reserved,
                    before.live + Backing(e.sizes, handles, 0, |e.sizes|),
                    before.mapped + Maps(d, e.sizes, handles, 0, |e.sizes|),
                    before.accessible + if granted then Maps(d, e.sizes, handles, 0, |e.sizes|) else {})
  }

  /** The mappings of chunks 0..i were added, in a range where nothing was mapped before. */
  ghost predicate MappedUpTo(before: Gpu, now: Gpu, d: nat, e: Entry, handles: seq<nat>, i: nat)
    requires i <= |e.sizes| == |handles|
  {
    && now == before.(mapped := before.mapped + Maps(d, e.sizes, handles, 0, i))
    && Clear(before.mapped, d, Offset(e.sizes, i))
  }

  /** Access to the whole range is access to the chunks mapped there. */
  lemma MeetingIsMaps(before: Gpu, d: nat, e: Entry, handles: seq<nat>)
    requires WellFormed(e) && |handles| == |e.sizes| && Clear(before.mapped, d, e.bytes)
    ensures var maps := Maps(d, e.sizes, handles, 0, |e.sizes|); Meeting(before.mapped + maps, d, e.bytes) == maps
  {
    MapsInside(d, e.sizes, handles, |e.sizes|);
    forall m | m in Maps(d, e.sizes, handles, 0, |e.sizes|) ensures !Apart(m.addr, m.bytes, d, e.bytes) {
      assert 0 < m.bytes;
    }
  }

  lemma MappedOne(g: Gpu, now: Gpu, d: nat, e: Entry, handles: seq<nat>, i: nat, out: nat)
    requires i < |e.sizes| == |handles| && MappedUpTo(g, now, d, e, handles, i)
    requires Legal(now, Map(d + Offset(e.sizes, i), e.sizes[i], handles[i]), out)
    ensures MappedUpTo(g, now.(mapped := now.mapped + {ChunkMap(d, e.sizes, handles, i)}), d, e, handles, i + 1)
  {
    ClearGrows(g.mapped, d, e.sizes, i);
    MapsLast(d, e.sizes, handles, 0, i + 1);
  }

  /** After creating chunks 0..i: their cells hold fresh handles, and only their memory was added. */
  ghost predicate Created(was: map<nat, nat>, before: Gpu, cells: map<nat, nat>, now: Gpu, e: Entry, i: nat)
    requires HasCells(cells, e) && i <= |e.cells| == |e.sizes|
  {
    && Overwrote(was, cells, e, i, before.live)
    && now == before.(live := before.live + Backing(e.sizes, Handles(cells, e), 0, i))
  }

  lemma CreatedOne(was: map<nat, nat>, before: Gpu, cells: map<nat, nat>, e: Entry, i: nat, handle: nat)
    requires HasCells(cells, e) && i < |e.cells| == |e.sizes| && Distinct(e.cells)
    requires Overwrote(was, cells, e, i, before.live)
    requires Unused(before.live + Backing(e.sizes, Handles(cells, e), 0, i), handle)
    ensures var cells' := cells[e.cells[i] := handle];
      && HasCells(cells', e)
      && Created(was, before, cells',
                 before.(live := before.live + Backing(e.sizes, Handles(cells, e), 0, i)
                               + {Physical(handle, e.sizes[i])}), e, i + 1)
  {
    StoreOne(was, cells, e, i, handle);
    assert Handles(was, e)[i + 1..] == Handles(was, e)[i..][1..];
    assert Handles(cells, e)[i := handle][i + 1..] == Handles(cells, e)[i..][1..];
    FreshOne(before.live, e.sizes, Handles(cells, e), handle, i);
  }

  /** The cells of the first `made` chunks hold fresh handles; no other cell changed. */
  ghost predicate Overwrote(was: map<nat, nat>, cells: map<nat, nat>, e: Entry, made: nat, live: set<Physical>) {
    && |e.cells| == |e.sizes| && made <= |e.sizes| && HasCells(was, e) && HasCells(cells, e)
    && SameElsewhere(was, cells, e) && FreshHandles(live, Handles(cells, e)[..made])
    && Handles(cells, e)[made..] == Handles(was, e)[made..]
  }

  /** One more created chunk: still fresh, and its memory is all that was added. */
  lemma FreshOne(live: set<Physical>, sizes: seq<nat>, handles: seq<nat>, handle: nat, i: nat)
    requires i < |sizes| == |handles|
    requires FreshHandles(live, handles[..i])
    requires Unused(live + Backing(sizes, handles, 0, i), handle)
    ensures var handles' := handles[i := handle];
      && FreshHandles(live, handles'[..i + 1])
      && live + Backing(sizes, handles, 0, i) + {Physical(handle, sizes[i])}
      == live + Backing(sizes, handles', 0, i + 1)
  {
    var handles' := handles[i := handle];
    forall k | 0 <= k < i ensures handles[k] != handle && handles[..i][k] == handles[k] {
      assert Physical(handles[k], sizes[k]) in Backing(sizes, handles, 0, i);
    }
    assert handles'[..i + 1] == handles[..i] + [handle];
    assert handles[..i] == handles'[..i];
    SamePrefix(0, sizes, handles, handles', i);
    BackingLast(sizes, handles', 0, i + 1);
  }
}
