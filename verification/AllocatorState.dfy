/** The allocator as a state machine: what each exported call does to the driver,
    the C heap of handle cells and the Python table of allocations. */
module AllocatorState {
  import opened ChunkPlan
  import opened GpuDriver
  import opened Chunks

  /** The tuple handed to Python: aligned size, one heap cell per chunk handle, chunk sizes. */
  datatype Entry = Entry(bytes: nat, cells: seq<nat>, sizes: seq<nat>)

  datatype State = State(
    gpu: Gpu,
    cells: map<nat, nat>,      // C heap: cell address to the handle stored in it
    table: map<nat, Entry>,    // Python's pointer_to_data
    alive: set<nat>,           // addresses my_malloc returned and my_free has not taken back
    awake: set<nat>,           // those of `alive` that are mapped
    held: map<nat, seq<nat>>,  // the handles each awake allocation is mapped to, whatever its cells hold
    leaked: set<Physical>,     // live memory that backs no mapping
    error: nat)                // the sticky error_code

  datatype Op =
    | Malloc(d: nat, entry: Entry, handles: seq<nat>)
    | MallocRefused(status: nat)
    | MallocUndone(d: nat, entry: Entry, status: nat)
    | Free(d: nat, status: nat)
    | Sleep(d: nat)
    | Wake(d: nat, handles: seq<nat>)
    | WakeUndone(d: nat, created: seq<nat>)
    | WakePending(d: nat, created: seq<nat>)

  const EMPTY: State := State(Gpu(map[], {}, {}, {}), map[], map[], {}, {}, map[], {}, 0)

  ghost predicate WellFormed(e: Entry) {
    && |e.cells| == |e.sizes|
    && Distinct(e.cells)
    && Positive(e.sizes)
    && Offset(e.sizes, |e.sizes|) == e.bytes
    && 0 < e.bytes
  }

  ghost predicate HasCells(cells: map<nat, nat>, e: Entry) {
    forall k :: 0 <= k < |e.cells| ==> e.cells[k] in cells
  }

  /** The handles the cells of an entry hold now. */
  ghost function Handles(cells: map<nat, nat>, e: Entry): (handles: seq<nat>)
    requires HasCells(cells, e)
    ensures |handles| == |e.cells|
  {
    seq(|e.cells|, k requires 0 <= k < |e.cells| => cells[e.cells[k]])
  }

  /** `cells` after storing one handle in each cell of the entry. */
  ghost function Store(cells: map<nat, nat>, e: Entry, handles: seq<nat>): map<nat, nat>
    requires |handles| == |e.cells|
  {
    map c | c in cells.Keys + Cells(e) :: if c in Cells(e) then handles[IndexOf(e.cells, c)] else cells[c]
  }

  ghost function Cells(e: Entry): set<nat> {
    set c | c in e.cells
  }

  ghost function IndexOf(s: seq<nat>, c: nat): (k: nat)
    requires c in s
    ensures k < |s| && s[k] == c
  {
    if s[0] == c then 0 else 1 + IndexOf(s[1..], c)
  }

  lemma StoreAt(cells: map<nat, nat>, e: Entry, handles: seq<nat>)
    requires |handles| == |e.cells| && Distinct(e.cells)
    ensures HasCells(Store(cells, e, handles), e)
    ensures Handles(Store(cells, e, handles), e) == handles
  {
    forall k | 0 <= k < |e.cells| ensures Store(cells, e, handles)[e.cells[k]] == handles[k] {
      assert e.cells[k] in Cells(e);
      var j := IndexOf(e.cells, e.cells[k]);
      assert j == k;
    }
  }

  /** The heaps differ in nothing but the contents of the entry's cells. */
  ghost predicate SameElsewhere(cells: map<nat, nat>, cells': map<nat, nat>, e: Entry) {
    cells'.Keys == cells.Keys && forall c :: c in cells && c !in Cells(e) ==> cells'[c] == cells[c]
  }

  lemma IsStore(cells: map<nat, nat>, cells': map<nat, nat>, e: Entry)
    requires HasCells(cells, e) && HasCells(cells', e) && Distinct(e.cells) && SameElsewhere(cells, cells', e)
    ensures cells' == Store(cells, e, Handles(cells', e))
  {
    forall c | c in Cells(e) ensures c in cells && cells'[c] == Handles(cells', e)[IndexOf(e.cells, c)] {
      var k := IndexOf(e.cells, c);
      assert e.cells[k] in cells;
    }
  }

  lemma StoreOne(was: map<nat, nat>, cells: map<nat, nat>, e: Entry, i: nat, handle: nat)
    requires i < |e.cells| && Distinct(e.cells) && HasCells(cells, e) && SameElsewhere(was, cells, e)
    ensures var cells' := cells[e.cells[i] := handle];
      && SameElsewhere(was, cells', e) && HasCells(cells', e)
      && Handles(cells', e) == Handles(cells, e)[i := handle]
  {
    assert e.cells[i] in Cells(e);
  }

  /** Chunk memory and mappings an allocation holds while awake. */
  ghost function Owned(s: State, d: nat): set<Physical>
    requires d in s.table && d in s.held && |s.held[d]| == |s.table[d].sizes|
  {
    var sizes := s.table[d].sizes;
    Backing(sizes, s.held[d], 0, |sizes|)
  }

  ghost function OwnedMaps(s: State, d: nat): set<Mapping>
    requires d in s.table && d in s.held && |s.held[d]| == |s.table[d].sizes|
  {
    var sizes := s.table[d].sizes;
    Maps(d, sizes, s.held[d], 0, |sizes|)
  }

  // ---- conservation -------------------------------------------------------

  ghost predicate Tabled(s: State) {
    && s.awake <= s.alive <= s.table.Keys && s.held.Keys == s.awake
    && (forall d :: d in s.alive ==> WellFormed(s.table[d]) && HasCells(s.cells, s.table[d]))
    && (forall d :: d in s.awake ==> |s.held[d]| == |s.table[d].sizes|)
  }

  /** Reserved ranges are exactly the living allocations, pairwise apart. */
  ghost predicate Reserved(s: State)
    requires Tabled(s)
  {
    && s.gpu.reserved.Keys == s.alive
    && (forall d :: d in s.alive ==> 0 < d && s.gpu.reserved[d] == s.table[d].bytes)
    && (forall a, b :: a in s.alive && b in s.alive && a != b ==>
          Apart(a, s.table[a].bytes, b, s.table[b].bytes))
  }

  /** `whole` holds exactly the elements of the parts. */
  ghost predicate IsUnion<T(!new)>(whole: set<T>, parts: map<nat, set<T>>) {
    forall x :: x in whole <==> exists d :: d in parts && x in parts[d]
  }

  ghost function AliveCells(s: State): map<nat, set<nat>>
    requires Tabled(s)
  {
    map d | d in s.alive :: Cells(s.table[d])
  }

  ghost predicate Separate(parts: map<nat, set<nat>>) {
    forall a, b :: a in parts && b in parts && a != b ==> parts[a] !! parts[b]
  }

  /** No two chunks share a heap cell, and no cell outlives its allocation. */
  ghost predicate CellsOwned(s: State)
    requires Tabled(s)
  {
    IsUnion(s.cells.Keys, AliveCells(s)) && Separate(AliveCells(s))
  }

  ghost function AwakeMemory(s: State): map<nat, set<Physical>>
    requires Tabled(s)
  {
    map d | d in s.awake :: Owned(s, d)
  }

  ghost function AwakeMaps(s: State): map<nat, set<Mapping>>
    requires Tabled(s)
  {
    map d | d in s.awake :: OwnedMaps(s, d)
  }

  /** Mapped ranges are exactly the chunks of the awake allocations, all of them accessible, and so are
      the live handles, but for those leaked. */
  ghost predicate Exact(s: State)
    requires Tabled(s)
  {
    && IsUnion(s.gpu.mapped, AwakeMaps(s)) && s.gpu.accessible == s.gpu.mapped
    && IsUnion(s.gpu.live - s.leaked, AwakeMemory(s)) && s.leaked <= s.gpu.live
  }

  ghost predicate Disjoint(p: set<Physical>, q: set<Physical>) {
    forall x, y :: x in p && y in q ==> x.handle != y.handle
  }

  ghost predicate PairwiseDisjoint(parts: map<nat, set<Physical>>) {
    forall a, b :: a in parts && b in parts && a != b ==> Disjoint(parts[a], parts[b])
  }

  ghost predicate NoneLeaked(parts: map<nat, set<Physical>>, leaked: set<Physical>) {
    forall d :: d in parts ==> Disjoint(parts[d], leaked)
  }

  /** No handle backs two chunks, and none of a chunk is leaked. */
  ghost predicate Unshared(s: State)
    requires Tabled(s)
  {
    && (forall d :: d in s.awake ==> Distinct(s.held[d]))
    && PairwiseDisjoint(AwakeMemory(s)) && NoneLeaked(AwakeMemory(s), s.leaked)
  }

  ghost predicate Conserved(s: State) {
    Tabled(s) && Reserved(s) && CellsOwned(s) && Exact(s) && Unshared(s)
  }

  // ---- steps --------------------------------------------------------------

  ghost predicate FreshHandles(live: set<Physical>, handles: seq<nat>) {
    Distinct(handles) && NoneUsed(live, handles)
  }

  /** The handles the allocation's own cells name. */
  ghost function Named(s: State, d: nat): seq<nat>
    requires Tabled(s) && d in s.alive
  {
    Handles(s.cells, s.table[d])
  }

  ghost function HeldMemory(s: State, d: nat): set<Physical>
    requires Tabled(s)
  {
    if d in s.awake then Owned(s, d) else {}
  }

  ghost function HeldMaps(s: State, d: nat): set<Mapping>
    requires Tabled(s)
  {
    if d in s.awake then OwnedMaps(s, d) else {}
  }

  /** The cells of an awake allocation name the handles it is mapped to. */
  ghost predicate Sound(s: State, d: nat)
    requires Tabled(s)
  {
    d in s.awake && Named(s, d) == s.held[d]
  }

  /** The allocation's cells name no handle that another awake allocation is mapped to. */
  ghost predicate Harmless(s: State, d: nat)
    requires Tabled(s) && d in s.alive
  {
    forall a :: a in s.awake && a != d ==> NotNamed(Owned(s, a), Named(s, d))
  }

  ghost predicate NotNamed(part: set<Physical>, handles: seq<nat>) {
    forall p :: p in part ==> p.handle !in handles
  }

  /** Every call of undoing the allocation succeeds on a driver that injects no failure. */
  ghost predicate Undoable(s: State, d: nat)
    requires Tabled(s) && d in s.alive
  {
    d in s.awake && Distinct(Named(s, d)) && AllUsed(s.gpu.live, Named(s, d))
  }

  /** The cells of the allocation after its first |created| chunks were created anew. */
  ghost function Renamed(s: State, d: nat, created: seq<nat>): map<nat, nat>
    requires Tabled(s) && d in s.alive && |created| <= |s.table[d].sizes|
  {
    Store(s.cells, s.table[d], created + Named(s, d)[|created|..])
  }

  ghost predicate Enabled(s: State, op: Op)
    requires Tabled(s)
  {
    match op
    case Malloc(d, e, handles) =>
      && s.error == 0 && 0 < d && d !in s.alive
      && WellFormed(e) && Cells(e) !! s.cells.Keys
      && RangeFree(s.gpu.reserved, d, e.bytes)
      && |handles| == |e.sizes| && FreshHandles(s.gpu.live, handles)
    case MallocRefused(status) => status != 0
    case MallocUndone(d, e, status) => s.error == 0 && status != 0 && d !in s.alive
    case Free(d, status) =>
      && d in s.alive && Harmless(s, d)
      && if Undoable(s, d) then status == s.error else status != 0
    case Sleep(d) => d in s.alive && Harmless(s, d)
    case Wake(d, handles) =>
      && s.error == 0 && d in s.alive && d !in s.awake
      && |handles| == |s.table[d].sizes| && FreshHandles(s.gpu.live, handles)
    case WakeUndone(d, created) =>
      && s.error == 0 && d in s.alive
      && |created| <= |s.table[d].sizes| && FreshHandles(s.gpu.live, created)
    case WakePending(d, created) =>
      && s.error != 0 && d in s.alive
      && |created| <= 1 && FreshHandles(s.gpu.live, created)
  }

  /** The first chunk's memory, if it was created. */
  ghost function LeftBehind(e: Entry, created: seq<nat>): set<Physical> {
    if created == [] || e.sizes == [] then {} else {Physical(created[0], e.sizes[0])}
  }

  lemma HasChunks(e: Entry)
    requires WellFormed(e)
    ensures 0 < |e.sizes|
  {
  }

  /** The driver and the leaked memory after undoing: whatever the cells name is released, and what
      the allocation was mapped to beyond that is leaked. */
  ghost function AfterUndoing(s: State, d: nat): State
    requires Tabled(s) && d in s.alive
  {
    s.(gpu := s.gpu.(live := ReleasedFrom(s.gpu.live, Named(s, d)),
                     mapped := s.gpu.mapped - HeldMaps(s, d),
                     accessible := s.gpu.accessible - HeldMaps(s, d)),
       leaked := ReleasedFrom(s.leaked + HeldMemory(s, d), Named(s, d)),
       awake := s.awake - {d},
       held := s.held - {d})
  }

  /** The state after an enabled operation. A failed `my_malloc` leaves its entry behind in
      the Python table, since the callback has stored it before the mapping is attempted. A failed
      wake renames cells, also those of an awake allocation. */
  ghost function Apply(s: State, op: Op): State
    requires Tabled(s) && Enabled(s, op)
  {
    match op
    case Malloc(d, e, handles) =>
      s.(gpu := Gpu(s.gpu.reserved[d := e.bytes],
                    s.gpu.live + Backing(e.sizes, handles, 0, |e.sizes|),
                    s.gpu.mapped + Maps(d, e.sizes, handles, 0, |e.sizes|),
                    s.gpu.accessible + Maps(d, e.sizes, handles, 0, |e.sizes|)),
         cells := Store(s.cells, e, handles),
         table := s.table[d := e],
         alive := s.alive + {d},
         awake := s.awake + {d},
         held := s.held[d := handles])
    case MallocRefused(status) => s.(error := status)
    case MallocUndone(d, e, status) => s.(table := s.table[d := e], error := status)
    case Free(d, status) =>
      var t := AfterUndoing(s, d);
      t.(gpu := t.gpu.(reserved := s.gpu.reserved - {d}),
         cells := s.cells - Cells(s.table[d]),
         table := s.table - {d},
         alive := s.alive - {d},
         error := status)
    case Sleep(d) => AfterUndoing(s, d).(error := 0)
    case Wake(d, handles) =>
      var e := s.table[d];
      s.(gpu := s.gpu.(live := s.gpu.live + Backing(e.sizes, handles, 0, |e.sizes|),
                       mapped := s.gpu.mapped + Maps(d, e.sizes, handles, 0, |e.sizes|),
                       accessible := s.gpu.accessible + Maps(d, e.sizes, handles, 0, |e.sizes|)),
         cells := Store(s.cells, e, handles),
         awake := s.awake + {d},
         held := s.held[d := handles])
    case WakeUndone(d, created) => s.(cells := Renamed(s, d, created))
    case WakePending(d, created) =>
      var left := LeftBehind(s.table[d], created);
      s.(gpu := s.gpu.(live := s.gpu.live + left), leaked := s.leaked + left,
         cells := Renamed(s, d, created), error := 0)
  }
}
