/** The driver behind the `cuMem*` calls: reserved address ranges, live physical
    handles and mapped ranges, with an oracle that decides which call fails. */
module GpuDriver {

  datatype Call =
    | GetGranularity
    | AddressReserve(bytes: nat, hint: nat)
    | AddressFree(addr: nat, bytes: nat)
    | Create(bytes: nat)
    | Release(handle: nat)
    | Map(addr: nat, bytes: nat, handle: nat)
    | Unmap(addr: nat, bytes: nat)
    | SetAccess(addr: nat, bytes: nat)

  /** One issued call, the status it returned (0 is success) and the address or handle it produced. */
  datatype Event = Event(call: Call, status: nat, out: nat)

  datatype Physical = Physical(handle: nat, bytes: nat)
  datatype Mapping = Mapping(addr: nat, bytes: nat, handle: nat)

  datatype Gpu = Gpu(reserved: map<nat, nat>, live: set<Physical>, mapped: set<Mapping>, accessible: set<Mapping>)

  /** Only what is mapped can be accessed. */
  type Device = g: Gpu | g.accessible <= g.mapped witness Gpu(map[], {}, {}, {})

  /** The two byte ranges do not meet. */
  predicate Apart(a: nat, aBytes: nat, b: nat, bBytes: nat) {
    aBytes == 0 || bBytes == 0 || a + aBytes <= b || b + bBytes <= a
  }

  /** No mapping of `mapped` touches the range. */
  predicate Clear(mapped: set<Mapping>, addr: nat, bytes: nat) {
    forall m :: m in mapped ==> Apart(m.addr, m.bytes, addr, bytes)
  }

  predicate RangeFree(reserved: map<nat, nat>, addr: nat, bytes: nat) {
    forall a :: a in reserved ==> Apart(a, reserved[a], addr, bytes)
  }

  predicate Unused(live: set<Physical>, handle: nat) {
    forall p :: p in live ==> p.handle != handle
  }

  /** What the driver demands before it can carry out a call. */
  predicate Legal(g: Gpu, c: Call, out: nat) {
    match c
    case GetGranularity => true
    case AddressReserve(bytes, _) => 0 < bytes && 0 < out && RangeFree(g.reserved, out, bytes)
    case AddressFree(addr, bytes) => addr in g.reserved && g.reserved[addr] == bytes && Clear(g.mapped, addr, bytes)
    case Create(bytes) => 0 < bytes && Unused(g.live, out)
    case Release(handle) => !Unused(g.live, handle)
    case Map(addr, bytes, handle) =>
      && Physical(handle, bytes) in g.live
      && (exists a :: a in g.reserved && a <= addr && addr + bytes <= a + g.reserved[a])
      && Clear(g.mapped, addr, bytes)
    case Unmap(addr, bytes) => exists m :: m in g.mapped && m.addr == addr && m.bytes == bytes
    case SetAccess(_, _) => true
  }

  /** The mappings that meet the range. */
  function Meeting(mapped: set<Mapping>, addr: nat, bytes: nat): set<Mapping> {
    set m | m in mapped && !Apart(m.addr, m.bytes, addr, bytes)
  }

  function Effect(g: Gpu, c: Call, out: nat): Gpu {
    match c
    case GetGranularity => g
    case AddressReserve(bytes, _) => g.(reserved := g.reserved[out := bytes])
    case AddressFree(addr, _) => g.(reserved := g.reserved - {addr})
    case Create(bytes) => g.(live := g.live + {Physical(out, bytes)})
    case Release(handle) => g.(live := set p | p in g.live && p.handle != handle)
    case Map(addr, bytes, handle) => g.(mapped := g.mapped + {Mapping(addr, bytes, handle)})
    case Unmap(addr, bytes) =>
      var mapped := set m | m in g.mapped && !(m.addr == addr && m.bytes == bytes);
      g.(mapped := mapped, accessible := g.accessible * mapped)
    case SetAccess(addr, bytes) => g.(accessible := g.accessible + Meeting(g.mapped, addr, bytes))
  }

  /** The status of the first failing call from position `start` on, 0 when none failed. */
  function FirstError(trace: seq<Event>, start: nat): (status: nat)
    ensures status == 0 <==> forall k :: start <= k < |trace| ==> trace[k].status == 0
  {
    if |trace| <= start then 0
    else
      var before := FirstError(trace[..|trace| - 1], start);
      if before != 0 then before else trace[|trace| - 1].status
  }

  lemma FirstErrorSnoc(trace: seq<Event>, event: Event, start: nat)
    requires start <= |trace|
    ensures FirstError(trace + [event], start)
         == if FirstError(trace, start) != 0 then FirstError(trace, start) else event.status
  {
    assert (trace + [event])[..|trace|] == trace;
  }

  /** Later events never replace a failure, and otherwise the later part decides. */
  lemma {:induction false} FirstErrorSplit(trace: seq<Event>, longer: seq<Event>, start: nat)
    requires start <= |trace| && trace <= longer
    ensures FirstError(longer, start)
         == if FirstError(trace, start) != 0 then FirstError(trace, start) else FirstError(longer, |trace|)
  {
    if |trace| == |longer| {
      assert trace == longer;
    } else {
      FirstErrorSplit(trace, longer[..|longer| - 1], start);
    }
  }

  class Driver {
    const fault: (nat, Call) -> nat    // status injected into the k-th call
    const pick: nat -> nat             // address or handle offered by the k-th call
    const honoursHint: nat -> bool     // whether the k-th call takes a hinted address
    const granularity: nat
    var gpu: Device
    var trace: seq<Event>

    constructor (fault: (nat, Call) -> nat, pick: nat -> nat, honoursHint: nat -> bool, granularity: nat)
      requires 0 < granularity
      ensures this.fault == fault && this.pick == pick && this.honoursHint == honoursHint
      ensures this.granularity == granularity
      ensures gpu == Gpu(map[], {}, {}, {}) && trace == []
    {
      this.fault, this.pick, this.honoursHint := fault, pick, honoursHint;
      this.granularity := granularity;
      gpu, trace := Gpu(map[], {}, {}, {}), [];
    }

    /** Undoing never fails: whatever is mapped can be unmapped and whatever lives can be released. */
    ghost predicate Tidies() {
      forall k: nat, c: Call {:trigger fault(k, c)} :: c.Unmap? || c.Release? ==> fault(k, c) == 0
    }

    /** Only asking for the granularity, creating, mapping and reserving a new address may fail, and a
        hinted address is taken. */
    ghost predicate Dependable() {
      && (forall k: nat, c: Call {:trigger fault(k, c)} ::
            !c.GetGranularity? && !c.Create? && !c.Map? && !(c.AddressReserve? && c.hint == 0) ==> fault(k, c) == 0)
      && (forall k: nat :: honoursHint(k))
    }

    /** A legal call succeeds unless the oracle injects a failure; a failing call changes nothing. */
    method Issue(c: Call) returns (status: nat, out: nat)
      modifies this
      ensures trace == old(trace) + [Event(c, status, out)]
      ensures status == 0 ==> Legal(old(gpu), c, out)
      ensures status == if Legal(old(gpu), c, out) then fault(|old(trace)|, c) else 1
      ensures gpu == if status == 0 then Effect(old(gpu), c, out) else old(gpu)
      ensures out == if c.AddressReserve? && c.hint != 0 && honoursHint(|old(trace)|) then c.hint
                     else pick(|old(trace)|)
    {
      out := if c.AddressReserve? && c.hint != 0 && honoursHint(|trace|) then c.hint else pick(|trace|);
      status := if Legal(gpu, c, out) then fault(|trace|, c) else 1;
      if status == 0 {
        gpu := Effect(gpu, c, out);
      }
      trace := trace + [Event(c, status, out)];
    }
  }
}
