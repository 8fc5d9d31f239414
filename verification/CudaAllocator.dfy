/** csrc/cumem_allocator.cpp on the CUDA path: one handle per allocation, and no rollback. */
module CudaAllocator {
  import opened GpuDriver

  const CUDA_ERROR_NOT_PERMITTED: nat := 800
  const CUDA_ERROR_NOT_SUPPORTED: nat := 801

  predicate FabricRefused(status: nat) {
    status == CUDA_ERROR_NOT_PERMITTED || status == CUDA_ERROR_NOT_SUPPORTED
  }

  /** The calls `create_and_map` makes from `start` on: a refused fabric handle is asked for once
      more as a file descriptor, and nothing is undone. */
  ghost predicate Script(trace: seq<Event>, start: nat, d: nat, bytes: nat, fabric: bool) {
    && start < |trace| && trace[start].call == Create(bytes)
    && if trace[start].status == 0 then MapScript(trace, start + 1, d, bytes, trace[start].out)
       else if fabric && FabricRefused(trace[start].status) then
         && start + 1 < |trace| && trace[start + 1].call == Create(bytes)
         && if trace[start + 1].status == 0 then MapScript(trace, start + 2, d, bytes, trace[start + 1].out)
            else |trace| == start + 2
       else |trace| == start + 1
  }

  ghost predicate MapScript(trace: seq<Event>, k: nat, d: nat, bytes: nat, handle: nat) {
    && k < |trace| && trace[k].call == Map(d, bytes, handle)
    && if trace[k].status != 0 then |trace| == k + 1
       else |trace| == k + 2 && trace[k + 1].call == SetAccess(d, bytes)
  }

  /** How the driver, as it is, answers a creation that is its `k`-th call. */
  ghost function Answer(driver: Driver, g: Gpu, k: nat, bytes: nat): (status: nat)
    ensures status == 0 <==> 0 < bytes && Unused(g.live, driver.pick(k)) && driver.fault(k, Create(bytes)) == 0
  {
    if Legal(g, Create(bytes), driver.pick(k)) then driver.fault(k, Create(bytes)) else 1
  }

  /** The driver refuses to create the memory, and also without the fabric if that may be tried. */
  ghost predicate RefusesToCreate(driver: Driver, g: Gpu, k: nat, bytes: nat, fabric: bool) {
    var first := Answer(driver, g, k, bytes);
    first != 0 && (fabric && FabricRefused(first) ==> Answer(driver, g, k + 1, bytes) != 0)
  }

  /** How many calls asking for the memory takes. */
  ghost function Attempts(driver: Driver, g: Gpu, k: nat, bytes: nat, fabric: bool): nat {
    if fabric && FabricRefused(Answer(driver, g, k, bytes)) then 2 else 1
  }

  /** The device once the call before the `k`-th has created the memory. */
  ghost function WithMemory(driver: Driver, g: Gpu, k: nat, bytes: nat): Gpu
    requires 0 < k
  {
    g.(live := g.live + {Physical(driver.pick(k - 1), bytes)})
  }

  /** The device with the mapping added, and open to access, if it is. */
  ghost function Opened(g: Gpu, mapping: Mapping, mapped: bool, granted: bool): Gpu {
    g.(mapped := g.mapped + if mapped then {mapping} else {},
       accessible := g.accessible + if granted then {mapping} else {})
  }

  /** That memory can be mapped by the `k`-th call. */
  ghost predicate Mappable(driver: Driver, g: Gpu, k: nat, d: nat, bytes: nat)
    requires 0 < k
  {
    var mapping := Map(d, bytes, driver.pick(k - 1));
    Legal(WithMemory(driver, g, k, bytes), mapping, 0) && driver.fault(k, mapping) == 0
  }

  class Allocator {
    const driver: Driver
    var errorCode: nat
    var handle: nat

    constructor (driver: Driver)
      ensures this.driver == driver && errorCode == 0
    {
      this.driver := driver;
      errorCode, handle := 0, 0;
    }

    method Check(status: nat)
      modifies this`errorCode
      ensures errorCode == if status != 0 then status else old(errorCode)
    {
      if status != 0 {
        errorCode := status;
      }
    }

    /** Asks for memory, and once more without the fabric when that is what was refused. */
    method CreateHandle(bytes: nat, fabric: bool) returns (status: nat)
      modifies this, driver
      ensures old(driver.trace) <= driver.trace && |old(driver.trace)| < |driver.trace| <= |old(driver.trace)| + 2
      ensures forall k :: |old(driver.trace)| <= k < |driver.trace| ==> driver.trace[k].call == Create(bytes)
      ensures status == driver.trace[|driver.trace| - 1].status
      ensures |driver.trace| == |old(driver.trace)|
                                + Attempts(driver, old(driver.gpu), |old(driver.trace)|, bytes, fabric)
      ensures driver.trace[|old(driver.trace)|].status == Answer(driver, old(driver.gpu), |old(driver.trace)|, bytes)
      ensures status != 0 <==> RefusesToCreate(driver, old(driver.gpu), |old(driver.trace)|, bytes, fabric)
      ensures errorCode == if status != 0 then status else old(errorCode)
      ensures status == 0 ==>
                && handle == driver.trace[|driver.trace| - 1].out == driver.pick(|driver.trace| - 1)
                && Unused(old(driver.gpu.live), handle)
      ensures driver.gpu == if status != 0 then old(driver.gpu)
                            else old(driver.gpu).(live := old(driver.gpu.live) + {Physical(handle, bytes)})
    {
      var created;
      status, created := driver.Issue(Create(bytes));
      if status != 0 {
        if fabric && FabricRefused(status) {
          status, created := driver.Issue(Create(bytes));
          Check(status);
        } else {
          Check(status);
        }
      }
      if status == 0 {
        handle := created;
      }
    }

    /** Maps the created memory and opens it to access; a failure undoes nothing. */
    method MapAndGrant(d: nat, bytes: nat)
      requires errorCode == 0 && 0 < bytes
      modifies this`errorCode, driver
      ensures old(driver.trace) <= driver.trace && |old(driver.trace)| < |driver.trace|
      ensures MapScript(driver.trace, |old(driver.trace)|, d, bytes, handle)
      ensures errorCode == driver.trace[|driver.trace| - 1].status
      ensures var k := |old(driver.trace)|;
        var mapped := Legal(old(driver.gpu), Map(d, bytes, handle), 0) && driver.fault(k, Map(d, bytes, handle)) == 0;
        var granted := mapped && driver.fault(k + 1, SetAccess(d, bytes)) == 0;
        && (errorCode == 0 <==> granted)
        && driver.gpu == Opened(old(driver.gpu), Mapping(d, bytes, handle), mapped, granted)
    {
      var status, ignored := driver.Issue(Map(d, bytes, handle));
      Check(status);
      if errorCode != 0 {
        return;
      }
      assert Meeting(driver.gpu.mapped, d, bytes) == {Mapping(d, bytes, handle)};
      status, ignored := driver.Issue(SetAccess(d, bytes));
      Check(status);
    }

    /** The device stays as it was if and only if the driver refuses to create the memory: when mapping
        or granting access fails the created handle is not released. */
    method CreateAndMap(d: nat, bytes: nat, fabric: bool)
      modifies this, driver
      ensures old(driver.trace) <= driver.trace && |old(driver.trace)| < |driver.trace|
      ensures driver.trace[|old(driver.trace)|].status == Answer(driver, old(driver.gpu), |old(driver.trace)|, bytes)
      ensures old(errorCode) == 0 ==>
                && Script(driver.trace, |old(driver.trace)|, d, bytes, fabric)
                && errorCode == driver.trace[|driver.trace| - 1].status
      ensures old(errorCode) != 0 ==>
                errorCode != 0 && forall k :: |old(driver.trace)| <= k < |driver.trace| ==> driver.trace[k].call.Create?
      ensures driver.gpu == old(driver.gpu) <==>
                RefusesToCreate(driver, old(driver.gpu), |old(driver.trace)|, bytes, fabric)
      ensures driver.gpu != old(driver.gpu) ==>
                var k := |old(driver.trace)| + Attempts(driver, old(driver.gpu), |old(driver.trace)|, bytes, fabric);
                var created := WithMemory(driver, old(driver.gpu), k, bytes);
                var mapped := old(errorCode) == 0 && Mappable(driver, old(driver.gpu), k, d, bytes);
                var granted := mapped && driver.fault(k + 1, SetAccess(d, bytes)) == 0;
                && handle == driver.pick(k - 1) && Unused(old(driver.gpu.live), handle)
                && (errorCode == 0 <==> granted)
                && driver.gpu == Opened(created, Mapping(d, bytes, handle), mapped, granted)
    {
      var status := CreateHandle(bytes, fabric);
      assert status == 0 ==> Physical(handle, bytes) in driver.gpu.live && Physical(handle, bytes) !in old(driver.gpu.live);
      if errorCode != 0 {
        return;
      }
      MapAndGrant(d, bytes);
    }

    /** A failed unmap keeps the handle: it is released only when nothing has failed before. */
    method UnmapAndRelease(d: nat, bytes: nat)
      modifies this`errorCode, driver
      ensures var start := |old(driver.trace)|;
        && old(driver.trace) <= driver.trace
        && start < |driver.trace| && driver.trace[start].call == Unmap(d, bytes)
        && if old(errorCode) != 0 || driver.trace[start].status != 0
           then |driver.trace| == start + 1 && driver.gpu.live == old(driver.gpu.live)
           else |driver.trace| == start + 2 && driver.trace[start + 1].call == Release(handle)
      ensures old(errorCode) == 0 ==> errorCode == driver.trace[|driver.trace| - 1].status
      ensures old(errorCode) != 0 ==> errorCode != 0
      ensures driver.gpu.reserved == old(driver.gpu.reserved)
      ensures old(errorCode) == 0 && driver.Tidies() && Physical(handle, bytes) in old(driver.gpu.live)
           && Mapping(d, bytes, handle) in old(driver.gpu.mapped)
          ==> errorCode == 0
      ensures errorCode == 0 ==> Mapping(d, bytes, handle) !in driver.gpu.mapped && Unused(driver.gpu.live, handle)
    {
      var status, ignored := driver.Issue(Unmap(d, bytes));
      Check(status);
      if errorCode != 0 {
        return;
      }
      status, ignored := driver.Issue(Release(handle));
      Check(status);
    }
  }

  /** A driver on which nothing but mapping fails: the created memory stays behind. */
  method MappingFailureLeaks() returns (allocator: Allocator)
    ensures fresh(allocator) && allocator.errorCode != 0
    ensures allocator.driver.gpu.mapped == {} && allocator.driver.gpu.live == {Physical(allocator.handle, 2)}
  {
    var driver := new Driver((k: nat, c: Call) => if c.Map? then 2 else 0, k => k + 4, k => true, 2);
    allocator := new Allocator(driver);
    allocator.CreateAndMap(4, 2, false);
    assert !Mappable(driver, Gpu(map[], {}, {}, {}), 1, 4, 2);
  }
}
