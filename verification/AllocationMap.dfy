/** The map from SSA registers to virtual registers: three growing arrays, and the plain partial
    map they stand for. */
module AllocationMaps {

  const INVALID_INDEX: nat := 0xFFFF_FFFF_FFFF_FFFF

  datatype AllocationClass = Locked | HotTemporary | HotAllocation | Temporary | Allocation | ColdAllocation

  datatype Descriptor = Descriptor(width: nat, class_: AllocationClass)

  /** What the arrays stand for: the SSA registers in use, each with its virtual register, and the
      descriptor of every virtual register ever handed out. */
  datatype Allocations = Allocations(live: map<nat, nat>, descriptors: seq<Descriptor>)
  {
    function Emplace(ssa: nat, width: nat, class_: AllocationClass): Allocations {
      Allocations(live[ssa := |descriptors|], descriptors + [Descriptor(width, class_)])
    }

    function Release(ssa: nat): Allocations {
      Allocations(live - {ssa}, descriptors)
    }
  }

  const NO_ALLOCATIONS := Allocations(map[], [])

  // ----- any run of allocations and releases -----

  datatype Request = EmplaceRequest(ssa: nat, width: nat, class_: AllocationClass) | ReleaseRequest(ssa: nat)

  function After(requests: seq<Request>): Allocations {
    if requests == [] then NO_ALLOCATIONS
    else
      var before := After(requests[..|requests| - 1]);
      match requests[|requests| - 1]
      case EmplaceRequest(ssa, width, class_) => before.Emplace(ssa, width, class_)
      case ReleaseRequest(ssa) => before.Release(ssa)
  }

  /** An SSA register is allocated only while it is not in use. */
  ghost predicate Legal(requests: seq<Request>) {
    forall i :: 0 <= i < |requests| && requests[i].EmplaceRequest? ==> requests[i].ssa !in After(requests[..i]).live
  }

  /** The virtual register a request hands out. */
  function Handed(requests: seq<Request>, i: nat): nat
    requires i < |requests|
  {
    |After(requests[..i]).descriptors|
  }

  lemma {:induction false} DescriptorsGrow(requests: seq<Request>, i: nat)
    requires i <= |requests|
    ensures After(requests[..i]).descriptors <= After(requests).descriptors
    decreases |requests|
  {
    if i < |requests| {
      var shorter := requests[..|requests| - 1];
      assert shorter[..i] == requests[..i];
      DescriptorsGrow(shorter, i);
    } else {
      assert requests[..i] == requests;
    }
  }

  /** No virtual register is handed out twice, and its descriptor never changes afterwards. */
  lemma VirtualNeverReused(requests: seq<Request>, i: nat, j: nat)
    requires i < j < |requests| && requests[i].EmplaceRequest?
    ensures Handed(requests, i) < Handed(requests, j)
    ensures Handed(requests, i) < |After(requests).descriptors|
    ensures After(requests).descriptors[Handed(requests, i)]
         == Descriptor(requests[i].width, requests[i].class_)
  {
    var upTo := requests[..i + 1];
    assert upTo[..|upTo| - 1] == requests[..i];
    assert requests[..j][..i + 1] == upTo;
    DescriptorsGrow(requests[..j], i + 1);
    DescriptorsGrow(requests, i + 1);
  }

  ghost predicate Injective(m: map<nat, nat>) {
    forall r, s :: r in m && s in m && m[r] == m[s] ==> r == s
  }

  /** In every run, two registers in use have different virtual registers. */
  lemma {:induction false} LiveIsInjective(requests: seq<Request>)
    requires Legal(requests)
    ensures forall r :: r in After(requests).live ==> After(requests).live[r] < |After(requests).descriptors|
    ensures Injective(After(requests).live)
    decreases |requests|
  {
    if requests != [] {
      var shorter := requests[..|requests| - 1];
      forall i | 0 <= i < |shorter| ensures shorter[..i] == requests[..i] {}
      LiveIsInjective(shorter);
    }
  }

  /** A register in use has the virtual register handed out by the last request that names it. */
  lemma {:induction false} LiveIsLastHanded(requests: seq<Request>, ssa: nat) returns (i: nat)
    requires ssa in After(requests).live
    ensures i < |requests| && LastAllocates(requests, i, ssa)
    ensures After(requests).live[ssa] == Handed(requests, i)
    decreases |requests|
  {
    var n := |requests| - 1;
    if requests[n].ssa == ssa {
      i := n;
    } else {
      i := LiveIsLastHanded(requests[..n], ssa);
      assert requests[..n][..i] == requests[..i];
    }
  }

  ghost predicate LastAllocates(requests: seq<Request>, i: nat, ssa: nat)
    requires i < |requests|
  {
    requests[i].EmplaceRequest? && requests[i].ssa == ssa
    && forall k :: i < k < |requests| ==> requests[k].ssa != ssa
  }

  // ----- the arrays -----

  /** The registers of a window that have a virtual register. */
  ghost function LiveIn(window: seq<nat>): map<nat, nat> {
    map r: nat | r < |window| && window[r] != INVALID_INDEX :: window[r]
  }

  lemma LiveInGrown(window: seq<nat>, grown: seq<nat>, r: nat, v: nat)
    requires window <= grown && r < |grown| && v != INVALID_INDEX
    requires forall k :: |window| <= k < |grown| ==> grown[k] == INVALID_INDEX
    ensures LiveIn(grown[r := v]) == LiveIn(window)[r := v]
  {
    assert LiveIn(grown[r := v]).Keys == LiveIn(window).Keys + {r};
  }

  class AllocationMap {
    var descriptorArrayWindow: seq<nat>
    var descriptorArray: seq<Descriptor>
    var ssaByVirtual: seq<nat>

    /** The two index arrays are mutually inverse partial maps. */
    ghost predicate Valid()
      reads this
    {
      && |ssaByVirtual| == |descriptorArray| <= INVALID_INDEX
      && |descriptorArrayWindow| <= INVALID_INDEX
      && (forall r :: 0 <= r < |descriptorArrayWindow| && descriptorArrayWindow[r] != INVALID_INDEX ==>
            descriptorArrayWindow[r] < |ssaByVirtual| && ssaByVirtual[descriptorArrayWindow[r]] == r)
      && (forall v :: 0 <= v < |ssaByVirtual| && ssaByVirtual[v] != INVALID_INDEX ==>
            ssaByVirtual[v] < |descriptorArrayWindow| && descriptorArrayWindow[ssaByVirtual[v]] == v)
    }

    ghost function View(): Allocations
      reads this
    {
      Allocations(LiveIn(descriptorArrayWindow), descriptorArray)
    }

    constructor ()
      ensures Valid() && View() == NO_ALLOCATIONS
    {
      descriptorArrayWindow := [];
      descriptorArray := [];
      ssaByVirtual := [];
    }

    /** Demands, as an assertion there does, that the register is not in use, and room for one more
        index below the invalid one. */
    method EmplaceAllocate(ssaIndex: nat, width: nat, class_: AllocationClass) returns (virtualIndex: nat)
      requires Valid() && ssaIndex !in View().live
      requires ssaIndex < INVALID_INDEX && |View().descriptors| < INVALID_INDEX
      modifies this
      ensures Valid() && View() == old(View()).Emplace(ssaIndex, width, class_)
      ensures virtualIndex == |old(View()).descriptors|
      ensures |descriptorArrayWindow| >= old(|descriptorArrayWindow|)
    {
      virtualIndex := |descriptorArray|;
      descriptorArray := descriptorArray + [Descriptor(width, class_)];
      ssaByVirtual := ssaByVirtual + [INVALID_INDEX];
      if ssaIndex >= |descriptorArrayWindow| {
        descriptorArrayWindow :=
          descriptorArrayWindow + seq(ssaIndex + 1 - |descriptorArrayWindow|, _ => INVALID_INDEX);
      }
      LiveInGrown(old(descriptorArrayWindow), descriptorArrayWindow, ssaIndex, virtualIndex);
      descriptorArrayWindow := descriptorArrayWindow[ssaIndex := virtualIndex];
      ssaByVirtual := ssaByVirtual[virtualIndex := ssaIndex];
    }

    method FindVirtualBySSA(ssaIndex: nat) returns (found: bool, virtualIndex: nat)
      requires Valid()
      ensures found <==> ssaIndex in View().live
      ensures found ==> virtualIndex == View().live[ssaIndex]
    {
      if ssaIndex >= |descriptorArrayWindow| {
        return false, 0;
      }
      virtualIndex := descriptorArrayWindow[ssaIndex];
      found := virtualIndex != INVALID_INDEX;
    }

    method FindSSAByVirtual(virtualIndex: nat) returns (found: bool, ssaIndex: nat)
      requires Valid()
      ensures found <==> virtualIndex in View().live.Values
      ensures found ==> ssaIndex in View().live && View().live[ssaIndex] == virtualIndex
    {
      if virtualIndex >= |ssaByVirtual| || ssaByVirtual[virtualIndex] == INVALID_INDEX {
        assert forall r :: r in View().live ==> View().live[r] != virtualIndex;
        return false, 0;
      }
      found, ssaIndex := true, ssaByVirtual[virtualIndex];
      assert ssaIndex in View().live;
    }

    method GetDescriptorFromVirtual(virtualIndex: nat) returns (found: bool, descriptor: Descriptor)
      requires Valid()
      ensures found <==> virtualIndex in View().live.Values
      ensures found ==> virtualIndex < |View().descriptors| && descriptor == View().descriptors[virtualIndex]
    {
      var ssaIndex;
      found, ssaIndex := FindSSAByVirtual(virtualIndex);
      descriptor := if found then descriptorArray[virtualIndex] else Descriptor(0, Temporary);
    }

    method GetDescriptorFromSSA(ssaIndex: nat) returns (found: bool, descriptor: Descriptor)
      requires Valid()
      ensures found <==> ssaIndex in View().live
      ensures found ==> View().live[ssaIndex] < |View().descriptors|
                        && descriptor == View().descriptors[View().live[ssaIndex]]
    {
      var virtualIndex;
      found, virtualIndex := FindVirtualBySSA(ssaIndex);
      descriptor := if found then descriptorArray[virtualIndex] else Descriptor(0, Temporary);
    }

    /** Demands that the window reaches the register. */
    method ReleaseSSA(ssaIndex: nat)
      requires Valid() && ssaIndex < |descriptorArrayWindow|
      modifies this
      ensures Valid() && View() == old(View()).Release(ssaIndex)
      ensures |descriptorArrayWindow| == old(|descriptorArrayWindow|)
    {
      var virtualIndex := descriptorArrayWindow[ssaIndex];
      descriptorArrayWindow := descriptorArrayWindow[ssaIndex := INVALID_INDEX];
      if virtualIndex != INVALID_INDEX {
        ssaByVirtual := ssaByVirtual[virtualIndex := INVALID_INDEX];
      }
      assert View().live == old(View()).live - {ssaIndex};
    }
  }
}
