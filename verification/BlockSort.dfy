// BZ2_blockSort: the main sort, or the fallback sort when the block is short or too repetitive.
module BlockSort {
  import opened Common
  import opened Rotations
  import opened MainCompare
  import opened MainProgress
  import opened FallbackSorting
  import opened MainSorting

  // The arrays of the source overlap: eclass lies over block, bhtab over ftab. Here they are apart.
  method FindOrigin(ptr: array<int>, n: nat, ghost b: seq<Byte>) returns (origPtr: int)
    requires n <= ptr.Length && SortedRotations(b, ptr[..n])
    ensures 0 <= origPtr < n && ptr[origPtr] == 0
  {
    PermSurjective(ptr[..n], 0);
    ghost var x :| 0 <= x < n && ptr[..n][x] == 0;
    origPtr := -1;
    for i := 0 to n
      invariant origPtr == -1 && i <= x
    {
      if ptr[i] == 0 {
        origPtr := i;
        break;
      }
    }
    assert origPtr != -1;
  }

  method BlockSort(ptr: array<int>, eclass: array<int>, block: array<Byte>, quadrant: array<int>, ftab: array<int>,
                   bhtab: array<nat>, n: nat, workFactor: int) returns (origPtr: int)
    requires 0 < n < SETMASK && n <= ptr.Length && n <= eclass.Length && 65537 <= ftab.Length
    requires n / 32 + 3 <= bhtab.Length
    requires n + BZ_N_OVERSHOOT <= block.Length && n + BZ_N_OVERSHOOT <= quadrant.Length
    requires ptr != eclass && ptr != quadrant && ptr != ftab && eclass != quadrant && eclass != ftab && quadrant != ftab
    requires bhtab as object != ptr && bhtab as object != eclass && bhtab as object != quadrant
    requires bhtab as object != ftab
    requires block as object != ptr && block as object != eclass && block as object != quadrant
    requires block as object != ftab
    requires block as object != bhtab
    modifies ptr, eclass, block, quadrant, ftab, bhtab
    ensures block[..n] == old(block[..n])
    ensures SortedRotations(block[..n], ptr[..n])
    ensures 0 <= origPtr < n && ptr[origPtr] == 0
  {
    ghost var b := block[..n];
    if n < 10000 {
      FallbackSort(ptr, eclass, bhtab, block, n);
    } else {
      var wfact := if workFactor < 1 then 1 else if workFactor > 100 then 100 else workFactor;
      var budget := n * ((wfact - 1) / 3);
      budget := MainSort(ptr, block, quadrant, ftab, n, budget);
      if budget < 0 {
        FallbackSort(ptr, eclass, bhtab, block, n);
      }
    }
    origPtr := FindOrigin(ptr, n, b);
  }
}
