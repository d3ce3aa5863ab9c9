/** What the guest memory invariant means for addresses: the page walk, and the monitor's own
    translation km_gva_to_kma (km/km_mem.h). */
module Translation {
  import opened Wrappers
  import opened Geometry
  import opened PageTables
  import opened PageTableProofs
  import opened GuestMemory

  /** One allocated region holds the physical address and the host address, at the same distance from its
      start: the byte the guest reaches at `pa` is the one the monitor reaches at `kma`. */
  predicate Backed(c: Layout, regs: seq<MemReg>, pa: nat, kma: nat)
    requires c.Supported()
  {
    exists i :: 1 <= i < c.Last() && i < |regs| && regs[i].Allocated() &&
                regs[i].guestPhysAddr <= pa < regs[i].guestPhysAddr + regs[i].memorySize &&
                regs[i].userspaceAddr <= kma < regs[i].userspaceAddr + regs[i].memorySize &&
                kma - regs[i].userspaceAddr == pa - regs[i].guestPhysAddr
  }

  /** Size of the page that covers a bottom-zone address. */
  function Granule(gva: nat): nat {
    if gva < GIB then 2 * MIB else GIB
  }

  /** Bottom-zone addresses; when the zones coincide, only those below the unit of the top break. */
  predicate InBottom(c: Layout, tp: nat, gva: nat)
    requires c.Supported()
  {
    START <= gva < c.MaxMem() && (c.VaOffset() == 0 ==> gva / GIB < tp / GIB)
  }

  lemma SameUnit(tp: nat, pa: nat)
    requires RoundDown(tp, 2 * MIB) <= pa
    ensures tp / GIB <= pa / GIB
  {
    var q := tp / GIB;
    assert q * 512 <= tp / (2 * MIB);
    assert q * GIB <= pa;
  }

  lemma TopEnd(c: Layout)
    requires c.Supported()
    ensures c.TopVa() == c.VaOffset() + c.MaxMem() - START < 256 * 512 * GIB
  {
  }

  // ---- the walk, slot by slot -----------------------------------------------------------------

  /** Every present leaf reached through 1GB slot `s` of the first table, bottom part. */
  lemma WalkBottom(z: Zones, t: Tables, end: nat, brk: nat, tp: nat, gva: nat)
    requires z.Ok() && t.WellFormed() && gva < 512 * GIB && (!z.high ==> gva / GIB < tp / GIB + z.Shift())
    requires Roots(z, t) && Present(z, t, brk, tp, brk, tp) && BottomFrames(t, end) && START <= brk <= end
    ensures Walk(t, gva) == if START <= gva && RoundDown(gva, Granule(gva)) < brk then Some(gva) else None
  {
    SplitAddress(gva, gva / GIB, gva % GIB);
  }

  /** The same for the top part: slot and page of a physical address in the top zone. */
  lemma WalkTop1G(c: Layout, z: Zones, t: Tables, from: nat, brk: nat, tp: nat, pa: nat)
    requires c.Supported() && z == ZonesOf(c) && t.WellFormed() && tp / GIB <= pa / GIB < z.gbs - 1
    requires Roots(z, t) && Present(z, t, brk, tp, brk, tp) && TopFrames(z, t, from)
    requires from % GIB == 0 && from <= tp && GIB <= tp
    ensures Walk(t, pa + c.VaOffset()) == Some(pa)
  {
    hide ZonesOf, Layout.VaOffset, Layout.MaxMem;
    TopSlots(c, pa);
    assert Top1G(z, pa / GIB + z.Shift(), tp);
  }

  lemma PageBack(q: nat, pa: nat)
    requires q * GIB <= pa
    ensures var i := (pa - q * GIB) / (2 * MIB);
            (q * GIB + i * (2 * MIB)) / (2 * MIB) * (2 * MIB) + pa % (2 * MIB) == pa
  {
    var r := pa - q * GIB;
    var i := r / (2 * MIB);
    assert q * GIB + i * (2 * MIB) == (q * 512 + i) * (2 * MIB);
    Units2M(q * 512 + i, 0);
    Units2M(q * 512 + i, r % (2 * MIB));
    assert pa == (q * 512 + i) * (2 * MIB) + r % (2 * MIB);
  }

  lemma WalkTop2M(c: Layout, z: Zones, t: Tables, from: nat, brk: nat, tp: nat, pa: nat)
    requires c.Supported() && z == ZonesOf(c) && t.WellFormed() && (z.gbs - 1) * GIB <= pa < z.gbs * GIB - START
    requires Roots(z, t) && Present(z, t, brk, tp, brk, tp) && TopFrames(z, t, from) && GIB <= tp
    ensures var i := (pa - (z.gbs - 1) * GIB) / (2 * MIB);
            0 <= i < 511 && Walk(t, pa + c.VaOffset()) == (if t.pd2[i].p then Some(pa) else None) &&
            (t.pd2[i].p ==> from <= pa)
  {
    hide ZonesOf, Layout.VaOffset, Layout.MaxMem;
    TopSlots(c, pa);
    var q := z.gbs - 1;
    SplitAddress(pa, q, pa - q * GIB);
    PageBack(q, pa);
    var i := (pa - q * GIB) / (2 * MIB);
    assert t.pd2[i] == t.pd2[PdeSlot(pa)];
  }

  lemma TopMeets(z: Zones, t: Tables, brk: nat, tp: nat, pa: nat)
    requires z.Ok() && t.WellFormed() && (z.gbs - 1) * GIB <= pa < z.gbs * GIB - START && RoundDown(tp, 2 * MIB) <= pa
    requires Present(z, t, brk, tp, brk, tp)
    ensures var i := (pa - (z.gbs - 1) * GIB) / (2 * MIB); 0 <= i < 511 && t.pd2[i].p
  {
    var i := (pa - (z.gbs - 1) * GIB) / (2 * MIB);
    Reached(z.gbs - 1, i, tp);
    assert Top2M(z, i, tp);
  }

  // ---- regions behind the walk ------------------------------------------------------------------

  /** The ends of the mapped ranges are aligned to the pages that cover them. */
  lemma BreakGrain(c: Layout, brk: nat, tp: nat)
    requires c.Supported() && Breaks(ZonesOf(c), brk, tp)
    ensures 0 <= c.RegionIdx(brk - 1) <= c.RegionIdx(tp) <= c.Last()
    ensures brk <= c.Top(c.RegionIdx(brk - 1)) <= c.MaxMem() - GIB && c.Base(c.RegionIdx(tp)) <= tp
    ensures c.Top(c.RegionIdx(brk - 1)) % (2 * MIB) == 0
    ensures GIB < brk ==> c.Top(c.RegionIdx(brk - 1)) % GIB == 0
    ensures tp / GIB < ZonesOf(c).gbs - 1 ==> c.Base(c.RegionIdx(tp)) % GIB == 0
  {
    hide Layout.Top, Layout.Base;
    Shape(c);
    BreakRegions(c, brk, tp);
    if brk == START {
      RegionEnds(c);
      RegionsTile(c, 1);
    } else {
      RegionHolds(c, brk - 1);
      RegionGrain(c, c.RegionIdx(brk - 1));
      RegionGrained(c, c.RegionIdx(brk - 1));
    }
    if tp / GIB < ZonesOf(c).gbs - 1 {
      RegionHolds(c, tp);
      RegionGrain(c, c.RegionIdx(tp));
      RegionGrained(c, c.RegionIdx(tp));
    }
  }

  lemma BackedIn(c: Layout, regs: seq<MemReg>, bi: int, ti: int, pa: nat)
    requires c.Supported() && Slots(c, regs, bi, ti) && 0 <= bi <= ti <= c.Last()
    requires START <= pa < c.MaxMem() - START && (pa < c.Top(bi) || c.Base(ti) <= pa)
    ensures Backed(c, regs, pa, c.userBase + pa)
  {
    hide Layout.Top, Layout.Base, Layout.RegionIdx;
    RegionHolds(c, pa);
    var i := c.RegionIdx(pa);
    RegionsTile(c, i);
    if i <= bi || ti <= i {
      assert regs[i] == Plugged(c, i);
    } else {
      BottomBelow(c, bi, i);
      TopBelow(c, i, ti);
    }
  }

  // ---- the theorems -------------------------------------------------------------------------------

  /** Below the top break, a bottom-zone address translates, and to itself, exactly when its page
      meets [2MB, brk). */
  lemma BottomWalk(c: Layout, t: Tables, regs: seq<MemReg>, brk: nat, tp: nat, gva: nat)
    requires c.Supported() && t.WellFormed() && Inv(c, t, regs, brk, tp) && InBottom(c, tp, gva)
    ensures gva < 512 * GIB
    ensures Walk(t, gva) == if RoundDown(gva, Granule(gva)) < brk then Some(gva) else None
  {
    hide Walk, Present, TopFrames, BottomFrames, Slots, Layout.Base, Layout.Top, Layout.Size, Layout.RegionIdx,
         Layout.Last;
    Shape(c);
    BreakRegions(c, brk, tp);
    WalkBottom(ZonesOf(c), t, c.Top(c.RegionIdx(brk - 1)), brk, tp, gva);
  }

  /** From the 2MB page of the top break up, a top-zone address translates to its physical address. */
  lemma TopWalk(c: Layout, t: Tables, regs: seq<MemReg>, brk: nat, tp: nat, gva: nat)
    requires c.Supported() && t.WellFormed() && Inv(c, t, regs, brk, tp)
    requires RoundDown(tp, 2 * MIB) + c.VaOffset() <= gva < c.TopVa()
    ensures gva < 256 * 512 * GIB && Walk(t, gva) == Some(gva - c.VaOffset())
  {
    hide Walk, Present, TopFrames, BottomFrames, Slots, Roots, ZonesOf, Layout.Base, Layout.Top, Layout.Size,
         Layout.RegionIdx, Layout.Last, Layout.MaxMem, Layout.VaOffset;
    Shape(c);
    TopEnd(c);
    BreakGrain(c, brk, tp);
    var z, pa, from := ZonesOf(c), gva - c.VaOffset(), c.Base(c.RegionIdx(tp));
    SameUnit(tp, pa);
    if pa / GIB < z.gbs - 1 {
      WalkTop1G(c, z, t, from, brk, tp, pa);
    } else {
      WalkTop2M(c, z, t, from, brk, tp, pa);
      TopMeets(z, t, brk, tp, pa);
    }
  }

  /** The 512GB window that holds the vdso and the km_guest pages. */
  predicate InPrivate(gva: nat) {
    512 * GIB <= gva < 1024 * GIB
  }

  /** Between the private window and the unit of the top break nothing is mapped. */
  lemma WalkGap(c: Layout, z: Zones, t: Tables, brk: nat, tp: nat, gva: nat)
    requires c.Supported() && z == ZonesOf(c) && t.WellFormed() && 1024 * GIB <= gva < 256 * 512 * GIB
    requires c.high ==> gva < tp / GIB * GIB + c.VaOffset()
    requires Roots(z, t) && Present(z, t, brk, tp, brk, tp)
    ensures Walk(t, gva) == None
  {
    TopOffset(c);
    SplitAddress(gva, gva / GIB, gva % GIB);
  }

  lemma PageInside(gva: nat, brk: nat, end: nat)
    requires RoundDown(gva, Granule(gva)) < brk <= end && end % (2 * MIB) == 0 && (GIB < brk ==> end % GIB == 0)
    ensures gva < end
  {
    if gva >= GIB {
      assert end == end / GIB * GIB;
    } else {
      assert end == end / (2 * MIB) * (2 * MIB);
    }
  }

  lemma BottomSound(c: Layout, t: Tables, regs: seq<MemReg>, brk: nat, tp: nat, gva: nat)
    requires c.Supported() && t.WellFormed() && Inv(c, t, regs, brk, tp)
    requires gva < 512 * GIB && (!c.high ==> gva < tp / GIB * GIB + c.VaOffset())
    ensures Walk(t, gva).Some? ==>
              Walk(t, gva).value == c.GvaToGpa(gva) && Backed(c, regs, Walk(t, gva).value, c.userBase + c.GvaToGpa(gva))
  {
    hide Walk, Present, TopFrames, BottomFrames, Slots, Roots, Backed, Layout.Base, Layout.Top, Layout.Size,
         Layout.RegionIdx, Layout.Last, Layout.VaOffset;
    Shape(c);
    TopOffset(c);
    BreakGrain(c, brk, tp);
    var end := c.Top(c.RegionIdx(brk - 1));
    WalkBottom(ZonesOf(c), t, end, brk, tp, gva);
    if START <= gva && RoundDown(gva, Granule(gva)) < brk {
      PageInside(gva, brk, end);
      BackedIn(c, regs, c.RegionIdx(brk - 1), c.RegionIdx(tp), gva);
    }
  }

  lemma TopSound(c: Layout, t: Tables, regs: seq<MemReg>, brk: nat, tp: nat, gva: nat)
    requires c.Supported() && t.WellFormed() && Inv(c, t, regs, brk, tp)
    requires tp / GIB * GIB + c.VaOffset() <= gva < c.TopVa()
    ensures gva < 256 * 512 * GIB
    ensures Walk(t, gva).Some? ==>
              Walk(t, gva).value == c.GvaToGpa(gva) && Backed(c, regs, Walk(t, gva).value, c.userBase + c.GvaToGpa(gva))
  {
    hide Walk, Present, TopFrames, BottomFrames, Slots, Roots, Backed, ZonesOf, Layout.Base, Layout.Top, Layout.Size,
         Layout.RegionIdx, Layout.Last, Layout.MaxMem, Layout.VaOffset;
    Shape(c);
    TopEnd(c);
    BreakGrain(c, brk, tp);
    var z, pa, from := ZonesOf(c), gva - c.VaOffset(), c.Base(c.RegionIdx(tp));
    if pa / GIB < z.gbs - 1 {
      WalkTop1G(c, z, t, from, brk, tp, pa);
    } else {
      WalkTop2M(c, z, t, from, brk, tp, pa);
    }
    if from <= pa {
      BackedIn(c, regs, c.RegionIdx(brk - 1), c.RegionIdx(tp), pa);
    }
  }

  /** Whatever the processor can reach, outside the private window and the hidden last 2MB, is
      memory of an allocated region at the address the monitor computes for it. */
  lemma WalkSound(c: Layout, t: Tables, regs: seq<MemReg>, brk: nat, tp: nat, gva: nat)
    requires c.Supported() && t.WellFormed() && Inv(c, t, regs, brk, tp)
    requires gva < 256 * 512 * GIB && !InPrivate(gva) && !(c.TopVa() <= gva < c.TopVa() + START)
    ensures Walk(t, gva).Some? ==>
              Walk(t, gva).value == c.GvaToGpa(gva) && Backed(c, regs, Walk(t, gva).value, c.userBase + c.GvaToGpa(gva))
  {
    hide Walk, Present, TopFrames, BottomFrames, Mapped, Backed, Layout.RegionIdx;
    Shape(c);
    TopOffset(c);
    if tp / GIB * GIB + c.VaOffset() <= gva < c.TopVa() {
      TopSound(c, t, regs, brk, tp, gva);
    } else if gva < 512 * GIB {
      BottomSound(c, t, regs, brk, tp, gva);
    } else {
      WalkGap(c, ZonesOf(c), t, brk, tp, gva);
    }
  }

  // ---- km_gva_to_kma ------------------------------------------------------------------------------

  /** Sizes and host addresses of the vdso and km_guest areas. */
  datatype Windows = Windows(vdsoSize: nat, vdsoAddr: nat, guestSize: nat, guestAddr: nat)

  const VDSO_VA: nat := 512 * GIB
  const KMGUEST_VA: nat := 512 * GIB + 0x8000

  predicate InVdso(w: Windows, gva: nat) {
    VDSO_VA <= gva < VDSO_VA + w.vdsoSize
  }

  predicate InGuest(w: Windows, gva: nat) {
    KMGUEST_VA <= gva < KMGUEST_VA + w.guestSize
  }

  function GvaToKmaNocheck(c: Layout, w: Windows, gva: nat): nat
    requires c.Supported()
  {
    if InVdso(w, gva) then w.vdsoAddr + (gva - VDSO_VA)
    else if InGuest(w, gva) then w.guestAddr + (gva - KMGUEST_VA)
    else c.userBase + c.GvaToGpa(gva)
  }

  function GvaToKma(c: Layout, w: Windows, brk: nat, tbrk: nat, gva: nat): Option<nat>
    requires c.Supported()
  {
    if gva < START || gva >= c.TopVa() ||
       (RoundUp(brk, PAGE) <= gva < RoundDown(tbrk, PAGE) && !InVdso(w, gva) && !InGuest(w, gva)) then None
    else Some(GvaToKmaNocheck(c, w, gva))
  }

  lemma PageOfBrk(gva: nat, brk: nat)
    requires gva < RoundUp(brk, PAGE) && brk > 0
    ensures RoundDown(gva, Granule(gva)) < brk && gva / GIB <= brk / GIB
  {
    var k := if gva < GIB then gva / (2 * MIB) * 512 else gva / GIB * 262144;
    assert RoundDown(gva, Granule(gva)) == k * PAGE <= gva;
    PageBelow(k, brk);
    assert gva < GIB ==> gva / GIB == 0;
    hide RoundUp, RoundDown;
  }

  /** A page that starts below the rounded break starts below the break. */
  lemma PageBelow(k: nat, brk: nat)
    requires k * PAGE < RoundUp(brk, PAGE) && brk > 0
    ensures k * PAGE < brk
  {
    assert k <= (brk - 1) / PAGE;
  }

  lemma InPage(k: nat, r: nat)
    requires r < PAGE
    ensures (k * PAGE + r) / PAGE == k
  {
  }

  lemma PageOfTbrk(tp: nat, off: nat, gva: nat)
    requires off % GIB == 0 && RoundDown(tp + off, PAGE) <= gva
    ensures RoundDown(tp, 2 * MIB) + off <= gva
  {
    var q, s, r := off / GIB, tp / PAGE, tp % PAGE;
    assert off == q * 262144 * PAGE && tp + off == (s + q * 262144) * PAGE + r;
    assert (tp + off) / PAGE == s + q * 262144 by {
      InPage(s + q * 262144, r);
    }
    assert s == tp / (2 * MIB) * 512 + tp % (2 * MIB) / PAGE by {
      InPage(tp / (2 * MIB) * 512 + tp % (2 * MIB) / PAGE, tp % (2 * MIB) % PAGE);
    }
  }

  /** The monitor's page-rounded check is safe: an address it accepts, outside the two windows, is one the
      processor translates too, into the memory the monitor finds at the host address it computes; and it
      accepts every address of [2MB, brk) and of [tbrk, top). */
  lemma KmaSafe(c: Layout, w: Windows, t: Tables, regs: seq<MemReg>, brk: nat, tp: nat, gva: nat)
    requires c.Supported() && t.WellFormed() && Inv(c, t, regs, brk, tp)
    requires !(VDSO_VA <= gva < VDSO_VA + w.vdsoSize) && !(KMGUEST_VA <= gva < KMGUEST_VA + w.guestSize)
    ensures var kma := GvaToKma(c, w, brk, tp + c.VaOffset(), gva);
            kma.Some? ==> gva < 256 * 512 * GIB && Walk(t, gva).Some? && Backed(c, regs, Walk(t, gva).value, kma.value)
    ensures START <= gva < brk || tp + c.VaOffset() <= gva < c.TopVa() ==>
            GvaToKma(c, w, brk, tp + c.VaOffset(), gva).Some?
  {
    hide Walk, Present, TopFrames, BottomFrames, Mapped, Backed, Layout.RegionIdx, Layout.MaxMem, Layout.VaOffset,
         Layout.TopVa, ZonesOf;
    Shape(c);
    TopEnd(c);
    TopOffset(c);
    if START <= gva < c.TopVa() {
      if gva < RoundUp(brk, PAGE) {
        PageOfBrk(gva, brk);
        BottomWalk(c, t, regs, brk, tp, gva);
        BottomSound(c, t, regs, brk, tp, gva);
      } else if RoundDown(tp + c.VaOffset(), PAGE) <= gva {
        PageOfTbrk(tp, c.VaOffset(), gva);
        TopWalk(c, t, regs, brk, tp, gva);
        SameUnit(tp, gva - c.VaOffset());
        TopSound(c, t, regs, brk, tp, gva);
      }
    }
  }

  /** Addresses of the two windows: the check accepts them exactly when they lie below the top zone's end,
      and then each at its place in its own area; so in the low position it accepts none. */
  lemma KmaWindows(c: Layout, w: Windows, brk: nat, tbrk: nat, gva: nat)
    requires c.Supported() && (VDSO_VA <= gva < VDSO_VA + w.vdsoSize || KMGUEST_VA <= gva < KMGUEST_VA + w.guestSize)
    ensures var kma := GvaToKma(c, w, brk, tbrk, gva);
            && (kma.Some? <==> gva < c.TopVa()) && (!c.high ==> kma == None)
            && (kma.Some? && gva - VDSO_VA < w.vdsoSize ==>
                  w.vdsoAddr <= kma.value < w.vdsoAddr + w.vdsoSize && kma.value - w.vdsoAddr == gva - VDSO_VA)
            && (kma.Some? && gva - VDSO_VA >= w.vdsoSize ==>
                  w.guestAddr <= kma.value < w.guestAddr + w.guestSize && kma.value - w.guestAddr == gva - KMGUEST_VA)
  {
    hide Layout.GvaToGpa, RoundUp, RoundDown;
  }
}
