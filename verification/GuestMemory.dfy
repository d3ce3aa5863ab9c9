/** The guest memory manager: km_mem_brk, km_mem_tbrk and what they maintain (km/km_mem.c). */
module GuestMemory {
  import opened Geometry
  import opened PageTables
  import opened PageTableProofs
  import PageTableLoops

  /** What the two break calls return: the break, or -ENOMEM. */
  datatype Answer = Moved(addr: nat) | NoMemory

  const KM_MEM_SLOTS: nat := 43

  /** An allocated region: the host address that km_guest_page_malloc insists on, base and size. */
  function Plugged(c: Layout, i: int): MemReg
    requires c.Supported() && 0 <= i <= c.Last()
  {
    MemReg(c.userBase + c.Base(i), c.Base(i), c.Size(i))
  }

  /** Region i is allocated, at its place and size, exactly when the bottom zone (up to region
      `bi`) or the top zone (from region `ti` on) uses it. */
  predicate Slots(c: Layout, regs: seq<MemReg>, bi: int, ti: int)
    requires c.Supported()
  {
    && |regs| == KM_MEM_SLOTS && c.Last() < KM_MEM_SLOTS
    && forall i :: 1 <= i < c.Last() ==> regs[i] == if i <= bi || ti <= i then Plugged(c, i) else UNPLUGGED
  }

  /** The whole invariant. `tp` is the physical address of the top break. */
  predicate Inv(c: Layout, t: Tables, regs: seq<MemReg>, brk: nat, tp: nat)
    requires c.Supported() && t.WellFormed()
  {
    var z := ZonesOf(c);
    && Breaks(z, brk, tp)
    && Roots(z, t)
    && Present(z, t, brk, tp, brk, tp)
    && Mapped(c, t, regs, c.RegionIdx(brk - 1), c.RegionIdx(tp))
  }

  predicate Mapped(c: Layout, t: Tables, regs: seq<MemReg>, bi: int, ti: int)
    requires c.Supported() && t.WellFormed()
  {
    && 0 <= bi <= ti <= c.Last()
    && Slots(c, regs, bi, ti)
    && BottomFrames(t, c.Top(bi))
    && TopFrames(ZonesOf(c), t, c.Base(ti))
  }

  lemma BottomRegion(c: Layout, brk: nat)
    requires c.Supported() && START <= brk <= c.MaxMem() - GIB
    ensures 0 <= c.RegionIdx(brk - 1) < c.Last()
    ensures brk <= c.Top(c.RegionIdx(brk - 1)) <= c.MaxMem() - GIB
    ensures brk > START ==> c.Base(c.RegionIdx(brk - 1)) < brk
  {
    Shape(c);
    if brk == START {
      RegionEnds(c);
      BaseTop(c, 0);
      Pow2Values();
    } else {
      RegionHolds(c, brk - 1);
      RegionGrain(c, c.RegionIdx(brk - 1));
    }
  }

  lemma HiddenRegion(c: Layout)
    requires c.Supported() && c.MaxMem() >= 2 * GIB
    ensures 0 <= c.Last() == c.RegionIdx(c.MaxMem() - START) && c.Base(c.Last()) == c.MaxMem() - START
    ensures (c.MaxMem() - START) % (2 * MIB) == 0
  {
    Shape(c);
    RegionEnds(c);
    BaseTop(c, c.Last());
    Pow2Values();
    hide Layout.Base, Layout.Top, Layout.MaxMem, Pow2, Log2;
    GrainOne(c.MaxMem(), START);
  }

  lemma TopRegion(c: Layout, tp: nat)
    requires c.Supported() && GIB <= tp <= c.MaxMem() - START
    ensures 1 <= c.RegionIdx(tp) <= c.Last()
    ensures GIB <= c.Base(c.RegionIdx(tp)) <= tp && c.Base(c.RegionIdx(tp)) % (2 * MIB) == 0
  {
    Shape(c);
    if tp == c.MaxMem() - START {
      HiddenRegion(c);
    } else {
      hide Layout.Base, Layout.Top, Layout.RegionIdx, Layout.Last, Layout.MidIdx, Pow2, Log2;
      RegionHolds(c, tp);
      RegionGrain(c, c.RegionIdx(tp));
    }
  }

  /** Where the breaks lie among the regions: the bottom one never past the top one, and never
      in the last 1GB; the top one never in the first 1GB. */
  lemma BreakRegions(c: Layout, brk: nat, tp: nat)
    requires c.Supported() && Breaks(ZonesOf(c), brk, tp)
    ensures 0 <= c.RegionIdx(brk - 1) <= c.RegionIdx(tp) <= c.Last() < KM_MEM_SLOTS
    ensures brk <= c.Top(c.RegionIdx(brk - 1)) <= c.MaxMem() - GIB
    ensures GIB <= c.Base(c.RegionIdx(tp)) <= tp
    ensures c.Base(c.RegionIdx(tp)) % (2 * MIB) == 0
  {
    Shape(c);
    BottomRegion(c, brk);
    TopRegion(c, tp);
    RegionMonotone(c, brk - 1, tp);
  }

  lemma RegionGrained(c: Layout, i: int)
    requires c.Supported() && 1 <= i < c.Last()
    ensures Grained(ZonesOf(c), c.Base(i), c.Top(i)) && c.Size(i) == c.Top(i) - c.Base(i)
  {
    RegionsTile(c, i);
    RegionGrain(c, i);
  }

  /** The loops over the entries of a region stay inside one table. */
  lemma RegionInTable(c: Layout, i: int, upper: bool)
    requires c.Supported() && 1 <= i < c.Last()
    ensures var base, size := c.Base(i), c.Size(i);
            var gva := if upper then base + c.VaOffset() else base;
            if size < GIB then base % (2 * MIB) == 0 && size % (2 * MIB) == 0 && base % GIB + size <= GIB
            else gva % GIB == 0 && size % GIB == 0 && gva % (512 * GIB) + size <= 512 * GIB
  {
    RegionGrained(c, i);
    Shape(c);
    var base, top := c.Base(i), c.Top(i);
    if top - base < GIB {
      var q := if top <= GIB then 0 else c.MaxMem() / GIB - 1;
      SplitAddress(base, q, base - q * GIB);
    } else {
      TopSlots(c, base);
      SlotRoom(base + c.VaOffset());
      SlotRoom(base);
      GigaSize(base, top);
    }
  }

  lemma SlotRoom(gva: nat)
    requires gva % GIB == 0
    ensures gva % (512 * GIB) == PdpteSlot(gva) * GIB
  {
  }

  lemma GigaSize(base: nat, top: nat)
    requires base <= top && base % GIB == 0 && top % GIB == 0
    ensures (top - base) % GIB == 0 && base / GIB * GIB == base && top / GIB * GIB == top
  {
  }

  // ---- one region more or less in the bottom zone --------------------------------------------

  lemma TopBelow(c: Layout, i: int, j: int)
    requires c.Supported() && 1 <= i < j <= c.Last()
    ensures c.Top(i) <= c.Base(j)
  {
    if j < c.Last() {
      RegionsOrdered(c, i, j);
    } else {
      RegionsMeet(c, j - 1);
      if i < j - 1 {
        RegionsOrdered(c, i, j - 1);
        RegionsTile(c, j - 1);
      }
    }
  }

  /** State between the region loops and the fix-up of a `brk` call: regions up to `idx` serve
      the bottom zone, present bits still lie between those of `lo` and of the old break. */
  predicate MovingBottom(c: Layout, t: Tables, regs: seq<MemReg>, idx: int, ti: int, lo: nat, brk: nat, tp: nat)
    requires c.Supported() && t.WellFormed()
  {
    && Roots(ZonesOf(c), t) && Mapped(c, t, regs, idx, ti)
    && Present(ZonesOf(c), t, lo, tp, brk, tp)
    && (idx == 0 ==> !t.pd0[1].p)
  }

  lemma SlotsGained(c: Layout, regs: seq<MemReg>, idx: int, bi: int, ti: int)
    requires c.Supported() && 1 <= idx < c.Last() && Slots(c, regs, bi, ti)
    ensures bi + 1 == idx ==> Slots(c, regs[idx := Plugged(c, idx)], idx, ti)
    ensures ti - 1 == idx ==> Slots(c, regs[idx := Plugged(c, idx)], bi, idx)
  {
  }

  lemma SlotsLost(c: Layout, regs: seq<MemReg>, bi: int, ti: int)
    requires c.Supported() && 0 <= bi < ti <= c.Last() && Slots(c, regs, bi, ti)
    ensures 1 <= bi ==> Slots(c, regs[bi := UNPLUGGED], bi - 1, ti)
    ensures ti < c.Last() ==> Slots(c, regs[ti := UNPLUGGED], bi, ti + 1)
  {
  }

  lemma ClaimBottomKeeps(c: Layout, t: Tables, t': Tables, regs: seq<MemReg>, idx: int, ti: int, lo: nat, brk: nat,
                         tp: nat)
    requires c.Supported() && t.WellFormed() && 1 <= idx <= ti && idx < c.Last() && c.Top(idx) <= c.MaxMem() - GIB
    requires MovingBottom(c, t, regs, idx - 1, ti, lo, brk, tp)
    requires t' == MapRange(c, t, c.Base(idx), c.Size(idx), false)
    ensures t'.WellFormed()
    ensures MovingBottom(c, t', regs[idx := Plugged(c, idx)], idx, ti, lo, brk, tp)
  {
    hide Layout.Top, Layout.Base, Layout.Size, Layout.Last, Layout.MaxMem, ZonesOf, MapRange, UnmapRange, Present,
         BottomFrames, TopFrames, Slots, Roots, SameBits;
    RegionGrained(c, idx);
    RegionsTile(c, idx);
    if idx < ti {
      TopBelow(c, idx, ti);
    }
    SlotsGained(c, regs, idx, idx - 1, ti);
    MapBottom(c, ZonesOf(c), t, t', c.Base(idx), c.Top(idx), c.Base(ti));
    PresentSame(ZonesOf(c), t, t', lo, tp, brk, tp);
  }

  lemma ReleaseBottomKeeps(c: Layout, t: Tables, t': Tables, regs: seq<MemReg>, idx: int, ti: int, lo: nat, brk: nat,
                           tp: nat)
    requires c.Supported() && t.WellFormed() && 1 <= idx < ti <= c.Last()
    requires c.Top(idx) <= c.MaxMem() - GIB && c.Base(ti) <= tp
    requires MovingBottom(c, t, regs, idx, ti, lo, brk, tp)
    requires t' == UnmapRange(c, t, c.Base(idx), c.Size(idx), false)
    ensures t'.WellFormed()
    ensures MovingBottom(c, t', regs[idx := UNPLUGGED], idx - 1, ti, Min(lo, c.Base(idx)), brk, tp)
  {
    hide Layout.Top, Layout.Base, Layout.Size, Layout.Last, Layout.MaxMem, ZonesOf, MapRange, UnmapRange, Present,
         BottomFrames, TopFrames, Slots, Roots, SameBits;
    RegionGrained(c, idx);
    RegionsTile(c, idx);
    TopBelow(c, idx, ti);
    SlotsLost(c, regs, idx, ti);
    UnmapBottom(c, ZonesOf(c), t, t', c.Base(idx), c.Top(idx), c.Base(ti), lo, brk, tp);
  }

  lemma LeaveSharedBottom(c: Layout, t: Tables, regs: seq<MemReg>, idx: int, ti: int, lo: nat, brk: nat, tp: nat)
    requires c.Supported() && t.WellFormed() && 1 <= idx == ti < c.Last() && GIB <= c.Base(ti)
    requires MovingBottom(c, t, regs, idx, ti, lo, brk, tp)
    ensures MovingBottom(c, t, regs, idx - 1, ti, lo, brk, tp)
  {
    hide Layout.Top, Layout.Base, Present, Roots;
    RegionsTile(c, idx);
  }

  lemma SettleBottom(c: Layout, t: Tables, t': Tables, regs: seq<MemReg>, lo: nat, brk: nat, target: nat, tp: nat)
    requires c.Supported() && t.WellFormed() && Breaks(ZonesOf(c), brk, tp) && Breaks(ZonesOf(c), target, tp)
    requires MovingBottom(c, t, regs, c.RegionIdx(target - 1), c.RegionIdx(tp), lo, brk, tp)
    requires if target > brk then lo == brk else target <= lo
    requires t' == FixBottom(t, brk, target)
    ensures t'.WellFormed() && Inv(c, t', regs, target, tp)
  {
    hide Layout.Top, Layout.Base, Layout.RegionIdx, Layout.Last, FixTop, FixBottom, GrownTop, ShrunkTop, Present,
         BottomFrames, TopFrames, Slots, Roots;
    var z := ZonesOf(c);
    BreakRegions(c, target, tp);
    if target == START {
      RegionEnds(c);
    }
    FixBottomExact(z, t, lo, brk, target, tp);
    FixBottomFrames(z, t, brk, target, c.Top(c.RegionIdx(target - 1)), c.Base(c.RegionIdx(tp)), tp);
  }

  /** The host plugs every region that a move across (from, to] needs and the other zone does
      not hold already. */
  predicate Granted(host: int -> bool, from: int, to: int, shared: int) {
    forall i :: from < i <= to && i != shared ==> host(i)
  }

  /** The region the growing loop has reached tells whether it is done. */
  lemma BottomProgress(c: Layout, brk: nat, newBrk: nat, tp: nat, idx: int)
    requires c.Supported() && Breaks(ZonesOf(c), brk, tp) && Breaks(ZonesOf(c), newBrk, tp)
    requires c.RegionIdx(brk - 1) <= idx <= Max(c.RegionIdx(brk - 1), c.RegionIdx(newBrk - 1))
    ensures 0 <= idx <= c.RegionIdx(tp) <= c.Last() < KM_MEM_SLOTS && idx < c.Last() && c.Top(idx) <= c.MaxMem() - GIB
    ensures c.Top(idx) < newBrk <==> idx < c.RegionIdx(newBrk - 1)
    ensures Max(c.RegionIdx(brk - 1), c.RegionIdx(newBrk - 1)) <= c.RegionIdx(tp)
    ensures brk <= newBrk ==> c.RegionIdx(brk - 1) <= c.RegionIdx(newBrk - 1)
  {
    hide Layout.Top, Layout.Base;
    RegionEnds(c);
    BreakRegions(c, brk, tp);
    BreakRegions(c, newBrk, tp);
    Shape(c);
    BottomRegion(c, brk);
    BottomRegion(c, newBrk);
    if brk <= newBrk {
      RegionMonotone(c, brk - 1, newBrk - 1);
    }
    var bNew := c.RegionIdx(newBrk - 1);
    if idx < bNew {
      BottomBelow(c, idx, bNew);
    } else if bNew < idx {
      BottomBelow(c, bNew, idx);
      RegionsTile(c, idx);
    }
  }

  lemma BottomBelow(c: Layout, i: int, j: int)
    requires c.Supported() && 0 <= i < j < c.Last()
    ensures c.Top(i) <= c.Base(j) < c.Top(j)
  {
    RegionsTile(c, j);
    if i == 0 {
      RegionsTile(c, 1);
    } else {
      TopBelow(c, i, j);
    }
  }

  /** The slots are determined by the two region indices. */
  lemma SlotsSame(c: Layout, regs: seq<MemReg>, regs': seq<MemReg>, bi: int, ti: int)
    requires c.Supported() && Slots(c, regs, bi, ti) && Slots(c, regs', bi, ti)
    requires forall i :: 0 <= i < KM_MEM_SLOTS && (i == 0 || c.Last() <= i) ==> regs'[i] == regs[i]
    ensures regs == regs'
  {
  }

  lemma StartBottom(c: Layout, t: Tables, regs: seq<MemReg>, brk: nat, tp: nat)
    requires c.Supported() && t.WellFormed() && Inv(c, t, regs, brk, tp)
    ensures Breaks(ZonesOf(c), brk, tp)
    ensures MovingBottom(c, t, regs, c.RegionIdx(brk - 1), c.RegionIdx(tp), brk, brk, tp)
  {
    Shape(c);
    if brk > START {
      RegionHolds(c, brk - 1);
    }
  }

  /** The guard of both break calls compares 1GB units of physical addresses. */
  lemma GuardMeaning(c: Layout, brk: nat, tbrk: nat)
    requires c.Supported() && START <= brk < c.MaxMem() && c.VaOffset() < tbrk <= c.TopVa()
    ensures c.GvaToGpa(brk) == brk && c.GvaToGpa(tbrk) == tbrk - c.VaOffset()
    ensures var tp := tbrk - c.VaOffset();
            RoundDown(c.GvaToGpa(brk), GIB) >= RoundDown(c.GvaToGpa(tbrk), GIB) <==> !Breaks(ZonesOf(c), brk, tp)
  {
    Shape(c);
  }

  // ---- one region more or less in the top zone -----------------------------------------------

  /** State between the region loops and the fix-up of a `tbrk` call: regions from `idx` on serve
      the top zone, present bits lie between those of `lo` and of the old top break `tp`. */
  predicate MovingTop(c: Layout, t: Tables, regs: seq<MemReg>, bi: int, idx: int, brk: nat, lo: nat, tp: nat)
    requires c.Supported() && t.WellFormed()
  {
    && Roots(ZonesOf(c), t) && Mapped(c, t, regs, bi, idx)
    && Present(ZonesOf(c), t, brk, lo, brk, tp)
  }

  lemma ClaimTopKeeps(c: Layout, t: Tables, t': Tables, regs: seq<MemReg>, bi: int, idx: int, brk: nat, lo: nat,
                      tp: nat)
    requires c.Supported() && t.WellFormed() && 1 <= idx < c.Last() && 0 <= bi <= idx && GIB <= c.Base(idx)
    requires MovingTop(c, t, regs, bi, idx + 1, brk, lo, tp)
    requires t' == MapRange(c, t, c.Base(idx), c.Size(idx), true)
    ensures t'.WellFormed() && SameBits(t.pd2, t'.pd2)
    ensures MovingTop(c, t', regs[idx := Plugged(c, idx)], bi, idx, brk, lo, tp)
  {
    hide Layout.Top, Layout.Base, Layout.Size, Layout.Last, Layout.MaxMem, ZonesOf, MapRange, UnmapRange, Present,
         BottomFrames, TopFrames, Slots, Roots, SameBits;
    RegionGrained(c, idx);
    RegionsTile(c, idx);
    if bi < idx {
      BottomBelow(c, bi, idx);
    }
    SlotsGained(c, regs, idx, bi, idx + 1);
    MapTop(c, ZonesOf(c), t, t', c.Base(idx), c.Top(idx), c.Top(bi));
    PresentSame(ZonesOf(c), t, t', brk, lo, brk, tp);
  }

  lemma ReleaseTopKeeps(c: Layout, t: Tables, t': Tables, regs: seq<MemReg>, bi: int, idx: int, brk: nat, lo: nat,
                        tp: nat)
    requires c.Supported() && t.WellFormed() && 0 <= bi < idx < c.Last() && GIB <= c.Base(idx) && brk <= c.Top(bi)
    requires MovingTop(c, t, regs, bi, idx, brk, lo, tp)
    requires t' == UnmapRange(c, t, c.Base(idx), c.Size(idx), true)
    ensures t'.WellFormed()
    ensures forall i :: 0 <= i < 511 && c.Top(idx) <= ZonesOf(c).LastGb(i) ==> t'.pd2[i].p == t.pd2[i].p
    ensures MovingTop(c, t', regs[idx := UNPLUGGED], bi, idx + 1, brk, Max(lo, c.Top(idx)), tp)
  {
    hide Layout.Top, Layout.Base, Layout.Size, Layout.Last, Layout.MaxMem, ZonesOf, MapRange, UnmapRange, Present,
         BottomFrames, TopFrames, Slots, Roots, SameBits;
    RegionGrained(c, idx);
    RegionsTile(c, idx);
    BottomBelow(c, bi, idx);
    SlotsLost(c, regs, bi, idx);
    UnmapTop(c, ZonesOf(c), t, t', c.Base(idx), c.Top(idx), c.Top(bi), brk, lo, tp);
  }

  lemma LeaveSharedTop(c: Layout, t: Tables, regs: seq<MemReg>, bi: int, idx: int, brk: nat, lo: nat, tp: nat)
    requires c.Supported() && t.WellFormed() && 1 <= idx == bi < c.Last() && c.Top(bi) <= c.MaxMem() - GIB
    requires MovingTop(c, t, regs, bi, idx, brk, lo, tp)
    ensures MovingTop(c, t, regs, bi, idx + 1, brk, lo, tp)
  {
    hide Layout.Top, Layout.Base, Layout.Last, Layout.MaxMem, Present, Roots, ZonesOf;
    RegionsTile(c, idx);
  }

  /** The region the growing loop of `tbrk` has reached tells whether it is done. */
  lemma TopProgress(c: Layout, brk: nat, tp: nat, newTp: nat, idx: int)
    requires c.Supported() && Breaks(ZonesOf(c), brk, tp) && Breaks(ZonesOf(c), brk, newTp)
    requires Min(c.RegionIdx(tp), c.RegionIdx(newTp)) <= idx <= c.RegionIdx(tp)
    ensures 0 <= c.RegionIdx(brk - 1) <= idx <= c.Last() < KM_MEM_SLOTS && 1 <= idx && GIB <= c.Base(idx)
    ensures newTp < c.Base(idx) <==> c.RegionIdx(newTp) < idx
    ensures c.RegionIdx(brk - 1) <= Min(c.RegionIdx(tp), c.RegionIdx(newTp))
    ensures c.RegionIdx(tp) <= c.Last() && c.RegionIdx(newTp) <= c.Last() &&
            (newTp <= tp ==> c.RegionIdx(newTp) <= c.RegionIdx(tp))
  {
    hide Layout.Top, Layout.Base;
    Shape(c);
    RegionEnds(c);
    BreakRegions(c, brk, tp);
    BreakRegions(c, brk, newTp);
    TopRegion(c, tp);
    TopRegion(c, newTp);
    if newTp <= tp {
      RegionMonotone(c, newTp, tp);
    }
    var tNew := c.RegionIdx(newTp);
    if tNew < idx {
      RegionHolds(c, newTp);
      TopBelow(c, tNew, idx);
    } else if idx < tNew {
      BottomBelow2(c, idx, tNew);
    }
  }

  lemma BottomBelow2(c: Layout, i: int, j: int)
    requires c.Supported() && 1 <= i < j <= c.Last()
    ensures c.Base(i) < c.Base(j)
  {
    RegionsTile(c, i);
    TopBelow(c, i, j);
  }

  lemma SettleTop(c: Layout, t: Tables, t': Tables, regs: seq<MemReg>, brk: nat, lo: nat, tp: nat, target: nat)
    requires c.Supported() && t.WellFormed() && Breaks(ZonesOf(c), brk, tp) && Breaks(ZonesOf(c), brk, target)
    requires MovingTop(c, t, regs, c.RegionIdx(brk - 1), c.RegionIdx(target), brk, lo, tp)
    requires if target < tp then lo == tp else lo <= target
    requires t' == FixTop(ZonesOf(c), t, tp + c.VaOffset(), target + c.VaOffset())
    ensures t'.WellFormed() && Inv(c, t', regs, brk, target)
  {
    hide Layout.Top, Layout.Base, Layout.RegionIdx, Layout.Last, FixTop, FixBottom, GrownTop, ShrunkTop, Present,
         BottomFrames, TopFrames, Slots, Roots, Layout.MaxMem, Layout.VaOffset, ZonesOf;
    var z := ZonesOf(c);
    BreakRegions(c, brk, target);
    FixTopIs(c, z, t, tp, target);
    var end, from := c.Top(c.RegionIdx(brk - 1)), c.Base(c.RegionIdx(target));
    if target < tp {
      GrownTopExact(z, t, brk, tp, target);
      GrownTopFrames(z, t, tp, target, end, from);
    } else {
      ShrunkTopExact(z, t, brk, lo, tp, target);
      ShrunkTopFrames(z, t, tp, target, end, from);
    }
  }

  /** Whether the 2MB entries of the top zone are exact after a `tbrk` call that found them exact:
      they are unless the call leaves stale entries behind. `was` is pd2 before the call. */
  lemma SettleExact(c: Layout, was: seq<Entry>, t: Tables, t': Tables, regs: seq<MemReg>, brk: nat, lo: nat, tp: nat,
                    target: nat)
    requires c.Supported() && t.WellFormed() && Breaks(ZonesOf(c), brk, tp) && Breaks(ZonesOf(c), brk, target)
    requires MovingTop(c, t, regs, c.RegionIdx(brk - 1), c.RegionIdx(target), brk, lo, tp)
    requires Exact2M(ZonesOf(c), was, tp) && forall i :: 0 <= i < 511 ==> (Top2M(ZonesOf(c), i, tp) ==> was[i].p)
    requires forall i :: 0 <= i < 511 && c.Base(c.RegionIdx(target)) <= ZonesOf(c).LastGb(i) ==> t.pd2[i].p == was[i].p
    requires t' == FixTop(ZonesOf(c), t, tp + c.VaOffset(), target + c.VaOffset())
    ensures Exact2M(ZonesOf(c), t'.pd2, target) <==> !LeavesStale(ZonesOf(c), tp, target, c.Base(c.RegionIdx(target)))
  {
    hide Layout.Top, Layout.Base, Layout.RegionIdx, Layout.Last, FixTop, FixBottom, GrownTop, ShrunkTop, Present,
         BottomFrames, TopFrames, Slots, Roots, Exact2M, LeavesStale;
    var z, from := ZonesOf(c), c.Base(c.RegionIdx(target));
    TopRegion(c, target);
    LastRegion(c, target);
    FixTopIs(c, z, t, tp, target);
    if target < tp {
      GrownTop2M(z, was, t, tp, target, from);
    } else {
      ShrunkTop2M(z, was, t, tp, target, from);
    }
  }

  lemma BreakRange(c: Layout, brk: nat, tp: nat)
    requires c.Supported() && Breaks(ZonesOf(c), brk, tp)
    ensures START <= brk < c.MaxMem() && 0 < tp < c.MaxMem() - 1
  {
    Shape(c);
    hide Layout.MaxMem, Pow2, Log2;
  }

  lemma InvSlots(c: Layout, t: Tables, regs: seq<MemReg>, brk: nat, tp: nat)
    requires c.Supported() && t.WellFormed() && Inv(c, t, regs, brk, tp)
    ensures Breaks(ZonesOf(c), brk, tp) && Slots(c, regs, c.RegionIdx(brk - 1), c.RegionIdx(tp))
  {
    hide Present, BottomFrames, TopFrames, Slots, Roots;
  }

  lemma StartTop(c: Layout, t: Tables, regs: seq<MemReg>, brk: nat, tp: nat)
    requires c.Supported() && t.WellFormed() && Inv(c, t, regs, brk, tp)
    ensures Breaks(ZonesOf(c), brk, tp) && START <= brk < c.MaxMem()
    ensures MovingTop(c, t, regs, c.RegionIdx(brk - 1), c.RegionIdx(tp), brk, tp, tp)
    ensures forall i :: 0 <= i < 511 ==> (Top2M(ZonesOf(c), i, tp) ==> t.pd2[i].p)
  {
  }

  lemma NotStale(z: Zones, tp: nat, from: nat)
    ensures !LeavesStale(z, tp, tp, from)
  {
  }

  lemma LastRegion(c: Layout, tp: nat)
    requires c.Supported() && GIB <= tp <= c.MaxMem() - START
    ensures 1 <= c.RegionIdx(tp) <= c.Last()
    ensures tp / GIB == ZonesOf(c).gbs - 1 ==> c.MaxMem() - GIB <= c.Base(c.RegionIdx(tp))
  {
    TopRegion(c, tp);
    if tp < c.MaxMem() - START {
      RegionHolds(c, tp);
      RegionGrain(c, c.RegionIdx(tp));
      BaseTop(c, c.RegionIdx(tp));
    } else {
      RegionEnds(c);
      BaseTop(c, c.Last());
      Pow2Values();
    }
  }

  /** The tables init_pml4 leaves: roots, and no memory mapped. */
  predicate InitTables(high: bool, t: Tables)
    requires t.WellFormed()
  {
    && Roots(Zones(2, high), t)
    && (forall i :: 0 <= i < 512 ==> t.pd0[i] == EMPTY && t.pd2[i] == EMPTY)
    && (forall i :: 0 <= i < 512 ==>
          t.pdpt0[i] == if i == 0 then Entry(true, false, PD0_FRAME)
                        else if i == 511 && !high then Entry(true, false, PD2_FRAME) else EMPTY)
    && (forall i :: 0 <= i < 512 ==> t.pdpt2[i] == if i == 511 && high then Entry(true, false, PD2_FRAME) else EMPTY)
  }

  lemma InitialTables(z: Zones, t: Tables)
    requires z.Ok() && t.WellFormed() && InitTables(z.high, t)
    ensures var tp := z.gbs * GIB - START;
            tp / GIB == z.gbs - 1 && Roots(z, t) && Present(z, t, START, tp, START, tp) &&
            BottomFrames(t, START) && TopFrames(z, t, tp) && Exact2M(z, t.pd2, tp)
  {
    var tp := z.gbs * GIB - START;
    SplitAddress(tp, z.gbs - 1, GIB - START);
    TopReach(z, tp);
  }

  /** The state km_mem_init sets up satisfies the invariant, with exact present bits. */
  lemma InitialState(c: Layout, t: Tables, regs: seq<MemReg>)
    requires c.Supported() && t.WellFormed() && |regs| == KM_MEM_SLOTS && InitTables(c.high, t)
    requires forall i :: 1 <= i < KM_MEM_SLOTS ==> regs[i] == UNPLUGGED
    ensures c.VaOffset() < c.TopVa() == c.VaOffset() + c.MaxMem() - START
    ensures c.Last() < KM_MEM_SLOTS && Inv(c, t, regs, START, c.MaxMem() - START)
    ensures Exact2M(ZonesOf(c), t.pd2, c.MaxMem() - START)
  {
    hide Present, TopFrames, BottomFrames, Exact2M, InitTables;
    Shape(c);
    RegionEnds(c);
    BaseTop(c, 0);
    BaseTop(c, c.Last());
    Pow2Values();
    InitialTables(ZonesOf(c), t);
  }

  /** Two moves with 512GB of memory, to 300GB + 800MB and up to 20MB into the last 1GB, whose first
      region is 512MB long: the second leaves entries behind. */
  lemma StaleMoves()
    ensures var c := Layout(39, false, 0);
            c.VaOffset() == 0 && c.TopVa() == 512 * GIB - START && c.Last() == 35 &&
            c.RegionIdx(511 * GIB + 20 * MIB) == 26 &&
            ZonesOf(c).gbs == 512 && Breaks(ZonesOf(c), START, 300 * GIB + 800 * MIB) &&
            Breaks(ZonesOf(c), START, 511 * GIB + 20 * MIB) &&
            LeavesStale(ZonesOf(c), 300 * GIB + 800 * MIB, 511 * GIB + 20 * MIB, c.Base(26))
  {
    var c := Layout(39, false, 0);
    Shape(c);
    Pow2Values();
    assert Pow2(29) == 512 * MIB;
    Log2Unique(c.MaxMem() - (511 * GIB + 20 * MIB) - 1, 29);
    BaseTop(c, 26);
    SplitAddress(300 * GIB + 800 * MIB, 300, 800 * MIB);
  }

  /** A move that does not reach the last 1GB leaves none. */
  lemma StaysExact(z: Zones, oldTp: nat, newTp: nat, from: nat)
    requires newTp / GIB < z.gbs - 1
    ensures !LeavesStale(z, oldTp, newTp, from)
  {
  }

  class Machine {
    const c: Layout
    var brk: nat
    var tbrk: nat
    const regs: array<MemReg> // vm_mem_regs
    const pml4: array<Entry>
    const pdpt0: array<Entry>
    const pdpt2: array<Entry>
    const pd0: array<Entry>
    const pd2: array<Entry>

    ghost predicate Shaped() {
      && c.Supported()
      && regs.Length == KM_MEM_SLOTS && c.Last() < KM_MEM_SLOTS
      && pml4.Length == pdpt0.Length == pdpt2.Length == pd0.Length == pd2.Length == PT_ENTRIES
      && pml4 != pdpt0 && pml4 != pdpt2 && pml4 != pd0 && pml4 != pd2
      && pdpt0 != pdpt2 && pdpt0 != pd0 && pdpt0 != pd2
      && pdpt2 != pd0 && pdpt2 != pd2 && pd0 != pd2
    }

    ghost function Repr(): set<object> {
      {regs as object} + {pml4, pdpt0, pdpt2, pd0, pd2}
    }

    /** The tables a zone uses. */
    function TablesOf(upper: bool): set<array<Entry>> {
      if upper then {pdpt0, pdpt2, pd2} else {pdpt0, pd0}
    }

    ghost function Snap(): (t: Tables)
      requires Shaped()
      reads pml4, pdpt0, pdpt2, pd0, pd2
      ensures t.WellFormed()
    {
      Tables(pml4[..], pdpt0[..], pdpt2[..], pd0[..], pd2[..])
    }

    /** Physical address of the top break. */
    ghost function Tp(): nat
      requires Shaped() && c.VaOffset() <= tbrk
      reads `tbrk
    {
      tbrk - c.VaOffset()
    }

    /** No 2MB entry of the top zone is present below the top break. */
    ghost predicate TopExact()
      requires Shaped() && c.VaOffset() <= tbrk
      reads `tbrk, pd2
    {
      Exact2M(ZonesOf(c), pd2[..], Tp())
    }

    ghost predicate Valid()
      reads this, regs, pml4, pdpt0, pdpt2, pd0, pd2
    {
      && Shaped()
      && c.VaOffset() < tbrk <= c.TopVa() && START <= brk
      && Inv(c, Snap(), regs[..], brk, Tp())
    }

    /** The zeroed machine structure. */
    constructor (layout: Layout)
      requires layout.Supported()
      ensures c == layout && Zeroed() && fresh(Repr())
    {
      c := layout;
      brk, tbrk := 0, 0;
      regs := new MemReg[KM_MEM_SLOTS](_ => UNPLUGGED);
      pml4 := new Entry[PT_ENTRIES](_ => EMPTY);
      pdpt0 := new Entry[PT_ENTRIES](_ => EMPTY);
      pdpt2 := new Entry[PT_ENTRIES](_ => EMPTY);
      pd0 := new Entry[PT_ENTRIES](_ => EMPTY);
      pd2 := new Entry[PT_ENTRIES](_ => EMPTY);
      ShapeIdx(layout);
      hide Layout.Last, Layout.MidIdx;
    }

    ghost predicate Zeroed()
      reads regs, pml4, pdpt0, pdpt2, pd0, pd2
    {
      && Shaped()
      && (forall i :: 0 <= i < 512 ==> pml4[i] == pdpt0[i] == pdpt2[i] == pd0[i] == pd2[i] == EMPTY)
      && (forall i :: 0 <= i < KM_MEM_SLOTS ==> regs[i] == UNPLUGGED)
    }

    // km_mem_init
    method MemInit()
      requires Zeroed()
      modifies this, regs, pml4, pdpt0, pdpt2
      ensures Valid() && TopExact()
      ensures brk == START && tbrk == c.TopVa()
      ensures regs[0].guestPhysAddr == 0x20000 && regs[0].memorySize == 0x20000 &&
              regs[0].userspaceAddr == c.userBase + regs[0].guestPhysAddr
    {
      hide Inv, Exact2M, InitTables, ZonesOf, Layout.VaOffset, Layout.TopVa, Layout.MaxMem, Layout.Last;
      regs[0] := MemReg(c.userBase + 32 * PAGE, 32 * PAGE, 32 * PAGE);
      InitPml4();
      brk, tbrk := START, c.TopVa();
      InitialState(c, Snap(), regs[..]);
      assert Tp() == c.MaxMem() - START;
    }

    // init_pml4, on tables that are all zero
    method InitPml4()
      requires Shaped()
      requires forall i :: 0 <= i < 512 ==> pml4[i] == pdpt0[i] == pdpt2[i] == pd0[i] == pd2[i] == EMPTY
      modifies pml4, pdpt0, pdpt2
      ensures InitTables(c.high, Snap())
    {
      hide Layout.Last;
      pml4[0], pdpt0[0] := Entry(true, false, PDPT0_FRAME), Entry(true, false, PD0_FRAME);
      pml4[1] := Entry(true, false, PDPT1_FRAME);
      if c.high {
        pml4[255], pdpt2[511] := Entry(true, false, PDPT2_FRAME), Entry(true, false, PD2_FRAME);
      } else {
        pdpt0[511] := Entry(true, false, PD2_FRAME);
      }
    }

    // set_pml4_hierarchy
    method SetHierarchy(ghost i: int, reg: MemReg, upper: bool)
      requires Shaped() && 1 <= i < c.Last() && reg == Plugged(c, i)
      modifies TablesOf(upper)
      ensures Snap() == MapRange(c, old(Snap()), c.Base(i), c.Size(i), upper)
    {
      hide Layout.Base, Layout.Size, Layout.Last, Layout.VaOffset, Framed;
      RegionInTable(c, i, upper);
      var size, base := reg.memorySize, reg.guestPhysAddr;
      if size < GIB {
        PageTableLoops.Frame2M(if upper then pd2 else pd0, base, size);
      } else {
        PageTableLoops.Frame1G(if upper && c.high then pdpt2 else pdpt0,
                               if upper then base + c.VaOffset() else base, base, size);
      }
    }

    // clear_pml4_hierarchy
    method ClearHierarchy(ghost i: int, reg: MemReg, upper: bool)
      requires Shaped() && 1 <= i < c.Last() && reg == Plugged(c, i)
      modifies TablesOf(upper)
      ensures Snap() == UnmapRange(c, old(Snap()), c.Base(i), c.Size(i), upper)
    {
      hide Layout.Base, Layout.Size, Layout.Last, Layout.VaOffset, Blanked;
      RegionInTable(c, i, upper);
      var size, base := reg.memorySize, reg.guestPhysAddr;
      if size < GIB {
        PageTableLoops.Blank2M(if upper then pd2 else pd0, base, size);
      } else {
        PageTableLoops.Blank1G(if upper && c.high then pdpt2 else pdpt0,
                               if upper then base + c.VaOffset() else base, size);
      }
    }

    // km_alloc_region; `granted` is the host's answer to mmap and KVM_SET_USER_MEMORY_REGION
    method AllocRegion(idx: int, upper: bool, granted: bool) returns (ok: bool)
      requires Shaped() && 1 <= idx < c.Last() && regs[idx] == UNPLUGGED
      modifies regs, TablesOf(upper)
      ensures ok == granted
      ensures regs[..] == if ok then old(regs[..])[idx := Plugged(c, idx)] else old(regs[..])
      ensures Snap() == if ok then MapRange(c, old(Snap()), c.Base(idx), c.Size(idx), upper) else old(Snap())
    {
      if !granted {
        return false;
      }
      regs[idx] := MemReg(c.userBase + c.Base(idx), c.Base(idx), c.Size(idx));
      SetHierarchy(idx, regs[idx], upper);
      ok := true;
    }

    // km_free_region
    method FreeRegion(idx: int, upper: bool)
      requires Shaped() && 1 <= idx < c.Last() && regs[idx] == Plugged(c, idx)
      modifies regs, TablesOf(upper)
      ensures regs[..] == old(regs[..])[idx := UNPLUGGED]
      ensures Snap() == UnmapRange(c, old(Snap()), c.Base(idx), c.Size(idx), upper)
    {
      ClearHierarchy(idx, regs[idx], upper);
      regs[idx] := UNPLUGGED;
    }

    // fixup_bottom_page_tables
    method FixupBottom(oldBrk: nat, newBrk: nat)
      requires Shaped() && oldBrk > 0 && newBrk > 0
      modifies pd0, pdpt0
      ensures Snap() == FixBottom(old(Snap()), oldBrk, newBrk)
    {
      var old2m, new2m := Max(1, PdeSlot(oldBrk - 1)), Max(1, PdeSlot(newBrk - 1));
      var old1g, new1g := PdpteSlot(oldBrk - 1), PdpteSlot(newBrk - 1);
      if newBrk > oldBrk {
        if old1g == 0 {
          PageTableLoops.SetPresent(pd0, old2m, if new1g == 0 then new2m else 511, true);
        }
        if new1g > 0 {
          PageTableLoops.SetPresent(pdpt0, if old1g == 0 then 1 else old1g, new1g, true);
        }
      } else {
        if old1g > 0 {
          PageTableLoops.SetPresent(pdpt0, new1g + 1, old1g, false);
        }
        if new1g == 0 {
          PageTableLoops.SetPresent(pd0, new2m + 1, if old1g == 0 then old2m else 511, false);
        }
      }
    }

    // fixup_top_page_tables
    method FixupTop(oldTbrk: nat, newTbrk: nat)
      requires Shaped()
      modifies pd2, pdpt0, pdpt2
      ensures Snap() == FixTop(ZonesOf(c), old(Snap()), oldTbrk, newTbrk)
    {
      var pdpe := if c.high then pdpt2 else pdpt0;
      var old2m: int, new2m: int := PdeSlot(oldTbrk), PdeSlot(newTbrk);
      var old1g: int, new1g: int := PdpteSlot(oldTbrk), PdpteSlot(newTbrk);
      if newTbrk < oldTbrk {
        if old1g == 511 {
          PageTableLoops.SetPresent(pd2, if new1g == 511 then new2m else 0, old2m, true);
        }
        if new1g < 511 {
          PageTableLoops.SetPresent(pdpe, new1g, old1g, true);
        }
      } else {
        if old1g < 511 {
          PageTableLoops.SetPresent(pdpe, old1g, new1g - 1, false);
        }
        if new1g == 511 {
          PageTableLoops.SetPresent(pd2, if old1g == 511 then 0 else old2m, new2m - 1, false);
        }
      }
    }

    /** Slots that belong to no region are never touched. */
    twostate predicate OtherSlotsKept()
      requires Shaped()
      reads regs
    {
      forall i :: 0 <= i < KM_MEM_SLOTS && (i == 0 || c.Last() <= i) ==> regs[i] == old(regs[i])
    }

    // one round of the growing loop of km_mem_brk
    method ClaimBottom(idx: int, granted: bool, ghost ti: int, ghost tp: nat) returns (ok: bool)
      requires Shaped() && 1 <= idx <= ti <= c.Last() && idx < c.Last() && c.Top(idx) <= c.MaxMem() - GIB
      requires MovingBottom(c, Snap(), regs[..], idx - 1, ti, brk, brk, tp)
      modifies regs, pdpt0, pd0
      ensures ok == (idx == ti || granted)
      ensures MovingBottom(c, Snap(), regs[..], if ok then idx else idx - 1, ti, brk, brk, tp)
      ensures OtherSlotsKept()
    {
      ghost var t, was := Snap(), regs[..];
      RegionsTile(c, idx);
      if regs[idx].Allocated() {
        SetHierarchy(idx, regs[idx], false);
        ok := true;
        assert regs[..] == was[idx := Plugged(c, idx)];
      } else {
        ok := AllocRegion(idx, false, granted);
      }
      if ok {
        ClaimBottomKeeps(c, t, Snap(), was, idx, ti, brk, brk, tp);
      }
    }

    // one round of the freeing loop of km_mem_brk
    method ReleaseBottom(idx: int, tbrkIdx: int, ghost lo: nat, ghost tp: nat) returns (ghost lo': nat)
      requires Shaped() && 1 <= idx <= tbrkIdx <= c.Last() && idx < c.Last()
      requires c.Top(idx) <= c.MaxMem() - GIB && GIB <= c.Base(tbrkIdx) <= tp
      requires MovingBottom(c, Snap(), regs[..], idx, tbrkIdx, lo, brk, tp)
      modifies regs, pdpt0, pd0
      ensures lo' == if idx < tbrkIdx then Min(lo, c.Base(idx)) else lo
      ensures MovingBottom(c, Snap(), regs[..], idx - 1, tbrkIdx, lo', brk, tp)
      ensures OtherSlotsKept()
    {
      ghost var t, was := Snap(), regs[..];
      lo' := lo;
      if idx < tbrkIdx { // don't free a shared slot
        FreeRegion(idx, false);
        lo' := Min(lo, c.Base(idx));
        ReleaseBottomKeeps(c, t, Snap(), was, idx, tbrkIdx, lo, brk, tp);
      } else {
        LeaveSharedBottom(c, t, was, idx, tbrkIdx, lo, brk, tp);
      }
    }

    // the growing loop of km_mem_brk: regions are claimed until one reaches `newBrk` or the host refuses
    method GrowBottom(newBrk: nat, host: int -> bool, ghost tp: nat) returns (idx: int, ok: bool)
      requires Shaped() && Breaks(ZonesOf(c), brk, tp) && Breaks(ZonesOf(c), newBrk, tp)
      requires MovingBottom(c, Snap(), regs[..], c.RegionIdx(brk - 1), c.RegionIdx(tp), brk, brk, tp)
      modifies regs, pdpt0, pd0
      ensures ok <==> Granted(host, c.RegionIdx(brk - 1), c.RegionIdx(newBrk - 1), c.RegionIdx(tp))
      ensures c.RegionIdx(brk - 1) <= idx <= Max(c.RegionIdx(brk - 1), c.RegionIdx(newBrk - 1)) <= c.RegionIdx(tp)
      ensures ok ==> idx == Max(c.RegionIdx(brk - 1), c.RegionIdx(newBrk - 1))
      ensures MovingBottom(c, Snap(), regs[..], idx, c.RegionIdx(tp), brk, brk, tp)
      ensures OtherSlotsKept()
    {
      hide MovingBottom, ZonesOf, Layout.Base, Layout.Top, Layout.Size, Layout.RegionIdx, Layout.Last, Layout.MaxMem,
           Layout.VaOffset;
      ghost var ti, bNew := c.RegionIdx(tp), c.RegionIdx(newBrk - 1);
      idx, ok := c.RegionIdx(brk - 1), true;
      ghost var bi := idx;
      BottomProgress(c, brk, newBrk, tp, idx);
      var mBrk := Min(newBrk, c.Top(idx));
      while mBrk < newBrk
        invariant bi <= idx <= Max(bi, bNew) && idx <= ti < KM_MEM_SLOTS && idx < c.Last()
        invariant mBrk == Min(newBrk, c.Top(idx)) && (c.Top(idx) < newBrk <==> idx < bNew)
        invariant Granted(host, bi, idx, ti)
        invariant MovingBottom(c, Snap(), regs[..], idx, ti, brk, brk, tp)
        invariant OtherSlotsKept()
        decreases bNew - idx
      {
        BottomProgress(c, brk, newBrk, tp, idx + 1);
        idx := idx + 1;
        ok := ClaimBottom(idx, host(idx), ti, tp);
        if !ok {
          idx := idx - 1;
          break;
        }
        mBrk := Min(newBrk, c.Top(idx));
      }
    }

    // the freeing loop of km_mem_brk
    method ShrinkBottom(from: int, target: nat, ghost tp: nat) returns (ghost lo: nat)
      requires Shaped() && Breaks(ZonesOf(c), brk, tp) && Breaks(ZonesOf(c), target, tp)
      requires c.GvaToGpa(tbrk) == tp && c.RegionIdx(target - 1) <= from <= c.RegionIdx(tp)
      requires target > brk ==> from == c.RegionIdx(target - 1)
      requires 0 <= from < c.Last() && c.Top(from) <= c.MaxMem() - GIB
      requires MovingBottom(c, Snap(), regs[..], from, c.RegionIdx(tp), brk, brk, tp)
      modifies regs, pdpt0, pd0
      ensures if target > brk then lo == brk else target <= lo
      ensures MovingBottom(c, Snap(), regs[..], c.RegionIdx(target - 1), c.RegionIdx(tp), lo, brk, tp)
      ensures OtherSlotsKept()
    {
      hide MovingBottom, ZonesOf, Layout.Base, Layout.Top, Layout.Size, Layout.RegionIdx, Layout.Last, Layout.MaxMem,
           Layout.VaOffset;
      var tbrkIdx := c.RegionIdx(c.GvaToGpa(tbrk));
      BreakRegions(c, target, tp);
      var idx := from;
      lo := brk;
      while idx > c.RegionIdx(target - 1)
        invariant c.RegionIdx(target - 1) <= idx <= from
        invariant if target > brk then lo == brk else target <= lo
        invariant MovingBottom(c, Snap(), regs[..], idx, tbrkIdx, lo, brk, tp)
        invariant OtherSlotsKept()
      {
        BottomBelow(c, c.RegionIdx(target - 1), idx);
        if idx < from {
          BottomBelow(c, idx, from);
        }
        lo := ReleaseBottom(idx, tbrkIdx, lo, tp);
        idx := idx - 1;
      }
    }

    // km_mem_brk past its checks; on a refusal by the host everything claimed is given back
    method MoveBrk(newBrk: nat, host: int -> bool) returns (ok: bool)
      requires Valid() && Breaks(ZonesOf(c), newBrk, Tp()) && c.GvaToGpa(tbrk) == Tp()
      modifies `brk, regs, pdpt0, pd0
      ensures Valid() && OtherSlotsKept()
      ensures ok <==> Granted(host, c.RegionIdx(old(brk) - 1), c.RegionIdx(newBrk - 1), c.RegionIdx(Tp()))
      ensures brk == if ok then newBrk else old(brk)
    {
      hide Inv, MovingBottom, Granted, ZonesOf, Layout.Base, Layout.Top, Layout.Size, Layout.RegionIdx, Layout.Last,
           Layout.MaxMem, Layout.VaOffset;
      ghost var tp := Tp();
      StartBottom(c, Snap(), regs[..], brk, tp);
      var idx;
      idx, ok := GrowBottom(newBrk, host, tp);
      var target := if ok then newBrk else brk;
      BottomProgress(c, brk, newBrk, tp, idx);
      ghost var lo := ShrinkBottom(idx, target, tp);
      ghost var t := Snap();
      FixupBottom(brk, target);
      SettleBottom(c, t, Snap(), regs[..], lo, brk, target, tp);
      brk := target;
    }

    // km_mem_brk. `host(i)` is the host's answer when region i has to be plugged. The move is made
    // exactly when the break stays out of the 1GB unit of the top break and the host grants every
    // region the top zone does not share; otherwise break and slots are as before.
    method Brk(newBrk: nat, host: int -> bool) returns (r: Answer)
      requires Valid() && (newBrk == 0 || START <= newBrk)
      modifies `brk, regs, pdpt0, pd0
      ensures Valid()
      ensures newBrk == 0 ==> r == Moved(brk)
      ensures newBrk != 0 ==> (r.Moved? <==>
          Breaks(ZonesOf(c), newBrk, Tp()) &&
          Granted(host, c.RegionIdx(old(brk) - 1), c.RegionIdx(newBrk - 1), c.RegionIdx(Tp())))
      ensures newBrk != 0 && r.Moved? ==> r == Moved(newBrk) && brk == newBrk
      ensures newBrk == 0 || r.NoMemory? ==> brk == old(brk) && regs[..] == old(regs[..])
    {
      hide Present, BottomFrames, TopFrames, Granted, ZonesOf, Layout.Base, Layout.Top, Layout.Size, Layout.RegionIdx,
           Layout.Last, Layout.MaxMem, Layout.VaOffset;
      if newBrk == 0 {
        return Moved(brk);
      }
      Shape(c);
      if newBrk >= c.MaxMem() {
        return NoMemory;
      }
      GuardMeaning(c, newBrk, tbrk);
      if RoundDown(c.GvaToGpa(newBrk), GIB) >= RoundDown(c.GvaToGpa(tbrk), GIB) {
        return NoMemory;
      }
      ghost var was := regs[..];
      var ok := MoveBrk(newBrk, host);
      if !ok {
        SlotsSame(c, was, regs[..], c.RegionIdx(brk - 1), c.RegionIdx(Tp()));
      }
      r := if ok then Moved(brk) else NoMemory;
    }

    // one round of the growing loop of km_mem_tbrk
    method ClaimTop(idx: int, granted: bool, ghost bi: int, ghost tp: nat) returns (ok: bool)
      requires Shaped() && 1 <= idx < c.Last() && 0 <= bi <= idx && GIB <= c.Base(idx)
      requires MovingTop(c, Snap(), regs[..], bi, idx + 1, brk, tp, tp)
      modifies regs, pdpt0, pdpt2, pd2
      ensures ok == (idx == bi || granted)
      ensures MovingTop(c, Snap(), regs[..], bi, if ok then idx else idx + 1, brk, tp, tp)
      ensures SameBits(old(pd2[..]), pd2[..]) && OtherSlotsKept()
    {
      ghost var t, was := Snap(), regs[..];
      RegionsTile(c, idx);
      if regs[idx].Allocated() {
        SetHierarchy(idx, regs[idx], true);
        ok := true;
        assert regs[..] == was[idx := Plugged(c, idx)];
      } else {
        ok := AllocRegion(idx, true, granted);
      }
      if ok {
        ClaimTopKeeps(c, t, Snap(), was, bi, idx, brk, tp, tp);
      }
    }

    // one round of the freeing loop of km_mem_tbrk
    method ReleaseTop(idx: int, brkIdx: int, ghost lo: nat, ghost tp: nat) returns (ghost lo': nat)
      requires Shaped() && 0 <= brkIdx <= idx < c.Last() && 1 <= idx && GIB <= c.Base(idx)
      requires brk <= c.Top(brkIdx) <= c.MaxMem() - GIB
      requires MovingTop(c, Snap(), regs[..], brkIdx, idx, brk, lo, tp)
      modifies regs, pdpt0, pdpt2, pd2
      ensures lo' == if brkIdx < idx then Max(lo, c.Top(idx)) else lo
      ensures MovingTop(c, Snap(), regs[..], brkIdx, idx + 1, brk, lo', tp)
      ensures forall i :: 0 <= i < 511 && c.Top(idx) <= ZonesOf(c).LastGb(i) ==> pd2[i].p == old(pd2[i].p)
      ensures OtherSlotsKept()
    {
      ghost var t, was := Snap(), regs[..];
      lo' := lo;
      if idx > brkIdx { // don't free a shared slot
        FreeRegion(idx, true);
        lo' := Max(lo, c.Top(idx));
        ReleaseTopKeeps(c, t, Snap(), was, brkIdx, idx, brk, lo, tp);
      } else {
        LeaveSharedTop(c, t, was, brkIdx, idx, brk, lo, tp);
      }
    }

    // the growing loop of km_mem_tbrk
    method GrowTop(newTbrk: nat, host: int -> bool, ghost tp: nat, ghost newTp: nat) returns (idx: int, ok: bool)
      requires Shaped() && Breaks(ZonesOf(c), brk, tp) && Breaks(ZonesOf(c), brk, newTp)
      requires c.GvaToGpa(tbrk) == tp && newTbrk == newTp + c.VaOffset()
      requires MovingTop(c, Snap(), regs[..], c.RegionIdx(brk - 1), c.RegionIdx(tp), brk, tp, tp)
      modifies regs, pdpt0, pdpt2, pd2
      ensures ok <==> Granted(host, c.RegionIdx(newTp) - 1, c.RegionIdx(tp) - 1, c.RegionIdx(brk - 1))
      ensures Min(c.RegionIdx(tp), c.RegionIdx(newTp)) <= idx <= c.RegionIdx(tp)
      ensures ok ==> idx == Min(c.RegionIdx(tp), c.RegionIdx(newTp))
      ensures MovingTop(c, Snap(), regs[..], c.RegionIdx(brk - 1), idx, brk, tp, tp)
      ensures SameBits(old(pd2[..]), pd2[..]) && OtherSlotsKept()
    {
      hide MovingTop, ZonesOf, Layout.Base, Layout.Top, Layout.Size, Layout.RegionIdx, Layout.Last, Layout.MaxMem,
           Layout.VaOffset;
      ghost var bi, tNew := c.RegionIdx(brk - 1), c.RegionIdx(newTp);
      idx, ok := c.RegionIdx(c.GvaToGpa(tbrk)), true;
      ghost var ti := idx;
      TopProgress(c, brk, tp, newTp, idx);
      var mBrk := Max(newTbrk, c.Base(idx) + c.VaOffset());
      while mBrk > newTbrk
        invariant Min(ti, tNew) <= idx <= ti && 0 <= bi <= idx <= c.Last() < KM_MEM_SLOTS
        invariant mBrk == Max(newTbrk, c.Base(idx) + c.VaOffset()) && (newTp < c.Base(idx) <==> tNew < idx)
        invariant Granted(host, idx - 1, ti - 1, bi)
        invariant MovingTop(c, Snap(), regs[..], bi, idx, brk, tp, tp)
        invariant SameBits(old(pd2[..]), pd2[..]) && OtherSlotsKept()
        decreases idx - tNew
      {
        TopProgress(c, brk, tp, newTp, idx - 1);
        idx := idx - 1;
        ok := ClaimTop(idx, host(idx), bi, tp);
        if !ok {
          idx := idx + 1;
          break;
        }
        mBrk := Max(newTbrk, c.Base(idx) + c.VaOffset());
      }
    }

    // the freeing loop of km_mem_tbrk
    method ShrinkTop(from: int, ghost tp: nat, target: nat) returns (ghost lo: nat)
      requires Shaped() && Breaks(ZonesOf(c), brk, tp) && Breaks(ZonesOf(c), brk, target)
      requires c.RegionIdx(brk - 1) <= from <= c.RegionIdx(target) <= c.Last() && 1 <= from && GIB <= c.Base(from)
      requires target < tp ==> from == c.RegionIdx(target)
      requires MovingTop(c, Snap(), regs[..], c.RegionIdx(brk - 1), from, brk, tp, tp)
      modifies regs, pdpt0, pdpt2, pd2
      ensures if target < tp then lo == tp else lo <= target
      ensures MovingTop(c, Snap(), regs[..], c.RegionIdx(brk - 1), c.RegionIdx(target), brk, lo, tp)
      ensures forall i :: 0 <= i < 511 && c.Base(c.RegionIdx(target)) <= ZonesOf(c).LastGb(i) ==>
                pd2[i].p == old(pd2[i].p)
      ensures OtherSlotsKept()
    {
      hide MovingTop, ZonesOf, Layout.Base, Layout.Top, Layout.Size, Layout.RegionIdx, Layout.Last, Layout.MaxMem,
           Layout.VaOffset;
      var brkIdx := c.RegionIdx(brk - 1);
      BreakRegions(c, brk, target);
      BreakRegions(c, brk, tp);
      var idx := from;
      lo := tp;
      while idx < c.RegionIdx(target)
        invariant from <= idx <= c.RegionIdx(target) && GIB <= c.Base(idx)
        invariant if target < tp then lo == tp else lo <= target
        invariant MovingTop(c, Snap(), regs[..], brkIdx, idx, brk, lo, tp)
        invariant forall i :: 0 <= i < 511 && c.Base(c.RegionIdx(target)) <= ZonesOf(c).LastGb(i) ==>
                    pd2[i].p == old(pd2[i].p)
        invariant OtherSlotsKept()
      {
        TopBelow(c, idx, c.RegionIdx(target));
        RegionsTile(c, idx);
        lo := ReleaseTop(idx, brkIdx, lo, tp);
        idx := idx + 1;
      }
    }

    // km_mem_tbrk past its checks
    method MoveTbrk(newTbrk: nat, host: int -> bool) returns (ok: bool)
      requires Valid() && c.VaOffset() < newTbrk <= c.TopVa() && c.GvaToGpa(tbrk) == Tp()
      requires Breaks(ZonesOf(c), brk, newTbrk - c.VaOffset())
      modifies `tbrk, regs, pdpt0, pdpt2, pd2
      ensures Valid() && OtherSlotsKept()
      ensures ok <==> Granted(host, c.RegionIdx(newTbrk - c.VaOffset()) - 1, c.RegionIdx(old(Tp())) - 1,
                              c.RegionIdx(brk - 1))
      ensures tbrk == if ok then newTbrk else old(tbrk)
      ensures old(TopExact()) ==> (TopExact() <==> !LeavesStale(ZonesOf(c), old(Tp()), Tp(), c.Base(c.RegionIdx(Tp()))))
    {
      hide Inv, MovingTop, Granted, ZonesOf, LeavesStale, Exact2M, FixTop, Layout.Base, Layout.Top, Layout.Size,
           Layout.RegionIdx, Layout.Last, Layout.MaxMem, Layout.VaOffset;
      ghost var tp, newTp, was := Tp(), newTbrk - c.VaOffset(), pd2[..];
      StartTop(c, Snap(), regs[..], brk, tp);
      var idx;
      idx, ok := GrowTop(newTbrk, host, tp, newTp);
      var target := if ok then newTbrk else tbrk;
      TopProgress(c, brk, tp, newTp, idx);
      ghost var lo := ShrinkTop(idx, tp, target - c.VaOffset());
      ghost var t := Snap();
      FixupTop(tbrk, target);
      SettleTop(c, t, Snap(), regs[..], brk, lo, tp, target - c.VaOffset());
      if Exact2M(ZonesOf(c), was, tp) {
        SettleExact(c, was, t, Snap(), regs[..], brk, lo, tp, target - c.VaOffset());
      }
      tbrk := target;
    }

    // km_mem_tbrk. A move the host refuses changes neither break nor slots. The 2MB entries stay
    // exact except for the moves LeavesStale describes.
    method Tbrk(newTbrk: nat, host: int -> bool) returns (r: Answer)
      requires Valid() && (newTbrk == 0 || newTbrk != c.VaOffset())
      modifies `tbrk, regs, pdpt0, pdpt2, pd2
      ensures Valid()
      ensures newTbrk == 0 ==> r == Moved(tbrk)
      ensures newTbrk != 0 ==> (r.Moved? <==>
          c.VaOffset() < newTbrk <= c.TopVa() && Breaks(ZonesOf(c), brk, newTbrk - c.VaOffset()) &&
          Granted(host, c.RegionIdx(newTbrk - c.VaOffset()) - 1, c.RegionIdx(old(Tp())) - 1, c.RegionIdx(brk - 1)))
      ensures newTbrk != 0 && r.Moved? ==> r == Moved(newTbrk) && tbrk == newTbrk
      ensures newTbrk == 0 || r.NoMemory? ==> tbrk == old(tbrk) && regs[..] == old(regs[..])
      ensures old(TopExact()) ==> (TopExact() <==> !LeavesStale(ZonesOf(c), old(Tp()), Tp(), c.Base(c.RegionIdx(Tp()))))
    {
      hide Inv, MovingTop, Granted, LeavesStale, Exact2M, ZonesOf, Layout.Base, Layout.Top, Layout.Size,
           Layout.RegionIdx, Layout.Last, Layout.MaxMem, Layout.VaOffset, Layout.GvaToGpa, Layout.TopVa, Breaks,
           RoundDown;
      StartTop(c, Snap(), regs[..], brk, Tp());
      BreakRange(c, brk, Tp());
      BreakRegions(c, brk, Tp());
      NotStale(ZonesOf(c), Tp(), c.Base(c.RegionIdx(Tp())));
      if newTbrk == 0 {
        return Moved(tbrk);
      }
      if c.TopVa() < newTbrk || newTbrk < c.VaOffset() {
        return NoMemory;
      }
      GuardMeaning(c, brk, tbrk);
      GuardMeaning(c, brk, newTbrk);
      if RoundDown(c.GvaToGpa(brk), GIB) >= RoundDown(c.GvaToGpa(newTbrk), GIB) {
        return NoMemory;
      }
      var ok := TryTbrk(newTbrk, host);
      r := if ok then Moved(tbrk) else NoMemory;
    }

    // a move that is refused leaves the slots as they were
    method TryTbrk(newTbrk: nat, host: int -> bool) returns (ok: bool)
      requires Valid() && c.VaOffset() < newTbrk <= c.TopVa() && c.GvaToGpa(tbrk) == Tp()
      requires Breaks(ZonesOf(c), brk, newTbrk - c.VaOffset())
      modifies `tbrk, regs, pdpt0, pdpt2, pd2
      ensures Valid()
      ensures ok <==> Granted(host, c.RegionIdx(newTbrk - c.VaOffset()) - 1, c.RegionIdx(old(Tp())) - 1,
                              c.RegionIdx(brk - 1))
      ensures tbrk == if ok then newTbrk else old(tbrk)
      ensures !ok ==> regs[..] == old(regs[..])
      ensures old(TopExact()) ==> (TopExact() <==> !LeavesStale(ZonesOf(c), old(Tp()), Tp(), c.Base(c.RegionIdx(Tp()))))
    {
      hide Inv, Slots, Granted, LeavesStale, Exact2M, ZonesOf, Layout.Base, Layout.Top, Layout.Size, Layout.RegionIdx,
           Layout.Last, Layout.MaxMem, Layout.VaOffset, Layout.GvaToGpa, Layout.TopVa, Breaks;
      BreakRange(c, brk, newTbrk - c.VaOffset());
      ghost var was := regs[..];
      InvSlots(c, Snap(), was, brk, Tp());
      ok := MoveTbrk(newTbrk, host);
      if !ok {
        InvSlots(c, Snap(), regs[..], brk, Tp());
        BreakRange(c, brk, Tp());
        SlotsSame(c, was, regs[..], c.RegionIdx(brk - 1), c.RegionIdx(Tp()));
      }
    }
  }

  datatype Call = BrkCall(newBrk: nat, host: int -> bool) | TbrkCall(newTbrk: nat, host: int -> bool)

  /** Arguments the source accepts; it aborts on the others. */
  predicate Acceptable(c: Layout, call: Call)
    requires c.Supported()
  {
    match call
    case BrkCall(b, _) => b == 0 || START <= b
    case TbrkCall(b, _) => b == 0 || b != c.VaOffset()
  }

  /** Every run of break calls from start-up, with any answers of the host, ends in the invariant. */
  method Run(layout: Layout, calls: seq<Call>) returns (m: Machine)
    requires layout.Supported() && forall k :: 0 <= k < |calls| ==> Acceptable(layout, calls[k])
    ensures m.c == layout && m.Valid()
  {
    hide Inv;
    m := new Machine(layout);
    m.MemInit();
    for k := 0 to |calls|
      invariant m.c == layout && m.Valid()
      invariant fresh(m) && fresh(m.Repr())
    {
      match calls[k] {
        case BrkCall(b, host) =>
          var _ := m.Brk(b, host);
        case TbrkCall(b, host) =>
          var _ := m.Tbrk(b, host);
      }
    }
  }

  /** A run after which entries below the top break are still present. */
  method StaleHappens() returns (m: Machine)
    ensures m.Valid() && !m.TopExact()
  {
    hide Inv, LeavesStale, Exact2M, ZonesOf, Breaks, Layout.Base, Layout.RegionIdx, Layout.VaOffset, Layout.TopVa;
    StaleMoves();
    m := new Machine(Layout(39, false, 0));
    m.MemInit();
    var first := m.Tbrk(300 * GIB + 800 * MIB, _ => true);
    assert first.Moved?;
    BreakRegions(m.c, m.brk, m.Tp());
    StaysExact(ZonesOf(m.c), 512 * GIB - START, m.Tp(), m.c.Base(m.c.RegionIdx(m.Tp())));
    var second := m.Tbrk(511 * GIB + 20 * MIB, _ => true);
    assert second.Moved?;
  }
}
