/** Guest page tables and the invariant that ties them to the two breaks (km/km_mem.c).

    A table entry keeps its present bit, its page-size bit and its frame number; the frame
    counts 1GB units in a 1GB leaf, 2MB units in a 2MB leaf and 4KB units in a pointer to the
    next table. The breaks are `brk` (first unusable byte of the bottom zone) and `tp`, the
    physical address of `tbrk` (first usable byte of the top zone).
 */
module PageTables {
  import opened Wrappers
  import opened Geometry

  const PT_ENTRIES: nat := 512

  // Physical page numbers of the tables, laid out from RSV_MEM_START (32 pages).
  const PDPT0_FRAME: nat := 33
  const PDPT1_FRAME: nat := 34
  const PDPT2_FRAME: nat := 35
  const PD0_FRAME: nat := 36
  const PD2_FRAME: nat := 38

  datatype Entry = Entry(p: bool, ps: bool, page: nat)

  const EMPTY: Entry := Entry(false, false, 0)

  datatype Tables = Tables(pml4: seq<Entry>, pdpt0: seq<Entry>, pdpt2: seq<Entry>, pd0: seq<Entry>, pd2: seq<Entry>) {
    predicate WellFormed() {
      |pml4| == |pdpt0| == |pdpt2| == |pd0| == |pd2| == PT_ENTRIES
    }
  }

  // vm_mem_regs entry; a region is allocated when its host address is set
  datatype MemReg = MemReg(userspaceAddr: nat, guestPhysAddr: nat, memorySize: nat) {
    predicate Allocated() {
      userspaceAddr != 0
    }
  }

  const UNPLUGGED: MemReg := MemReg(0, 0, 0)

  function PdeSlot(addr: nat): (r: nat)
    ensures r < PT_ENTRIES
  {
    addr / (2 * MIB) % 512
  }

  function PdpteSlot(addr: nat): (r: nat)
    ensures r < PT_ENTRIES
  {
    addr % (512 * GIB) / GIB
  }

  // ---- the hardware walk -------------------------------------------------------------

  function WalkPd(pd: seq<Entry>, gva: nat): Option<nat>
    requires |pd| == PT_ENTRIES
  {
    var e := pd[PdeSlot(gva)];
    if e.p && e.ps then Some(e.page * (2 * MIB) + gva % (2 * MIB)) else None
  }

  function WalkPdpt(t: Tables, pdpt: seq<Entry>, gva: nat): Option<nat>
    requires t.WellFormed() && |pdpt| == PT_ENTRIES
  {
    var e := pdpt[PdpteSlot(gva)];
    if !e.p then None
    else if e.ps then Some(e.page * GIB + gva % GIB)
    else if e.page == PD0_FRAME then WalkPd(t.pd0, gva)
    else if e.page == PD2_FRAME then WalkPd(t.pd2, gva)
    else None
  }

  /** What the processor finds for a 47-bit address. The third entry table (the vdso and
      km_guest window) is not part of the model and yields None. */
  function Walk(t: Tables, gva: nat): Option<nat>
    requires t.WellFormed() && gva < 256 * 512 * GIB
  {
    var e := t.pml4[gva / (512 * GIB)];
    if !e.p then None
    else if e.page == PDPT0_FRAME then WalkPdpt(t, t.pdpt0, gva)
    else if e.page == PDPT2_FRAME then WalkPdpt(t, t.pdpt2, gva)
    else None
  }

  // ---- geometry seen through the tables ------------------------------------------------

  /** The part of the layout the tables depend on: the number of 1GB slots of a zone, and
      whether the zones have a page-directory-pointer table each. Two zones that share a
      table have no slot in common, or (512 slots) are the same zone. */
  datatype Zones = Zones(gbs: nat, high: bool) {
    predicate Ok() {
      2 <= gbs <= 256 || gbs == 512
    }

    /** Distance between the 1GB slot of a top-zone address and that of its physical address. */
    function Shift(): int {
      512 - gbs
    }

    /** Physical address covered by entry `i` of pd2. */
    function LastGb(i: int): int {
      (gbs - 1) * GIB + i * (2 * MIB)
    }
  }

  function ZonesOf(c: Layout): (z: Zones)
    requires c.Supported()
    ensures z.Ok() && z.gbs * GIB == c.MaxMem() && z.high == c.high
  {
    Shape(c);
    Zones(c.MaxMem() / GIB, c.high)
  }

  lemma Units2M(k: int, r: nat)
    requires r < 2 * MIB
    ensures (k * (2 * MIB) + r) / (2 * MIB) == k && (k * (2 * MIB) + r) % (2 * MIB) == r
  {
  }

  lemma Units1G(k: int, r: nat)
    requires r < GIB
    ensures (k * GIB + r) / GIB == k && (k * GIB + r) % GIB == r
  {
  }

  lemma Units512G(k: int, r: nat)
    requires r < 512 * GIB
    ensures (k * (512 * GIB) + r) / (512 * GIB) == k && (k * (512 * GIB) + r) % (512 * GIB) == r
  {
  }

  lemma SplitAddress(x: nat, q: nat, r: nat)
    requires x == q * GIB + r && r < GIB
    ensures x / GIB == q && x % GIB == r
    ensures x % (2 * MIB) == r % (2 * MIB)
    ensures PdeSlot(x) == r / (2 * MIB)
    ensures PdpteSlot(x) == q % 512
    ensures x / (512 * GIB) == q / 512
  {
    var s, t := r / (2 * MIB), r % (2 * MIB);
    Units1G(q, r);
    Units2M(q * 512 + s, t);
    assert x == (q * 512 + s) * (2 * MIB) + t;
    Units512G(q / 512, q % 512 * GIB + r);
    assert x == q / 512 * (512 * GIB) + (q % 512 * GIB + r);
    Units1G(q % 512, r);
  }

  lemma TopOffset(c: Layout)
    requires c.Supported()
    ensures c.VaOffset() == (ZonesOf(c).Shift() + (if c.high then 255 * 512 else 0)) * GIB
  {
    Shape(c);
    hide Pow2, Log2;
  }

  lemma TopSlots(c: Layout, gpa: nat)
    requires c.Supported() && gpa < c.MaxMem()
    ensures PdpteSlot(gpa + c.VaOffset()) == gpa / GIB + ZonesOf(c).Shift() < 512
    ensures PdpteSlot(gpa) == gpa / GIB
    ensures PdeSlot(gpa + c.VaOffset()) == PdeSlot(gpa) == gpa % GIB / (2 * MIB)
    ensures (gpa + c.VaOffset()) / (512 * GIB) == if c.high then 255 else 0
    ensures (gpa + c.VaOffset()) % GIB == gpa % GIB
    ensures (gpa + c.VaOffset()) % (2 * MIB) == gpa % (2 * MIB)
  {
    var q, r := gpa / GIB, gpa % GIB;
    var z := ZonesOf(c);
    TopOffset(c);
    hide Layout.MaxMem, Layout.VaOffset, ZonesOf, PdpteSlot, PdeSlot;
    SplitAddress(gpa, q, r);
    SplitAddress(gpa + c.VaOffset(), q + z.Shift() + (if c.high then 255 * 512 else 0), r);
  }

  /** A region below 1GB lies wholly in the first or in the last 1GB; a larger one is made
      of whole 1GB units strictly between the two. */
  lemma RegionGrain(c: Layout, i: int)
    requires c.Supported() && 1 <= i < c.Last()
    ensures c.Base(i) % (2 * MIB) == 0 && c.Top(i) % (2 * MIB) == 0
    ensures c.Size(i) < GIB ==> c.Top(i) <= GIB || c.MaxMem() - GIB <= c.Base(i)
    ensures c.Size(i) >= GIB ==>
            c.Base(i) % GIB == 0 && c.Top(i) % GIB == 0 && GIB <= c.Base(i) && c.Top(i) <= c.MaxMem() - GIB
  {
    Shape(c);
    BaseTop(c, i);
    hide Layout.Base, Layout.Top, Layout.MaxMem, Pow2, Log2;
    if i <= c.MidIdx() {
      PowerGrain(i);
      PowerGap(i, c.k - 22);
      Grain(c.MaxMem(), Pow2(20 + i), Pow2(21 + i));
    } else {
      var m := c.Last() - i;
      PowerGrain(m);
      PowerGap(m, c.k - 22);
      Grain(c.MaxMem(), Pow2(20 + m), Pow2(21 + m));
    }
  }

  lemma Grain(max: nat, a: nat, b: nat)
    requires max % GIB == 0 && a % (2 * MIB) == 0 && b % (2 * MIB) == 0
    ensures (max - a) % (2 * MIB) == 0 && (max - b) % (2 * MIB) == 0
    ensures a % GIB == 0 ==> (max - a) % GIB == 0
    ensures b % GIB == 0 ==> (max - b) % GIB == 0
  {
    GrainOne(max, a);
    GrainOne(max, b);
  }

  lemma GrainOne(max: nat, a: nat)
    requires max % GIB == 0 && a % (2 * MIB) == 0
    ensures (max - a) % (2 * MIB) == 0
    ensures a % GIB == 0 ==> (max - a) % GIB == 0
  {
    var x, y := max / GIB, a / (2 * MIB);
    assert max - a == (512 * x - y) * (2 * MIB);
    Units2M(512 * x - y, 0);
    if a % GIB == 0 {
      assert max - a == (x - a / GIB) * GIB;
      Units1G(x - a / GIB, 0);
    }
  }

  lemma PowerGap(m: nat, mid: nat)
    requires m <= mid
    ensures Pow2(21 + m) <= Pow2(21 + mid)
    ensures Pow2(21 + m) == 2 * Pow2(20 + m)
  {
    Pow2Mono(21 + m, 21 + mid);
  }

  lemma PowerGrain(m: nat)
    requires m >= 1
    ensures Pow2(20 + m) % (2 * MIB) == 0 && Pow2(21 + m) % (2 * MIB) == 0
    ensures m <= 9 ==> Pow2(21 + m) <= GIB
    ensures m >= 10 ==> Pow2(20 + m) % GIB == 0 && Pow2(21 + m) % GIB == 0 && Pow2(20 + m) >= GIB
  {
    Pow2Values();
    PowerDivides(20 + m);
    PowerDivides(21 + m);
    if m >= 10 {
      Pow2Mono(30, 20 + m);
    } else {
      Pow2Mono(21 + m, 30);
    }
  }

  lemma PowerDivides(e: nat)
    requires e >= 21
    ensures Pow2(e) % (2 * MIB) == 0
    ensures e >= 30 ==> Pow2(e) % GIB == 0
  {
    Pow2Scaled(e - 20);
    assert Pow2(e) == 2 * MIB * Pow2(e - 21);
    Multiples(Pow2(e - 21));
    if e >= 30 {
      Pow2Scaled(e - 30);
      Multiples(Pow2(e - 30));
    }
    hide Pow2;
  }

  lemma Multiples(a: nat)
    ensures 2 * MIB * a % (2 * MIB) == 0 && GIB * a % GIB == 0
  {
  }

  // ---- what the table updates compute --------------------------------------------------

  // pde_2mb_set / pdpte_1g_set over `n` entries from `lo`: present bits are left alone
  function Framed(s: seq<Entry>, lo: nat, n: nat, page0: nat): seq<Entry> {
    seq(|s|, i requires 0 <= i < |s| => if lo <= i < lo + n then Entry(s[i].p, true, page0 + (i - lo)) else s[i])
  }

  function Blanked(s: seq<Entry>, lo: nat, n: nat): seq<Entry> {
    seq(|s|, i requires 0 <= i < |s| => if lo <= i < lo + n then EMPTY else s[i])
  }

  function Marked(s: seq<Entry>, from: int, to: int, b: bool): seq<Entry> {
    seq(|s|, i requires 0 <= i < |s| => if from <= i <= to then s[i].(p := b) else s[i])
  }

  // set_pml4_hierarchy
  function MapRange(c: Layout, t: Tables, base: nat, size: nat, upper: bool): Tables
    requires c.Supported()
  {
    if size < GIB then
      var lo, n, page0 := PdeSlot(base), size / (2 * MIB), base / (2 * MIB);
      if upper then t.(pd2 := Framed(t.pd2, lo, n, page0)) else t.(pd0 := Framed(t.pd0, lo, n, page0))
    else
      var lo := PdpteSlot(if upper then base + c.VaOffset() else base);
      var n, page0 := size / GIB, base / GIB;
      if upper && c.high then t.(pdpt2 := Framed(t.pdpt2, lo, n, page0)) else t.(pdpt0 := Framed(t.pdpt0, lo, n, page0))
  }

  // clear_pml4_hierarchy
  function UnmapRange(c: Layout, t: Tables, base: nat, size: nat, upper: bool): Tables
    requires c.Supported()
  {
    if size < GIB then
      var lo, n := PdeSlot(base), size / (2 * MIB);
      if upper then t.(pd2 := Blanked(t.pd2, lo, n)) else t.(pd0 := Blanked(t.pd0, lo, n))
    else
      var lo := PdpteSlot(if upper then base + c.VaOffset() else base);
      var n := size / GIB;
      if upper && c.high then t.(pdpt2 := Blanked(t.pdpt2, lo, n)) else t.(pdpt0 := Blanked(t.pdpt0, lo, n))
  }

  // fixup_bottom_page_tables
  function FixBottom(t: Tables, oldBrk: nat, newBrk: nat): Tables
    requires oldBrk > 0 && newBrk > 0
  {
    var old2m, new2m := Max(1, PdeSlot(oldBrk - 1)), Max(1, PdeSlot(newBrk - 1));
    var old1g, new1g := PdpteSlot(oldBrk - 1), PdpteSlot(newBrk - 1);
    if newBrk > oldBrk then
      var t1 := if old1g == 0 then t.(pd0 := Marked(t.pd0, old2m, if new1g == 0 then new2m else 511, true)) else t;
      if new1g > 0 then t1.(pdpt0 := Marked(t1.pdpt0, if old1g == 0 then 1 else old1g, new1g, true)) else t1
    else
      var t1 := if old1g > 0 then t.(pdpt0 := Marked(t.pdpt0, new1g + 1, old1g, false)) else t;
      if new1g == 0 then t1.(pd0 := Marked(t1.pd0, new2m + 1, if old1g == 0 then old2m else 511, false)) else t1
  }

  function MarkTop(z: Zones, t: Tables, from: int, to: int, b: bool): Tables {
    if z.high then t.(pdpt2 := Marked(t.pdpt2, from, to, b)) else t.(pdpt0 := Marked(t.pdpt0, from, to, b))
  }

  // fixup_top_page_tables; the two start slots are as in the source
  function FixTop(z: Zones, t: Tables, oldTbrk: nat, newTbrk: nat): Tables {
    var old2m, new2m := PdeSlot(oldTbrk), PdeSlot(newTbrk);
    var old1g, new1g := PdpteSlot(oldTbrk), PdpteSlot(newTbrk);
    if newTbrk < oldTbrk then
      var t1 := if old1g == 511 then t.(pd2 := Marked(t.pd2, if new1g == 511 then new2m else 0, old2m, true)) else t;
      if new1g < 511 then MarkTop(z, t1, new1g, old1g, true) else t1
    else
      var t1 := if old1g < 511 then MarkTop(z, t, old1g, new1g - 1, false) else t;
      if new1g == 511 then t1.(pd2 := Marked(t1.pd2, if old1g == 511 then 0 else old2m, new2m - 1, false)) else t1
  }

  function Max(a: int, b: int): int { if a > b then a else b }

  // ---- the invariant -------------------------------------------------------------------

  /** Entry `i` of pd0 meets [2MB, brk). */
  predicate Bot2M(i: int, brk: nat) {
    1 <= i && i * (2 * MIB) < brk
  }

  /** 1GB slot `s` meets [1GB, brk). */
  predicate Bot1G(s: int, brk: nat) {
    1 <= s && s * GIB < brk
  }

  /** Entry `i` of pd2 meets [tp, max - 2MB). */
  predicate Top2M(z: Zones, i: nat, tp: nat)
  {
    i < 511 && tp < z.LastGb(i) + 2 * MIB
  }

  /** 1GB slot `s` of the top zone meets [tp, max). */
  predicate Top1G(z: Zones, s: int, tp: nat)
  {
    tp / GIB + z.Shift() <= s
  }

  function TopPdpt(z: Zones, t: Tables): seq<Entry> {
    if z.high then t.pdpt2 else t.pdpt0
  }

  predicate WantPdpt0(z: Zones, s: int, brk: nat, tp: nat)
  {
    s == 0 || Bot1G(s, brk) || (!z.high && Top1G(z, s, tp))
  }

  /** Present bits lie between those for (brkLo, tpLo) and those for (brkHi, tpHi). With equal
      bounds they are exact, except that pd2 is only bounded from below. */
  predicate Present(z: Zones, t: Tables, brkLo: nat, tpLo: nat, brkHi: nat, tpHi: nat)
    requires t.WellFormed()
  {
    && (forall i :: 0 <= i < 512 ==> (Bot2M(i, brkLo) ==> t.pd0[i].p) && (t.pd0[i].p ==> Bot2M(i, brkHi)))
    && (forall s :: 0 <= s < 512 ==>
          (WantPdpt0(z, s, brkLo, tpLo) ==> t.pdpt0[s].p) && (t.pdpt0[s].p ==> WantPdpt0(z, s, brkHi, tpHi)))
    && (forall s :: 0 <= s < 512 ==>
          (z.high && Top1G(z, s, tpLo) ==> t.pdpt2[s].p) && (t.pdpt2[s].p ==> z.high && Top1G(z, s, tpHi)))
    && (forall i :: 0 <= i < 511 ==> (Top2M(z, i, tpLo) ==> t.pd2[i].p))
  }

  /** Bottom entries below physical address `end` hold the right frames. */
  predicate BottomFrames(t: Tables, end: int)
    requires t.WellFormed()
  {
    && t.pdpt0[0] == Entry(true, false, PD0_FRAME)
    && (forall i :: 1 <= i < 512 && i * (2 * MIB) < end ==> t.pd0[i].ps && t.pd0[i].page == i)
    && (forall s :: 1 <= s < 512 && s * GIB < end ==> t.pdpt0[s].ps && t.pdpt0[s].page == s)
  }

  /** Top entries from physical address `from` on hold the right frames, and no entry of pd2
      below `from` is present. */
  predicate TopFrames(z: Zones, t: Tables, from: int)
    requires t.WellFormed()
  {
    && TopPdpt(z, t)[511] == Entry(true, false, PD2_FRAME)
    && (forall i :: 0 <= i < 511 ==>
          (from <= z.LastGb(i) ==> t.pd2[i].ps && t.pd2[i].page == z.LastGb(i) / (2 * MIB)) &&
          (t.pd2[i].p ==> from <= z.LastGb(i)))
    && (forall s :: 0 <= s < 511 && z.Shift() <= s && from <= (s - z.Shift()) * GIB ==>
          TopPdpt(z, t)[s].ps && TopPdpt(z, t)[s].page == s - z.Shift())
  }

  predicate Roots(z: Zones, t: Tables)
    requires t.WellFormed()
  {
    && t.pml4[0] == Entry(true, false, PDPT0_FRAME)
    && t.pml4[1] == Entry(true, false, PDPT1_FRAME)
    && (forall i :: 2 <= i < 512 ==> t.pml4[i] == if z.high && i == 255 then Entry(true, false, PDPT2_FRAME) else EMPTY)
  }

  /** `brk` and the physical address of `tbrk` are kept out of one 1GB unit. */
  predicate Breaks(z: Zones, brk: nat, tp: nat)
  {
    START <= brk && tp <= z.gbs * GIB - START && brk / GIB < tp / GIB
  }
}
