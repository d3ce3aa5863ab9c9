/** How each page-table update moves the invariant of PageTables. */
module PageTableProofs {
  import opened Geometry
  import opened PageTables

  /** The shape RegionGrain gives every region. */
  predicate Grained(z: Zones, base: nat, top: nat) {
    && START <= base < top <= z.gbs * GIB - START
    && base % (2 * MIB) == 0 && top % (2 * MIB) == 0
    && (top - base < GIB ==> top <= GIB || (z.gbs - 1) * GIB <= base)
    && (top - base >= GIB ==> base % GIB == 0 && top % GIB == 0 && GIB <= base && top <= (z.gbs - 1) * GIB)
  }

  predicate SameBits(s: seq<Entry>, s': seq<Entry>) {
    |s| == |s'| && forall i :: 0 <= i < |s| ==> s[i].p == s'[i].p
  }

  predicate SamePresent(t: Tables, t': Tables) {
    SameBits(t.pd0, t'.pd0) && SameBits(t.pd2, t'.pd2) && SameBits(t.pdpt0, t'.pdpt0) && SameBits(t.pdpt2, t'.pdpt2)
  }

  lemma PresentSame(z: Zones, t: Tables, t': Tables, brkLo: nat, tpLo: nat, brkHi: nat, tpHi: nat)
    requires t.WellFormed() && t'.WellFormed() && SamePresent(t, t') && Present(z, t, brkLo, tpLo, brkHi, tpHi)
    ensures Present(z, t', brkLo, tpLo, brkHi, tpHi)
  {
  }

  /** Slots of the entries a region maps, as multiples of their unit. */
  lemma RangeSlots(c: Layout, base: nat, top: nat)
    requires c.Supported() && Grained(ZonesOf(c), base, top)
    ensures top - base < GIB && top <= GIB ==>
              PdeSlot(base) == base / (2 * MIB) && base / (2 * MIB) + (top - base) / (2 * MIB) == top / (2 * MIB) <= 512
    ensures var last := (ZonesOf(c).gbs - 1) * GIB;
            top - base < GIB && last <= base ==>
              PdeSlot(base) == (base - last) / (2 * MIB) &&
              PdeSlot(base) + (top - base) / (2 * MIB) == (top - last) / (2 * MIB) <= 511
    ensures top - base >= GIB ==>
              PdpteSlot(base) == base / GIB && base / GIB + (top - base) / GIB == top / GIB < ZonesOf(c).gbs &&
              PdpteSlot(base + c.VaOffset()) == base / GIB + ZonesOf(c).Shift()
  {
    var q := ZonesOf(c).gbs - 1;
    hide ZonesOf, Layout.VaOffset, Layout.MaxMem, PdeSlot, PdpteSlot;
    if top - base < GIB {
      if q * GIB <= base {
        SpanLast(q, base, top);
      }
      if top <= GIB {
        SpanFirst(base, top);
      }
    } else {
      TopSlots(c, base);
      Span1G(q, base, top);
    }
  }

  lemma Span2M(base: nat, top: nat) returns (a: nat, b: nat)
    requires base % (2 * MIB) == 0 && top % (2 * MIB) == 0 && base < top
    ensures base == a * (2 * MIB) && top == b * (2 * MIB) && a == base / (2 * MIB) && b == top / (2 * MIB)
    ensures (top - base) / (2 * MIB) == b - a
  {
    a, b := base / (2 * MIB), top / (2 * MIB);
    assert top - base == (b - a) * (2 * MIB);
    Units2M(b - a, 0);
  }

  lemma SpanFirst(base: nat, top: nat)
    requires base % (2 * MIB) == 0 && top % (2 * MIB) == 0 && base < top <= GIB
    ensures PdeSlot(base) == base / (2 * MIB) && base / (2 * MIB) + (top - base) / (2 * MIB) == top / (2 * MIB) <= 512
  {
    var a, b := Span2M(base, top);
  }

  lemma SpanLast(q: nat, base: nat, top: nat)
    requires base % (2 * MIB) == 0 && top % (2 * MIB) == 0 && q * GIB <= base < top <= (q + 1) * GIB - START
    ensures PdeSlot(base) == (base - q * GIB) / (2 * MIB)
    ensures PdeSlot(base) + (top - base) / (2 * MIB) == (top - q * GIB) / (2 * MIB) <= 511
  {
    var a, b := Span2M(base, top);
    assert base - q * GIB == (a - 512 * q) * (2 * MIB) && top - q * GIB == (b - 512 * q) * (2 * MIB);
    Units2M(a - 512 * q, 0);
    Units2M(b - 512 * q, 0);
    hide PdeSlot;
    SplitAddress(base, q, base - q * GIB);
  }

  lemma Span1G(q: nat, base: nat, top: nat)
    requires base % GIB == 0 && top % GIB == 0 && base < top <= q * GIB
    ensures base / GIB + (top - base) / GIB == top / GIB <= q
  {
    var a, b := base / GIB, top / GIB;
    assert top - base == (b - a) * GIB;
    Units1G(b - a, 0);
  }

  // ---- mapping a region ------------------------------------------------------------------

  lemma FrameBottom2M(t: Tables, lo: nat, hi: nat)
    requires t.WellFormed() && 1 <= lo <= hi <= 512 && BottomFrames(t, lo * (2 * MIB))
    ensures BottomFrames(t.(pd0 := Framed(t.pd0, lo, hi - lo, lo)), hi * (2 * MIB))
  {
  }

  lemma FrameBottom1G(z: Zones, t: Tables, lo: nat, hi: nat, from: int)
    requires t.WellFormed() && z.Ok() && 1 <= lo <= hi < z.gbs && BottomFrames(t, lo * GIB)
    requires TopFrames(z, t, from) && (from == lo * GIB || hi * GIB <= from)
    ensures var t' := t.(pdpt0 := Framed(t.pdpt0, lo, hi - lo, lo));
            BottomFrames(t', hi * GIB) && TopFrames(z, t', from)
  {
  }

  lemma FramedBits(s: seq<Entry>, lo: nat, n: nat, page0: nat)
    ensures SameBits(s, Framed(s, lo, n, page0))
  {
  }

  /** The range updates of a region in bottom position, with the slots computed. */
  lemma BottomRange2M(c: Layout, z: Zones, t: Tables, base: nat, top: nat) returns (lo: nat, hi: nat)
    requires c.Supported() && z == ZonesOf(c) && Grained(z, base, top) && top <= (z.gbs - 1) * GIB && top - base < GIB
    ensures 1 <= lo <= hi <= 512 && base == lo * (2 * MIB) && top == hi * (2 * MIB)
    ensures MapRange(c, t, base, top - base, false) == t.(pd0 := Framed(t.pd0, lo, hi - lo, lo))
    ensures UnmapRange(c, t, base, top - base, false) == t.(pd0 := Blanked(t.pd0, lo, hi - lo))
  {
    RangeSlots(c, base, top);
    lo, hi := base / (2 * MIB), top / (2 * MIB);
  }

  lemma BottomRange1G(c: Layout, z: Zones, t: Tables, base: nat, top: nat) returns (lo: nat, hi: nat)
    requires c.Supported() && z == ZonesOf(c) && Grained(z, base, top) && top - base >= GIB
    ensures 1 <= lo <= hi < z.gbs && base == lo * GIB && top == hi * GIB
    ensures MapRange(c, t, base, top - base, false) == t.(pdpt0 := Framed(t.pdpt0, lo, hi - lo, lo))
    ensures UnmapRange(c, t, base, top - base, false) == t.(pdpt0 := Blanked(t.pdpt0, lo, hi - lo))
  {
    RangeSlots(c, base, top);
    lo, hi := base / GIB, top / GIB;
  }

  lemma MapBottom(c: Layout, z: Zones, t: Tables, t': Tables, base: nat, top: nat, from: int)
    requires c.Supported() && z == ZonesOf(c)
    requires t.WellFormed() && Grained(z, base, top) && top <= (z.gbs - 1) * GIB
    requires t' == MapRange(c, t, base, top - base, false)
    requires BottomFrames(t, base) && TopFrames(z, t, from) && (from == base || top <= from)
    ensures t'.WellFormed() && SamePresent(t, t') && t'.pml4 == t.pml4 && t'.pd2 == t.pd2
    ensures BottomFrames(t', top) && TopFrames(z, t', from)
    ensures Roots(z, t) ==> Roots(z, t')
  {
    if top - base < GIB {
      var lo, hi := BottomRange2M(c, z, t, base, top);
      FrameBottom2M(t, lo, hi);
      FramedBits(t.pd0, lo, hi - lo, lo);
    } else {
      var lo, hi := BottomRange1G(c, z, t, base, top);
      FrameBottom1G(z, t, lo, hi, from);
      FramedBits(t.pdpt0, lo, hi - lo, lo);
    }
  }

  lemma FrameTop2M(z: Zones, t: Tables, lo: nat, hi: nat)
    requires t.WellFormed() && z.Ok() && lo <= hi <= 511 && TopFrames(z, t, z.LastGb(hi))
    ensures TopFrames(z, t.(pd2 := Framed(t.pd2, lo, hi - lo, (z.gbs - 1) * 512 + lo)), z.LastGb(lo))
  {
  }

  lemma FrameTop1G(z: Zones, t: Tables, lo: nat, hi: nat, end: int)
    requires t.WellFormed() && z.Ok() && 1 <= lo <= hi < z.gbs && TopFrames(z, t, hi * GIB)
    requires BottomFrames(t, end) && (end == hi * GIB || end <= lo * GIB)
    ensures var t' := if z.high then t.(pdpt2 := Framed(t.pdpt2, lo + z.Shift(), hi - lo, lo))
                      else t.(pdpt0 := Framed(t.pdpt0, lo + z.Shift(), hi - lo, lo));
            BottomFrames(t', end) && TopFrames(z, t', lo * GIB)
  {
  }

  /** The range updates of a region in top position, with the slots computed. */
  lemma TopRange2M(c: Layout, z: Zones, t: Tables, base: nat, top: nat) returns (lo: nat, hi: nat)
    requires c.Supported() && z == ZonesOf(c) && Grained(z, base, top) && GIB <= base && top - base < GIB
    ensures lo <= hi <= 511 && base == z.LastGb(lo) && top == z.LastGb(hi)
    ensures MapRange(c, t, base, top - base, true) == t.(pd2 := Framed(t.pd2, lo, hi - lo, (z.gbs - 1) * 512 + lo))
    ensures UnmapRange(c, t, base, top - base, true) == t.(pd2 := Blanked(t.pd2, lo, hi - lo))
  {
    RangeSlots(c, base, top);
    lo, hi := SplitLast(z.gbs - 1, base), SplitLast(z.gbs - 1, top);
  }

  /** A 2MB-aligned address of the 1GB unit `q`, split into unit and page. */
  function SplitLast(q: nat, x: nat): (i: nat)
    requires q * GIB <= x && x % (2 * MIB) == 0
    ensures x == q * GIB + i * (2 * MIB) && x / (2 * MIB) == q * 512 + i
  {
    (x - q * GIB) / (2 * MIB)
  }

  lemma TopRange1G(c: Layout, z: Zones, t: Tables, base: nat, top: nat) returns (lo: nat, hi: nat)
    requires c.Supported() && z == ZonesOf(c) && Grained(z, base, top) && top - base >= GIB
    ensures 1 <= lo <= hi < z.gbs && base == lo * GIB && top == hi * GIB
    ensures MapRange(c, t, base, top - base, true) ==
            if z.high then t.(pdpt2 := Framed(t.pdpt2, lo + z.Shift(), hi - lo, lo))
            else t.(pdpt0 := Framed(t.pdpt0, lo + z.Shift(), hi - lo, lo))
    ensures UnmapRange(c, t, base, top - base, true) ==
            if z.high then t.(pdpt2 := Blanked(t.pdpt2, lo + z.Shift(), hi - lo))
            else t.(pdpt0 := Blanked(t.pdpt0, lo + z.Shift(), hi - lo))
  {
    RangeSlots(c, base, top);
    lo, hi := base / GIB, top / GIB;
  }

  lemma MapTop(c: Layout, z: Zones, t: Tables, t': Tables, base: nat, top: nat, end: int)
    requires c.Supported() && z == ZonesOf(c)
    requires t.WellFormed() && Grained(z, base, top) && GIB <= base
    requires t' == MapRange(c, t, base, top - base, true)
    requires TopFrames(z, t, top) && BottomFrames(t, end) && (end == top || end <= base)
    ensures t'.WellFormed() && SamePresent(t, t') && t'.pml4 == t.pml4 && t'.pd0 == t.pd0
    ensures BottomFrames(t', end) && TopFrames(z, t', base)
    ensures Roots(z, t) ==> Roots(z, t')
  {
    if top - base < GIB {
      MapTop2M(c, z, t, t', base, top, end);
    } else {
      MapTop1G(c, z, t, t', base, top, end);
    }
  }

  lemma MapTop2M(c: Layout, z: Zones, t: Tables, t': Tables, base: nat, top: nat, end: int)
    requires c.Supported() && z == ZonesOf(c)
    requires t.WellFormed() && Grained(z, base, top) && GIB <= base && top - base < GIB
    requires t' == MapRange(c, t, base, top - base, true)
    requires TopFrames(z, t, top) && BottomFrames(t, end)
    ensures t'.WellFormed() && SamePresent(t, t') && t'.pml4 == t.pml4 && t'.pd0 == t.pd0
    ensures BottomFrames(t', end) && TopFrames(z, t', base)
    ensures Roots(z, t) ==> Roots(z, t')
  {
    hide TopFrames, MapRange, ZonesOf, Framed;
    var lo, hi := TopRange2M(c, z, t, base, top);
    FrameTop2M(z, t, lo, hi);
    FramedBits(t.pd2, lo, hi - lo, (z.gbs - 1) * 512 + lo);
  }

  lemma MapTop1G(c: Layout, z: Zones, t: Tables, t': Tables, base: nat, top: nat, end: int)
    requires c.Supported() && z == ZonesOf(c)
    requires t.WellFormed() && Grained(z, base, top) && GIB <= base && top - base >= GIB
    requires t' == MapRange(c, t, base, top - base, true)
    requires TopFrames(z, t, top) && BottomFrames(t, end) && (end == top || end <= base)
    ensures t'.WellFormed() && SamePresent(t, t') && t'.pml4 == t.pml4 && t'.pd0 == t.pd0
    ensures BottomFrames(t', end) && TopFrames(z, t', base)
    ensures Roots(z, t) ==> Roots(z, t')
  {
    hide TopFrames, BottomFrames, MapRange, ZonesOf;
    var lo, hi := TopRange1G(c, z, t, base, top);
    FrameTop1G(z, t, lo, hi, end);
    FramedBits(TopPdpt(z, t), lo + z.Shift(), hi - lo, lo);
  }

  // ---- unmapping a region ----------------------------------------------------------------

  lemma BlankBottom2M(z: Zones, t: Tables, lo: nat, hi: nat, brkLo: nat, brkHi: nat, tp: nat)
    requires t.WellFormed() && 1 <= lo <= hi <= 512
    requires BottomFrames(t, hi * (2 * MIB)) && Present(z, t, brkLo, tp, brkHi, tp)
    ensures var t' := t.(pd0 := Blanked(t.pd0, lo, hi - lo));
            BottomFrames(t', lo * (2 * MIB)) && Present(z, t', Min(brkLo, lo * (2 * MIB)), tp, brkHi, tp)
  {
  }

  lemma BlankBottom1G(z: Zones, t: Tables, lo: nat, hi: nat, from: int, brkLo: nat, brkHi: nat, tp: nat)
    requires t.WellFormed() && z.Ok() && 1 <= lo <= hi < z.gbs
    requires BottomFrames(t, hi * GIB) && TopFrames(z, t, from) && hi * GIB <= from <= tp
    requires Present(z, t, brkLo, tp, brkHi, tp)
    ensures var t' := t.(pdpt0 := Blanked(t.pdpt0, lo, hi - lo));
            BottomFrames(t', lo * GIB) && TopFrames(z, t', from) && Present(z, t', Min(brkLo, lo * GIB), tp, brkHi, tp)
  {
  }

  function Min(a: int, b: int): int { if a < b then a else b }

  lemma UnmapBottom(c: Layout, z: Zones, t: Tables, t': Tables, base: nat, top: nat, from: int, brkLo: nat, brkHi: nat,
                    tp: nat)
    requires c.Supported() && z == ZonesOf(c)
    requires t.WellFormed() && Grained(z, base, top) && top <= from <= tp && top <= (z.gbs - 1) * GIB
    requires t' == UnmapRange(c, t, base, top - base, false)
    requires BottomFrames(t, top) && TopFrames(z, t, from) && Present(z, t, brkLo, tp, brkHi, tp)
    ensures t'.WellFormed() && t'.pml4 == t.pml4 && t'.pd2 == t.pd2 && (base == START ==> !t'.pd0[1].p)
    ensures BottomFrames(t', base) && TopFrames(z, t', from) && Present(z, t', Min(brkLo, base), tp, brkHi, tp)
    ensures Roots(z, t) ==> Roots(z, t')
  {
    if top - base < GIB {
      var lo, hi := BottomRange2M(c, z, t, base, top);
      BlankBottom2M(z, t, lo, hi, brkLo, brkHi, tp);
    } else {
      var lo, hi := BottomRange1G(c, z, t, base, top);
      BlankBottom1G(z, t, lo, hi, from, brkLo, brkHi, tp);
    }
  }

  lemma BlankTop2MFrames(z: Zones, t: Tables, lo: nat, hi: nat)
    requires t.WellFormed() && z.Ok() && lo <= hi <= 511 && TopFrames(z, t, z.LastGb(lo))
    ensures TopFrames(z, t.(pd2 := Blanked(t.pd2, lo, hi - lo)), z.LastGb(hi))
  {
  }

  lemma BlankTop2M(z: Zones, t: Tables, lo: nat, hi: nat, brk: nat, tpLo: nat, tpHi: nat)
    requires t.WellFormed() && z.Ok() && lo <= hi <= 511
    requires TopFrames(z, t, z.LastGb(lo)) && Present(z, t, brk, tpLo, brk, tpHi)
    ensures var t' := t.(pd2 := Blanked(t.pd2, lo, hi - lo));
            TopFrames(z, t', z.LastGb(hi)) && Present(z, t', brk, Max(tpLo, z.LastGb(hi)), brk, tpHi)
  {
    BlankTop2MFrames(z, t, lo, hi);
    hide TopFrames;
  }

  lemma BlankTop1G(z: Zones, t: Tables, lo: nat, hi: nat, end: int, brk: nat, tpLo: nat, tpHi: nat)
    requires t.WellFormed() && z.Ok() && 1 <= lo <= hi < z.gbs
    requires TopFrames(z, t, lo * GIB) && BottomFrames(t, end) && brk <= end <= lo * GIB
    requires Present(z, t, brk, tpLo, brk, tpHi)
    ensures var t' := if z.high then t.(pdpt2 := Blanked(t.pdpt2, lo + z.Shift(), hi - lo))
                      else t.(pdpt0 := Blanked(t.pdpt0, lo + z.Shift(), hi - lo));
            BottomFrames(t', end) && TopFrames(z, t', hi * GIB) && Present(z, t', brk, Max(tpLo, hi * GIB), brk, tpHi)
  {
  }

  lemma UnmapTop(c: Layout, z: Zones, t: Tables, t': Tables, base: nat, top: nat, end: int, brk: nat, tpLo: nat,
                 tpHi: nat)
    requires c.Supported() && z == ZonesOf(c)
    requires t.WellFormed() && Grained(z, base, top) && GIB <= base && brk <= end <= base
    requires t' == UnmapRange(c, t, base, top - base, true)
    requires TopFrames(z, t, base) && BottomFrames(t, end) && Present(z, t, brk, tpLo, brk, tpHi)
    ensures t'.WellFormed() && t'.pml4 == t.pml4 && t'.pd0 == t.pd0
    ensures BottomFrames(t', end) && TopFrames(z, t', top) && Present(z, t', brk, Max(tpLo, top), brk, tpHi)
    ensures forall i :: 0 <= i < 511 && top <= z.LastGb(i) ==> t'.pd2[i].p == t.pd2[i].p
    ensures Roots(z, t) ==> Roots(z, t')
  {
    if top - base < GIB {
      var lo, hi := TopRange2M(c, z, t, base, top);
      BlankTop2M(z, t, lo, hi, brk, tpLo, tpHi);
    } else {
      var lo, hi := TopRange1G(c, z, t, base, top);
      BlankTop1G(z, t, lo, hi, end, brk, tpLo, tpHi);
    }
  }

  // ---- present bits of the bottom zone -----------------------------------------------------

  /** Last 2MB entry and last 1GB slot the bottom zone reaches, without the wrap of a slot number. */
  function Reach2M(brk: nat): int { Max(1, (brk - 1) / (2 * MIB)) }
  function Reach1G(brk: nat): int { (brk - 1) / GIB }

  lemma SmallSlots(x: nat)
    requires x < 512 * GIB
    ensures PdpteSlot(x) == x / GIB
    ensures x < GIB ==> PdeSlot(x) == x / (2 * MIB) < 512
    ensures x >= GIB ==> x / (2 * MIB) >= 512
  {
  }

  lemma NoMark(s: seq<Entry>, from: int, to: int, b: bool)
    requires to < from || |s| <= from || to < 0
    ensures Marked(s, from, to, b) == s
  {
  }

  lemma MarkedCut(s: seq<Entry>, from: int, to: int, b: bool)
    requires |s| == 512 && to >= 511
    ensures Marked(s, from, to, b) == Marked(s, from, 511, b)
  {
  }

  lemma FixBottomGrow(t: Tables, oldBrk: nat, newBrk: nat)
    requires t.WellFormed() && START <= oldBrk < newBrk <= 512 * GIB
    ensures FixBottom(t, oldBrk, newBrk) ==
            t.(pd0 := Marked(t.pd0, Reach2M(oldBrk), Reach2M(newBrk), true),
               pdpt0 := Marked(t.pdpt0, Max(1, Reach1G(oldBrk)), Reach1G(newBrk), true))
  {
    SmallSlots(oldBrk - 1);
    SmallSlots(newBrk - 1);
    if Reach1G(oldBrk) > 0 {
      NoMark(t.pd0, Reach2M(oldBrk), Reach2M(newBrk), true);
    } else if Reach1G(newBrk) > 0 {
      MarkedCut(t.pd0, Reach2M(oldBrk), Reach2M(newBrk), true);
    }
    if Reach1G(newBrk) == 0 {
      NoMark(t.pdpt0, 1, 0, true);
    }
  }

  lemma FixBottomShrink(t: Tables, oldBrk: nat, newBrk: nat)
    requires t.WellFormed() && START <= newBrk <= oldBrk <= 512 * GIB
    ensures FixBottom(t, oldBrk, newBrk) ==
            t.(pd0 := Marked(t.pd0, Reach2M(newBrk) + 1, Reach2M(oldBrk), false),
               pdpt0 := Marked(t.pdpt0, Reach1G(newBrk) + 1, Reach1G(oldBrk), false))
  {
    SmallSlots(oldBrk - 1);
    SmallSlots(newBrk - 1);
    if Reach1G(newBrk) > 0 {
      NoMark(t.pd0, Reach2M(newBrk) + 1, Reach2M(oldBrk), false);
    } else if Reach1G(oldBrk) > 0 {
      MarkedCut(t.pd0, Reach2M(newBrk) + 1, Reach2M(oldBrk), false);
    }
    if Reach1G(oldBrk) == 0 {
      NoMark(t.pdpt0, Reach1G(newBrk) + 1, Reach1G(oldBrk), false);
    }
  }

  lemma FixBottomFrames(z: Zones, t: Tables, oldBrk: nat, newBrk: nat, end: int, from: int, tp: nat)
    requires t.WellFormed() && z.Ok() && Breaks(z, oldBrk, tp) && Breaks(z, newBrk, tp)
    requires BottomFrames(t, end) && TopFrames(z, t, from)
    ensures var t' := FixBottom(t, oldBrk, newBrk);
            t'.WellFormed() && BottomFrames(t', end) && TopFrames(z, t', from)
    ensures Roots(z, t) ==> Roots(z, FixBottom(t, oldBrk, newBrk))
  {
    if newBrk > oldBrk {
      FixBottomGrow(t, oldBrk, newBrk);
    } else {
      FixBottomShrink(t, oldBrk, newBrk);
    }
  }

  lemma BotReach(brk: nat)
    requires START <= brk
    ensures forall i :: Bot2M(i, brk) <==> 1 <= i <= Reach2M(brk) && brk > START
    ensures forall s :: Bot1G(s, brk) <==> 1 <= s <= Reach1G(brk)
  {
  }

  lemma GrowExact(z: Zones, t: Tables, oldBrk: nat, newBrk: nat, tp: nat)
    requires t.WellFormed() && START <= oldBrk < newBrk && Present(z, t, oldBrk, tp, oldBrk, tp)
    ensures Present(z, t.(pd0 := Marked(t.pd0, Reach2M(oldBrk), Reach2M(newBrk), true),
                          pdpt0 := Marked(t.pdpt0, Max(1, Reach1G(oldBrk)), Reach1G(newBrk), true)),
                    newBrk, tp, newBrk, tp)
  {
    BotReach(oldBrk);
    BotReach(newBrk);
  }

  lemma ShrinkExact(z: Zones, t: Tables, brkLo: nat, oldBrk: nat, newBrk: nat, tp: nat)
    requires t.WellFormed() && START <= newBrk <= oldBrk && newBrk <= brkLo && Breaks(z, oldBrk, tp)
    requires Present(z, t, brkLo, tp, oldBrk, tp) && (newBrk == START ==> !t.pd0[1].p)
    requires z.Ok()
    ensures Present(z, t.(pd0 := Marked(t.pd0, Reach2M(newBrk) + 1, Reach2M(oldBrk), false),
                          pdpt0 := Marked(t.pdpt0, Reach1G(newBrk) + 1, Reach1G(oldBrk), false)),
                    newBrk, tp, newBrk, tp)
  {
    BotReach(brkLo);
    BotReach(oldBrk);
    BotReach(newBrk);
  }

  /** After the fix-up the bottom present bits are exactly those of the new break. */
  lemma FixBottomExact(z: Zones, t: Tables, brkLo: nat, oldBrk: nat, newBrk: nat, tp: nat)
    requires t.WellFormed() && z.Ok() && Breaks(z, oldBrk, tp) && Breaks(z, newBrk, tp)
    requires Present(z, t, brkLo, tp, oldBrk, tp)
    requires if newBrk > oldBrk then brkLo == oldBrk else newBrk <= brkLo
    requires newBrk == START ==> !t.pd0[1].p
    ensures var t' := FixBottom(t, oldBrk, newBrk);
            t'.WellFormed() && Present(z, t', newBrk, tp, newBrk, tp)
  {
    if newBrk > oldBrk {
      FixBottomGrow(t, oldBrk, newBrk);
      GrowExact(z, t, oldBrk, newBrk, tp);
    } else {
      FixBottomShrink(t, oldBrk, newBrk);
      ShrinkExact(z, t, brkLo, oldBrk, newBrk, tp);
    }
  }

  // ---- present bits of the top zone --------------------------------------------------------

  /** Entry of pd2 that covers `tp` (negative below the last 1GB), and its 1GB slot. */
  function At2M(z: Zones, tp: nat): int { tp / (2 * MIB) - (z.gbs - 1) * 512 }
  function At1G(z: Zones, tp: nat): int { tp / GIB + z.Shift() }

  lemma TopReach(z: Zones, tp: nat)
    requires z.Ok() && tp <= z.gbs * GIB - START
    ensures forall i: nat :: Top2M(z, i, tp) <==> i < 511 && At2M(z, tp) <= i
    ensures At1G(z, tp) <= 511 && At2M(z, tp) <= 511
    ensures At1G(z, tp) == 511 <==> 0 <= At2M(z, tp)
  {
    forall i: nat
      ensures Top2M(z, i, tp) <==> i < 511 && At2M(z, tp) <= i
    {
      Reached(z.gbs - 1, i, tp);
    }
  }

  lemma Reached(q: nat, i: nat, tp: nat)
    ensures tp < q * GIB + i * (2 * MIB) + 2 * MIB <==> tp / (2 * MIB) - q * 512 <= i
  {
  }

  lemma TopSlot(c: Layout, z: Zones, tp: nat)
    requires c.Supported() && z == ZonesOf(c) && tp <= z.gbs * GIB - START
    ensures PdpteSlot(tp + c.VaOffset()) == At1G(z, tp)
    ensures At1G(z, tp) == 511 ==> PdeSlot(tp + c.VaOffset()) == At2M(z, tp)
    ensures PdeSlot(tp + c.VaOffset()) == PdeSlot(tp)
  {
    TopSlots(c, tp);
    if At1G(z, tp) == 511 {
      var q := z.gbs - 1;
      SplitAddress(tp, q, tp - q * GIB);
      InLast(q, tp);
    }
  }

  lemma InLast(q: nat, tp: nat)
    requires tp / GIB == q
    ensures tp % GIB / (2 * MIB) == tp / (2 * MIB) - q * 512
  {
  }

  function GrownTop(z: Zones, t: Tables, oldTp: nat, newTp: nat): Tables {
    var t1 := t.(pd2 := Marked(t.pd2, Max(0, At2M(z, newTp)), At2M(z, oldTp), true));
    if At1G(z, newTp) < 511 then MarkTop(z, t1, At1G(z, newTp), At1G(z, oldTp), true) else t1
  }

  function ShrunkTop(z: Zones, t: Tables, oldTp: nat, newTp: nat): Tables {
    var t1 := MarkTop(z, t, At1G(z, oldTp), At1G(z, newTp) - 1, false);
    t1.(pd2 := Marked(t1.pd2, if At1G(z, oldTp) == 511 then 0 else PdeSlot(oldTp), At2M(z, newTp) - 1, false))
  }

  lemma FixTopIs(c: Layout, z: Zones, t: Tables, oldTp: nat, newTp: nat)
    requires c.Supported() && z == ZonesOf(c) && t.WellFormed()
    requires oldTp <= z.gbs * GIB - START && newTp <= z.gbs * GIB - START
    ensures FixTop(z, t, oldTp + c.VaOffset(), newTp + c.VaOffset()) ==
            if newTp < oldTp then GrownTop(z, t, oldTp, newTp) else ShrunkTop(z, t, oldTp, newTp)
  {
    TopSlot(c, z, oldTp);
    TopSlot(c, z, newTp);
    TopReach(z, oldTp);
    TopReach(z, newTp);
    if newTp < oldTp {
      if At1G(z, oldTp) < 511 {
        NoMark(t.pd2, Max(0, At2M(z, newTp)), At2M(z, oldTp), true);
      }
    } else {
      if At1G(z, newTp) < 511 {
        NoMark(t.pd2, PdeSlot(oldTp), At2M(z, newTp) - 1, false);
      }
      if At1G(z, oldTp) == 511 {
        NoMark(TopPdpt(z, t), 511, 510, false);
      }
    }
  }

  lemma GrownTopExact(z: Zones, t: Tables, brk: nat, oldTp: nat, newTp: nat)
    requires z.Ok() && t.WellFormed() && newTp < oldTp && Breaks(z, brk, oldTp)
    requires Present(z, t, brk, oldTp, brk, oldTp)
    ensures var t' := GrownTop(z, t, oldTp, newTp);
            t'.WellFormed() && Present(z, t', brk, newTp, brk, newTp)
  {
    TopReach(z, oldTp);
    TopReach(z, newTp);
  }

  lemma ShrunkTopExact(z: Zones, t: Tables, brk: nat, tpLo: nat, oldTp: nat, newTp: nat)
    requires z.Ok() && t.WellFormed() && oldTp <= newTp && tpLo <= newTp && Breaks(z, brk, oldTp) &&
             Breaks(z, brk, newTp)
    requires Present(z, t, brk, tpLo, brk, oldTp)
    ensures var t' := ShrunkTop(z, t, oldTp, newTp);
            t'.WellFormed() && Present(z, t', brk, newTp, brk, newTp)
  {
    TopReach(z, oldTp);
    TopReach(z, newTp);
  }

  lemma GrownTopFrames(z: Zones, t: Tables, oldTp: nat, newTp: nat, end: int, from: int)
    requires z.Ok() && t.WellFormed() && GIB <= newTp < oldTp <= z.gbs * GIB - START
    requires BottomFrames(t, end) && TopFrames(z, t, from) && from % (2 * MIB) == 0 && from <= newTp
    ensures var t' := GrownTop(z, t, oldTp, newTp);
            t'.WellFormed() && BottomFrames(t', end) && TopFrames(z, t', from) && (Roots(z, t) ==> Roots(z, t'))
  {
    TopReach(z, oldTp);
    TopReach(z, newTp);
  }

  lemma ShrunkTopFrames(z: Zones, t: Tables, oldTp: nat, newTp: nat, end: int, from: int)
    requires z.Ok() && t.WellFormed() && GIB <= oldTp <= newTp <= z.gbs * GIB - START
    requires BottomFrames(t, end) && TopFrames(z, t, from)
    ensures var t' := ShrunkTop(z, t, oldTp, newTp);
            t'.WellFormed() && BottomFrames(t', end) && TopFrames(z, t', from) && (Roots(z, t) ==> Roots(z, t'))
  {
    TopReach(z, oldTp);
    TopReach(z, newTp);
  }

  // ---- are the 2MB entries of the top zone exact? --------------------------------------------

  /** No 2MB entry below the top break is present. */
  predicate Exact2M(z: Zones, pd2: seq<Entry>, tp: nat) {
    |pd2| == PT_ENTRIES && forall i :: 0 <= i < 511 && pd2[i].p ==> Top2M(z, i, tp)
  }

  /** The top break moves up into the last 1GB, from below it, to a place past the first entry of
      its new region, which starts at `from`: then entries are left behind. */
  predicate LeavesStale(z: Zones, oldTp: nat, newTp: nat, from: nat) {
    oldTp / GIB < z.gbs - 1 == newTp / GIB && At2M(z, from) < Min(PdeSlot(oldTp), At2M(z, newTp))
  }

  lemma GrownTop2M(z: Zones, was: seq<Entry>, t: Tables, oldTp: nat, newTp: nat, from: nat)
    requires z.Ok() && t.WellFormed() && newTp < oldTp <= z.gbs * GIB - START && Exact2M(z, was, oldTp)
    requires TopFrames(z, t, from) && forall i :: 0 <= i < 511 && from <= z.LastGb(i) ==> t.pd2[i].p == was[i].p
    ensures Exact2M(z, GrownTop(z, t, oldTp, newTp).pd2, newTp) && !LeavesStale(z, oldTp, newTp, from)
  {
    TopReach(z, oldTp);
    TopReach(z, newTp);
  }

  /** `was` is pd2 before the call; from `from` on nothing has been unmapped since. */
  lemma ShrunkTop2M(z: Zones, was: seq<Entry>, t: Tables, oldTp: nat, newTp: nat, from: nat)
    requires z.Ok() && t.WellFormed() && oldTp <= newTp <= z.gbs * GIB - START
    requires Exact2M(z, was, oldTp) && forall i :: 0 <= i < 511 ==> (Top2M(z, i, oldTp) ==> was[i].p)
    requires TopFrames(z, t, from) && from <= newTp && from % (2 * MIB) == 0
    requires newTp / GIB == z.gbs - 1 ==> (z.gbs - 1) * GIB <= from
    requires forall i :: 0 <= i < 511 && from <= z.LastGb(i) ==> t.pd2[i].p == was[i].p
    ensures Exact2M(z, ShrunkTop(z, t, oldTp, newTp).pd2, newTp) <==> !LeavesStale(z, oldTp, newTp, from)
  {
    TopReach(z, oldTp);
    TopReach(z, newTp);
    var pd2' := ShrunkTop(z, t, oldTp, newTp).pd2;
    if LeavesStale(z, oldTp, newTp, from) {
      var i := SplitLast(z.gbs - 1, from);
      assert pd2'[i].p && !Top2M(z, i, newTp);
    }
  }
}
