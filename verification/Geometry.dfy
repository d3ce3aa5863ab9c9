/** Guest physical regions and address translation (km/km_mem.h).

    Physical memory has size 2^k. It is cut into regions whose sizes double up to the
    middle and then halve again; region 0 is the reserved area below 2MB and region
    `Last()` is the hidden last 2MB. Addresses are unbounded naturals here; every value
    that occurs is below 2^48, so 64-bit wrap-around never happens.
 */
module Geometry {

  const MIB: nat := 0x10_0000
  const GIB: nat := 0x4000_0000
  const PAGE: nat := 0x1000
  const START: nat := 2 * MIB // GUEST_MEM_START_VA

  function Pow2(n: nat): (r: nat)
    ensures r > 0
  {
    if n == 0 then 1 else 2 * Pow2(n - 1)
  }

  /** Position of the highest set bit of `x`. */
  function Log2(x: nat): nat
    requires x > 0
  {
    if x == 1 then 0 else 1 + Log2(x / 2)
  }

  /** `43 - __builtin_clzl(addr)`, where `__builtin_clzl(addr)` is `63 - Log2(addr)`. */
  function MemIdx(addr: nat): int
    requires addr > 0
  {
    43 - (63 - Log2(addr))
  }

  function RoundDown(x: nat, unit: nat): nat
    requires unit > 0
  {
    x / unit * unit
  }

  function RoundUp(x: nat, unit: nat): nat
    requires unit > 0
  {
    (x + unit - 1) / unit * unit
  }

  /** The machine configuration fixed at start-up: `guest_max_physmem == 2^k`, whether the top zone sits
      below 128TB (KM_HIGH_GVA) or below 512GB, and where the monitor keeps guest memory
      (KM_USER_MEM_BASE). */
  datatype Layout = Layout(k: nat, high: bool, userBase: nat) {

    predicate Supported() {
      31 <= k <= 39
    }

    function MaxMem(): nat {
      Pow2(k)
    }

    // guest_mid_physmem
    function Mid(): nat
      requires Supported()
    {
      Pow2(k - 1)
    }

    // mid_mem_idx
    function MidIdx(): int
      requires Supported()
    {
      Pow2Mono(20, k - 1);
      MemIdx(Mid() - 1)
    }

    // last_mem_idx
    function Last(): int
      requires Supported()
    {
      2 * MidIdx() + 1
    }

    // GUEST_MEM_TOP_VA
    function TopVa(): nat {
      if high then 128 * 1024 * GIB - START else 512 * GIB - START
    }

    // GUEST_VA_OFFSET
    function VaOffset(): nat
      requires Supported()
    {
      Pow2Mono(k, 39);
      Pow2Values();
      TopVa() + START - MaxMem()
    }

    // gva_to_gpa_nocheck
    function GvaToGpa(gva: nat): nat
      requires Supported()
    {
      if gva > VaOffset() then gva - VaOffset() else gva
    }

    // gva_to_memreg_idx, after its argument has been translated to a physical address
    function RegionIdx(gpa: nat): int
      requires Supported() && 0 < gpa < MaxMem() - 1
    {
      if gpa > Mid() then Last() - MemIdx(MaxMem() - gpa - 1) else MemIdx(gpa)
    }

    // memreg_base
    function Base(idx: int): nat
      requires Supported() && 0 <= idx <= Last()
      decreases idx > MidIdx()
    {
      if idx <= MidIdx() then MIB * Pow2(idx)
      else
        HalfFits(this, Last() - idx);
        MaxMem() - Top(Last() - idx)
    }

    // memreg_top
    function Top(idx: int): nat
      requires Supported() && 0 <= idx <= Last()
      decreases idx > MidIdx()
    {
      if idx <= MidIdx() then 2 * MIB * Pow2(idx)
      else
        HalfFits(this, Last() - idx);
        MaxMem() - Base(Last() - idx)
    }

    // memreg_size
    function Size(idx: int): nat
      requires Supported() && 0 <= idx <= Last()
    {
      if idx <= MidIdx() then MIB * Pow2(idx) else MIB * Pow2(Last() - idx)
    }
  }

  // ---- powers of two ---------------------------------------------------------------

  lemma {:induction false} Pow2Mono(a: nat, b: nat)
    requires a <= b
    ensures Pow2(a) <= Pow2(b)
    ensures a < b ==> 2 * Pow2(a) <= Pow2(b)
    decreases b - a
  {
    if a < b {
      Pow2Mono(a, b - 1);
    }
  }

  lemma {:induction false} Pow2Add(a: nat, b: nat)
    ensures Pow2(a + b) == Pow2(a) * Pow2(b)
  {
    if a > 0 {
      Pow2Add(a - 1, b);
      assert Pow2(a + b) == 2 * Pow2(a - 1 + b);
    }
  }

  lemma {:induction false} Pow2Scaled(m: nat)
    ensures Pow2(20 + m) == MIB * Pow2(m) && Pow2(30 + m) == GIB * Pow2(m)
  {
    if m == 0 {
      Pow2Values();
    } else {
      Pow2Scaled(m - 1);
    }
  }

  lemma Pow2Values()
    ensures Pow2(20) == MIB && Pow2(21) == START && Pow2(30) == GIB && Pow2(31) == 2 * GIB
    ensures Pow2(38) == 256 * GIB && Pow2(39) == 512 * GIB
  {
    assert Pow2(3) == 8;
    assert Pow2(6) == 64;
    assert Pow2(8) == 256;
    Pow2Add(8, 2);
    Pow2Add(10, 10);
    Pow2Add(20, 10);
    Pow2Add(30, 8);
  }

  lemma {:induction false} Log2Bounds(x: nat)
    requires x > 0
    ensures Pow2(Log2(x)) <= x < Pow2(Log2(x) + 1)
  {
    if x > 1 {
      Log2Bounds(x / 2);
    }
  }

  /** Log2 is the only exponent whose power-of-two interval holds `x`. */
  lemma Log2Unique(x: nat, n: nat)
    requires Pow2(n) <= x < Pow2(n + 1)
    ensures Log2(x) == n
  {
    Log2Bounds(x);
    if Log2(x) < n {
      Pow2Mono(Log2(x) + 1, n);
    } else if n < Log2(x) {
      Pow2Mono(n + 1, Log2(x));
    }
  }

  // ---- shape of the layout ---------------------------------------------------------

  lemma ShapeIdx(c: Layout)
    requires c.Supported()
    ensures c.MidIdx() == c.k - 22 && c.Last() == 2 * c.k - 43
  {
    hide Log2;
    Pow2Mono(0, c.k - 2);
    Log2Unique(c.Mid() - 1, c.k - 2);
  }

  lemma ShapeMem(k: nat)
    requires 31 <= k <= 39
    ensures Pow2(k) == 2 * Pow2(k - 1) && Pow2(k) % GIB == 0
    ensures 2 * GIB <= Pow2(k) && (Pow2(k) <= 256 * GIB || Pow2(k) == 512 * GIB)
  {
    Pow2Values();
    Pow2Mono(31, k);
    Pow2Scaled(k - 30);
    if k < 39 {
      Pow2Mono(k, 38);
    }
  }

  lemma Shape(c: Layout)
    requires c.Supported()
    ensures c.MidIdx() == c.k - 22 && c.Last() == 2 * c.k - 43
    ensures c.MaxMem() == 2 * c.Mid()
    ensures 2 * GIB <= c.MaxMem() <= 512 * GIB
    ensures c.MaxMem() % GIB == 0
    ensures c.VaOffset() % GIB == 0
    ensures c.VaOffset() == 0 || c.MaxMem() <= c.VaOffset()
    ensures c.MaxMem() <= 256 * GIB || c.MaxMem() == 512 * GIB
  {
    ShapeIdx(c);
    ShapeMem(c.k);
    hide Pow2, Log2;
  }

  lemma HalfFits(c: Layout, m: int)
    requires c.Supported() && 0 <= m <= c.MidIdx()
    ensures 2 * MIB * Pow2(m) <= c.Mid()
  {
    ShapeIdx(c);
    Pow2Scaled(m);
    Pow2Mono(21 + m, c.k - 1);
  }

  /** Bases and tops in closed form; both halves use the same power, counted from its end. */
  lemma BaseTop(c: Layout, i: int)
    requires c.Supported() && 0 <= i <= c.Last()
    ensures i <= c.MidIdx() ==> c.Base(i) == Pow2(20 + i) && c.Top(i) == Pow2(21 + i)
    ensures i > c.MidIdx() ==>
              var m := c.Last() - i;
              0 <= m <= c.MidIdx() && c.Base(i) == c.MaxMem() - Pow2(21 + m) && c.Top(i) == c.MaxMem() - Pow2(20 + m)
    ensures c.Size(i) == c.Top(i) - c.Base(i)
  {
    ShapeIdx(c);
    var m := if i <= c.MidIdx() then i else c.Last() - i;
    Pow2Scaled(m);
    assert Pow2(21 + m) == 2 * Pow2(20 + m);
    hide Pow2, Log2;
  }

  /** Neighbours meet, and each region is the mirror image of the one counted from the end. */
  lemma RegionsMeet(c: Layout, i: int)
    requires c.Supported() && 0 <= i < c.Last()
    ensures c.Top(i) == c.Base(i + 1)
    ensures c.Base(c.Last() - i) == c.MaxMem() - c.Top(i)
  {
    ShapeIdx(c);
    BaseTop(c, i);
    BaseTop(c, i + 1);
    BaseTop(c, c.Last() - i);
    assert c.MaxMem() == 2 * Pow2(c.k - 1);
    hide Pow2, Log2, Layout.Base, Layout.Top;
  }

  lemma RegionBounds(c: Layout, i: int)
    requires c.Supported() && 1 <= i < c.Last()
    ensures START <= c.Base(i) < c.Top(i) <= c.MaxMem() - START
  {
    hide Pow2, Log2, Layout.Base, Layout.Top, Layout.Last, Layout.MidIdx;
    ShapeIdx(c);
    ShapeMem(c.k);
    Pow2Values();
    BaseTop(c, i);
    var m := if i <= c.MidIdx() then i else c.Last() - i;
    Pow2Mono(21, 20 + m);
    Pow2Mono(20 + m, 21 + m);
    Pow2Mono(21 + m, c.k - 1);
  }

  /** Regions 1 .. last-1 tile [2MB, max - 2MB): each starts where the one before ends. */
  lemma RegionsTile(c: Layout, i: int)
    requires c.Supported() && 1 <= i < c.Last()
    ensures c.Base(1) == START && c.Top(c.Last() - 1) == c.MaxMem() - START
    ensures START <= c.Base(i) < c.Top(i) <= c.MaxMem() - START
    ensures c.Top(i) == c.Base(i + 1) && c.Top(i - 1) == c.Base(i)
    ensures c.Size(i) == c.Top(i) - c.Base(i)
  {
    ShapeIdx(c);
    Pow2Values();
    BaseTop(c, 1);
    BaseTop(c, c.Last() - 1);
    hide Pow2, Log2, Layout.Base, Layout.Top;
    RegionsMeet(c, i - 1);
    RegionsMeet(c, i);
    RegionBounds(c, i);
    BaseTop(c, i);
  }

  lemma {:induction false} RegionsOrdered(c: Layout, i: int, j: int)
    requires c.Supported() && 1 <= i < j < c.Last()
    ensures c.Top(i) <= c.Base(j)
    decreases j - i
  {
    RegionsTile(c, i);
    RegionsTile(c, j);
    if i + 1 < j {
      RegionsTile(c, j - 1);
      RegionsOrdered(c, i, j - 1);
    }
  }

  lemma RegionHoldsLow(c: Layout, gpa: nat)
    requires c.Supported() && START <= gpa <= c.Mid()
    ensures gpa < c.MaxMem() - START && 1 <= c.RegionIdx(gpa) < c.Last()
    ensures c.Base(c.RegionIdx(gpa)) <= gpa < c.Top(c.RegionIdx(gpa))
  {
    hide Pow2, Log2, Layout.Base, Layout.Top, Layout.Last, Layout.MidIdx;
    ShapeIdx(c);
    ShapeMem(c.k);
    Pow2Values();
    var e := Log2(gpa);
    Log2Range(gpa, 21, c.k - 1);
    Log2Bounds(gpa);
    Pow2Mono(21, c.k - 1);
    Pow2Mono(c.k - 2, c.k - 1);
    BaseTop(c, e - 20);
  }

  lemma RegionHoldsHigh(c: Layout, gpa: nat)
    requires c.Supported() && c.Mid() < gpa < c.MaxMem() - START
    ensures 1 <= c.RegionIdx(gpa) < c.Last()
    ensures c.Base(c.RegionIdx(gpa)) <= gpa < c.Top(c.RegionIdx(gpa))
  {
    hide Pow2, Log2, Layout.Base, Layout.Top, Layout.Last, Layout.MidIdx;
    ShapeIdx(c);
    ShapeMem(c.k);
    Pow2Values();
    var rest := c.MaxMem() - gpa - 1;
    var e := Log2(rest);
    Log2Range(rest, 21, c.k - 1);
    Log2Bounds(rest);
    BaseTop(c, c.Last() - (e - 20));
  }

  /** `gva_to_memreg_idx` returns the region that holds the address ... */
  lemma RegionHolds(c: Layout, gpa: nat)
    requires c.Supported() && START <= gpa < c.MaxMem() - START
    ensures 1 <= c.RegionIdx(gpa) < c.Last()
    ensures c.Base(c.RegionIdx(gpa)) <= gpa < c.Top(c.RegionIdx(gpa))
  {
    if gpa <= c.Mid() {
      RegionHoldsLow(c, gpa);
    } else {
      RegionHoldsHigh(c, gpa);
    }
  }

  lemma Log2Range(x: nat, lo: nat, hi: nat)
    requires Pow2(lo) <= x <= Pow2(hi)
    ensures lo <= Log2(x) <= hi
    ensures x < Pow2(hi) ==> Log2(x) < hi
  {
    Log2Bounds(x);
    if Log2(x) < lo {
      Pow2Mono(Log2(x) + 1, lo);
    } else if hi < Log2(x) {
      Pow2Mono(hi + 1, Log2(x));
    }
    if hi <= Log2(x) {
      Pow2Mono(hi, Log2(x));
    }
  }

  /** ... and no other region does. */
  lemma RegionUnique(c: Layout, gpa: nat, i: int)
    requires c.Supported() && 1 <= i < c.Last()
    requires c.Base(i) <= gpa < c.Top(i)
    ensures START <= gpa < c.MaxMem() - START && c.RegionIdx(gpa) == i
  {
    Shape(c);
    RegionsTile(c, i);
    RegionHolds(c, gpa);
    var j := c.RegionIdx(gpa);
    if i < j {
      RegionsOrdered(c, i, j);
    } else if j < i {
      RegionsOrdered(c, j, i);
    }
  }

  /** The two ends: below 2MB is region 0, the first byte of the hidden 2MB is region last. */
  lemma RegionEnds(c: Layout)
    requires c.Supported()
    ensures c.MaxMem() > 2 * START
    ensures c.RegionIdx(START - 1) == 0
    ensures c.RegionIdx(c.MaxMem() - START) == c.Last()
  {
    Shape(c);
    Log2Unique(START - 1, 20) by { Pow2Values(); }
  }

  lemma RegionMonotone(c: Layout, a: nat, b: nat)
    requires c.Supported() && START - 1 <= a <= b <= c.MaxMem() - START
    ensures b < c.MaxMem() - 1
    ensures 0 <= c.RegionIdx(a) <= c.RegionIdx(b) <= c.Last()
  {
    Shape(c);
    RegionEnds(c);
    if START <= a {
      if a < c.MaxMem() - START {
        RegionHolds(c, a);
      }
      if b < c.MaxMem() - START {
        RegionHolds(c, b);
        if c.RegionIdx(b) < c.RegionIdx(a) {
          RegionsOrdered(c, c.RegionIdx(b), c.RegionIdx(a));
        }
      }
    } else if START <= b < c.MaxMem() - START {
      RegionHolds(c, b);
    }
  }
}
