/** The loops over page-table entries of km/km_mem.c, each proved to compute its table function. */
module PageTableLoops {
  import opened Geometry
  import opened PageTables

  lemma Slot2M(base: nat, j: nat)
    requires base % (2 * MIB) == 0 && base % GIB + j * (2 * MIB) < GIB
    ensures PdeSlot(base + j * (2 * MIB)) == PdeSlot(base) + j
    ensures (base + j * (2 * MIB)) / (2 * MIB) == base / (2 * MIB) + j
  {
    SplitAddress(base, base / GIB, base % GIB);
    SplitAddress(base + j * (2 * MIB), base / GIB, base % GIB + j * (2 * MIB));
  }

  lemma Slot1G(gva: nat, j: nat)
    requires gva % GIB == 0 && gva % (512 * GIB) + j * GIB < 512 * GIB
    ensures PdpteSlot(gva + j * GIB) == PdpteSlot(gva) + j
  {
    var q := gva / GIB;
    SplitAddress(gva, q, 0);
    SplitAddress(gva + j * GIB, q + j, 0);
  }

  // pde_2mb_set over [base, base + size)
  method Frame2M(pde: array<Entry>, base: nat, size: nat)
    requires pde.Length == PT_ENTRIES && base % (2 * MIB) == 0 && size % (2 * MIB) == 0 && base % GIB + size <= GIB
    modifies pde
    ensures pde[..] == Framed(old(pde[..]), PdeSlot(base), size / (2 * MIB), base / (2 * MIB))
  {
    var addr := base;
    ghost var j := 0;
    while addr < base + size
      invariant addr == base + j * (2 * MIB) <= base + size
      invariant pde[..] == Framed(old(pde[..]), PdeSlot(base), j, base / (2 * MIB))
      decreases base + size - addr
    {
      Slot2M(base, j);
      pde[PdeSlot(addr)] := Entry(pde[PdeSlot(addr)].p, true, addr / (2 * MIB));
      addr := addr + 2 * MIB;
      j := j + 1;
    }
  }

  // the clearing loop over 2MB entries
  method Blank2M(pde: array<Entry>, base: nat, size: nat)
    requires pde.Length == PT_ENTRIES && base % (2 * MIB) == 0 && size % (2 * MIB) == 0 && base % GIB + size <= GIB
    modifies pde
    ensures pde[..] == Blanked(old(pde[..]), PdeSlot(base), size / (2 * MIB))
  {
    var addr := base;
    ghost var j := 0;
    while addr < base + size
      invariant addr == base + j * (2 * MIB) <= base + size
      invariant pde[..] == Blanked(old(pde[..]), PdeSlot(base), j)
      decreases base + size - addr
    {
      Slot2M(base, j);
      pde[PdeSlot(addr)] := EMPTY;
      addr := addr + 2 * MIB;
      j := j + 1;
    }
  }

  // pdpte_1g_set over [gva, gva + size), for the physical range from `base`
  method Frame1G(pdpe: array<Entry>, gva: nat, base: nat, size: nat)
    requires pdpe.Length == PT_ENTRIES && gva % GIB == 0 && size % GIB == 0 && gva % (512 * GIB) + size <= 512 * GIB
    modifies pdpe
    ensures pdpe[..] == Framed(old(pdpe[..]), PdpteSlot(gva), size / GIB, base / GIB)
  {
    var addr, pa := gva, base;
    ghost var j := 0;
    while addr < gva + size
      invariant addr == gva + j * GIB <= gva + size && pa == base + j * GIB
      invariant pdpe[..] == Framed(old(pdpe[..]), PdpteSlot(gva), j, base / GIB)
      decreases gva + size - addr
    {
      Slot1G(gva, j);
      pdpe[PdpteSlot(addr)] := Entry(pdpe[PdpteSlot(addr)].p, true, pa / GIB);
      addr, pa := addr + GIB, pa + GIB;
      j := j + 1;
    }
  }

  method Blank1G(pdpe: array<Entry>, gva: nat, size: nat)
    requires pdpe.Length == PT_ENTRIES && gva % GIB == 0 && size % GIB == 0 && gva % (512 * GIB) + size <= 512 * GIB
    modifies pdpe
    ensures pdpe[..] == Blanked(old(pdpe[..]), PdpteSlot(gva), size / GIB)
  {
    var addr := gva;
    ghost var j := 0;
    while addr < gva + size
      invariant addr == gva + j * GIB <= gva + size
      invariant pdpe[..] == Blanked(old(pdpe[..]), PdpteSlot(gva), j)
      decreases gva + size - addr
    {
      Slot1G(gva, j);
      pdpe[PdpteSlot(addr)] := EMPTY;
      addr := addr + GIB;
      j := j + 1;
    }
  }

  // for (i = from; i <= to; i++) a[i].p = b
  method SetPresent(a: array<Entry>, from: int, to: int, b: bool)
    requires a.Length == PT_ENTRIES && 0 <= from && to < PT_ENTRIES
    modifies a
    ensures a[..] == Marked(old(a[..]), from, to, b)
  {
    var i := from;
    while i <= to
      invariant from <= i && (i <= to + 1 || i == from)
      invariant a[..] == Marked(old(a[..]), from, i - 1, b)
    {
      a[i] := a[i].(p := b);
      i := i + 1;
    }
  }
}
