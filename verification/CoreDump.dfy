/** Writing a core file or snapshot, km_dump_core (km/km_coredump.c): one pass counts the program
    headers, one writes them with the offsets the data will have, one writes the data. */
module CoreDump {
  import opened MachineWords
  import opened Wrappers
  import Geometry
  import opened CoreFile

  const PT_LOAD: int := 1
  const PROT_READ: int := 1
  const PROT_NONE: int := 0

  datatype ElfPhdr = ElfPhdr(ptype: int, vaddr: nat, memsz: nat, flags: int)

  /** A loaded ELF file: the program or its dynamic linker. */
  datatype Payload = Payload(phdrs: seq<ElfPhdr>, adjust: nat)

  datatype Mmap = Mmap(start: int, size: nat, protection: int, monitor: bool)

  /** The running machine as the dump sees it; `mem` is guest memory. */
  datatype Machine = Machine(
    guest: Payload, dynlinker: Option<Payload>, mmaps: seq<Mmap>, brk: int, notes: nat, mem: int -> int)

  function PageDown(v: nat): nat {
    Geometry.RoundDown(v, PAGE_SIZE)
  }

  // ---- the segments that are dumped ----------------------------------------------------------------

  // km_core_last_load_adjust: the last loaded segment is extended to the break
  function LastLoadAdjust(m: Machine, h: ElfPhdr, endLoad: int): int {
    if Wrap(h.vaddr + m.guest.adjust + h.memsz) == endLoad then m.brk - endLoad else 0
  }

  function LoadSegment(m: Machine, p: Payload, h: ElfPhdr, endLoad: int): Segment {
    var extra := h.vaddr - PageDown(h.vaddr);
    Segment(PageDown(Wrap(h.vaddr + p.adjust)), Wrap(h.memsz + LastLoadAdjust(m, h, endLoad) + extra), h.flags)
  }

  /** The highest end of a loadable header, at least `from`. */
  function MaxEnd(hs: seq<ElfPhdr>, from: nat): nat {
    if hs == [] then from
    else
      var e, last := MaxEnd(hs[..|hs| - 1], from), hs[|hs| - 1];
      if last.ptype == PT_LOAD && Wrap(last.vaddr + last.memsz) > e then Wrap(last.vaddr + last.memsz) else e
  }

  /** The end of the loaded program; the dynamic linker counts where it was linked, not where it was loaded. */
  function EndLoad(m: Machine): nat {
    var g := Wrap(MaxEnd(m.guest.phdrs, 0) + m.guest.adjust);
    if m.dynlinker.Some? then MaxEnd(m.dynlinker.value.phdrs, g) else g
  }

  lemma {:induction false} MaxEndIs(hs: seq<ElfPhdr>, from: nat)
    ensures from <= MaxEnd(hs, from)
    ensures forall k :: 0 <= k < |hs| && hs[k].ptype == PT_LOAD ==> Wrap(hs[k].vaddr + hs[k].memsz) <= MaxEnd(hs, from)
    ensures MaxEnd(hs, from) == from ||
            exists k :: 0 <= k < |hs| && hs[k].ptype == PT_LOAD && Wrap(hs[k].vaddr + hs[k].memsz) == MaxEnd(hs, from)
  {
    if hs != [] {
      var init := hs[..|hs| - 1];
      MaxEndIs(init, from);
      assert forall k :: 0 <= k < |init| ==> init[k] == hs[k];
    }
  }

  lemma {:induction false} MaxEndFrom(hs: seq<ElfPhdr>, from: nat)
    ensures MaxEnd(hs, from) == if MaxEnd(hs, 0) <= from then from else MaxEnd(hs, 0)
  {
    if hs != [] {
      MaxEndFrom(hs[..|hs| - 1], from);
    }
  }

  /** The header ends where the loaded program ends, so that its segment is extended to the break. */
  predicate EndsLast(m: Machine, h: ElfPhdr) {
    h.ptype == PT_LOAD && Wrap(h.vaddr + m.guest.adjust + h.memsz) == EndLoad(m)
  }

  /** The end of the program, or that of the linker as linked if it is later. */
  lemma EndLoadIs(m: Machine)
    requires MaxEnd(m.guest.phdrs, 0) + m.guest.adjust < TWO64
    ensures var e := MaxEnd(m.guest.phdrs, 0) + m.guest.adjust;
            EndLoad(m) == if LinkerLater(m) then MaxEnd(m.dynlinker.value.phdrs, 0) else e
  {
    hide MaxEnd;
    if m.dynlinker.Some? {
      MaxEndFrom(m.dynlinker.value.phdrs, MaxEnd(m.guest.phdrs, 0) + m.guest.adjust);
    }
  }

  /** The dynamic linker was linked to end after the end of the loaded program. */
  predicate LinkerLater(m: Machine) {
    m.dynlinker.Some? && MaxEnd(m.dynlinker.value.phdrs, 0) > MaxEnd(m.guest.phdrs, 0) + m.guest.adjust
  }

  lemma MaxEndStep(hs: seq<ElfPhdr>, from: nat, i: nat)
    requires i < |hs|
    ensures var e := MaxEnd(hs[..i], from);
            MaxEnd(hs[..i + 1], from) ==
            if hs[i].ptype == PT_LOAD && Wrap(hs[i].vaddr + hs[i].memsz) > e then Wrap(hs[i].vaddr + hs[i].memsz) else e
  {
    assert hs[..i + 1][..i] == hs[..i];
  }

  /** What is dumped for a loadable header: from the page it starts in to its end; that of the program
      which ends last goes up to the break. */
  lemma LoadSegmentCovers(m: Machine, p: Payload, h: ElfPhdr)
    requires p.adjust % PAGE_SIZE == 0 && h.ptype == PT_LOAD && h.vaddr + p.adjust + h.memsz < 0x1_0000_0000_0000_0000
    requires EndsLast(m, h) ==> EndLoad(m) <= m.brk &&
                                h.vaddr % PAGE_SIZE + h.memsz + m.brk - EndLoad(m) < 0x1_0000_0000_0000_0000
    ensures var s := LoadSegment(m, p, h, EndLoad(m));
            && s.base % PAGE_SIZE == 0 && s.base <= h.vaddr + p.adjust < s.base + PAGE_SIZE && s.flags == h.flags
            && (!EndsLast(m, h) ==> s.base + s.size == h.vaddr + p.adjust + h.memsz)
            && (EndsLast(m, h) ==> s.base + s.size == h.vaddr + p.adjust + h.memsz + (m.brk - EndLoad(m)))
            && (EndsLast(m, h) && p == m.guest ==> s.base + s.size == m.brk)
  {
    hide EndLoad, PageDown, Wrap;
    PageAddress(h.vaddr, p.adjust);
    WrapSame(h.vaddr + p.adjust);
    WrapSame(h.memsz + LastLoadAdjust(m, h, EndLoad(m)) + h.vaddr % PAGE_SIZE);
    if p == m.guest {
      WrapSame(h.vaddr + m.guest.adjust + h.memsz);
    }
  }

  lemma PageAddress(v: nat, a: nat)
    requires a % PAGE_SIZE == 0
    ensures PageDown(v) == v - v % PAGE_SIZE && PageDown(v + a) == PageDown(v) + a
    ensures PageDown(v) % PAGE_SIZE == 0 && PageDown(v + a) % PAGE_SIZE == 0
  {
    assert (v + a) % PAGE_SIZE == v % PAGE_SIZE;
  }

  /** The segments of the first loadable headers, in order. */
  function Loads(m: Machine, p: Payload, hs: seq<ElfPhdr>, endLoad: int): seq<Segment> {
    if hs == [] then []
    else
      var init, last := Loads(m, p, hs[..|hs| - 1], endLoad), hs[|hs| - 1];
      if last.ptype == PT_LOAD then init + [LoadSegment(m, p, last, endLoad)] else init
  }

  lemma {:induction false} LoadsAre(m: Machine, p: Payload, hs: seq<ElfPhdr>, endLoad: int, s: Segment)
    ensures s in Loads(m, p, hs, endLoad) <==>
            exists k :: 0 <= k < |hs| && hs[k].ptype == PT_LOAD && s == LoadSegment(m, p, hs[k], endLoad)
  {
    hide LoadSegment;
    if hs != [] {
      var init := hs[..|hs| - 1];
      LoadsAre(m, p, init, endLoad, s);
      assert forall k :: 0 <= k < |init| ==> init[k] == hs[k];
    }
  }

  /** The address lies in a segment dumped for the loaded program. */
  ghost predicate InProgram(m: Machine, a: int) {
    exists s :: s in Loads(m, m.guest, m.guest.phdrs, EndLoad(m)) && s.base <= a < s.base + s.size
  }

  /** The program is loaded at a page, and none of its headers wraps. */
  ghost predicate Plain(m: Machine) {
    && m.guest.adjust % PAGE_SIZE == 0 && 0 < MaxEnd(m.guest.phdrs, 0)
    && MaxEnd(m.guest.phdrs, 0) + m.guest.adjust < TWO64
    && forall k :: 0 <= k < |m.guest.phdrs| && m.guest.phdrs[k].ptype == PT_LOAD ==>
         m.guest.phdrs[k].vaddr + m.guest.phdrs[k].memsz < 0x1_0000_0000_0000_0000
  }

  /** Without wrapping, and with the linker not later, a header ends last if it has the highest end; with the
      linker later, none does. */
  lemma WhoEndsLast(m: Machine, k: nat)
    requires Plain(m) && k < |m.guest.phdrs| && m.guest.phdrs[k].ptype == PT_LOAD
    ensures var h := m.guest.phdrs[k];
            && h.vaddr + h.memsz <= MaxEnd(m.guest.phdrs, 0)
            && (EndsLast(m, h) <==> !LinkerLater(m) && h.vaddr + h.memsz == MaxEnd(m.guest.phdrs, 0))
  {
    var h := m.guest.phdrs[k];
    MaxEndIs(m.guest.phdrs, 0);
    EndLoadIs(m);
    hide MaxEnd, EndLoad, Wrap;
    WrapSame(h.vaddr + h.memsz);
    WrapSame(h.vaddr + m.guest.adjust + h.memsz);
  }

  /** Every address from the end of the program up to the break is dumped with a segment of the program
      exactly when the dynamic linker was not linked to end later. */
  lemma BreakDumped(m: Machine)
    requires Plain(m) && MaxEnd(m.guest.phdrs, 0) + m.guest.adjust < m.brk < 0x1_0000_0000_0000_0000
    ensures (forall a :: MaxEnd(m.guest.phdrs, 0) + m.guest.adjust <= a < m.brk ==> InProgram(m, a)) <==>
            !LinkerLater(m)
  {
    var hs, end := m.guest.phdrs, MaxEnd(m.guest.phdrs, 0) + m.guest.adjust;
    if LinkerLater(m) {
      assert !InProgram(m, end) by {
        NotBeyond(m, end);
      }
    } else {
      MaxEndIs(hs, 0);
      hide MaxEnd, EndLoad, InProgram, LoadSegment, EndsLast;
      var last :| 0 <= last < |hs| && hs[last].ptype == PT_LOAD &&
                  Wrap(hs[last].vaddr + hs[last].memsz) == MaxEnd(hs, 0);
      assert hs[last].vaddr + hs[last].memsz == MaxEnd(hs, 0);
      forall a | end <= a < m.brk
        ensures InProgram(m, a)
      {
        Extended(m, last, a);
      }
    }
  }

  lemma Extended(m: Machine, k: nat, a: int)
    requires Plain(m) && !LinkerLater(m) && k < |m.guest.phdrs| && m.guest.phdrs[k].ptype == PT_LOAD
    requires m.guest.phdrs[k].vaddr + m.guest.phdrs[k].memsz == MaxEnd(m.guest.phdrs, 0)
    requires MaxEnd(m.guest.phdrs, 0) + m.guest.adjust <= a < m.brk < 0x1_0000_0000_0000_0000
    ensures InProgram(m, a)
  {
    var h := m.guest.phdrs[k];
    var s := LoadSegment(m, m.guest, h, EndLoad(m));
    WhoEndsLast(m, k);
    EndLoadIs(m);
    hide MaxEnd, EndLoad, EndsLast, Plain;
    LoadSegmentCovers(m, m.guest, h);
    LoadsAre(m, m.guest, m.guest.phdrs, EndLoad(m), s);
    hide LoadSegment, Loads;
    assert s.base <= a < s.base + s.size;
  }

  lemma NotBeyond(m: Machine, a: int)
    requires Plain(m) && LinkerLater(m) && MaxEnd(m.guest.phdrs, 0) + m.guest.adjust <= a
    ensures !InProgram(m, a)
  {
    forall s | s in Loads(m, m.guest, m.guest.phdrs, EndLoad(m))
      ensures s.base + s.size <= a
    {
      LoadsAre(m, m.guest, m.guest.phdrs, EndLoad(m), s);
      var k :| 0 <= k < |m.guest.phdrs| && m.guest.phdrs[k].ptype == PT_LOAD &&
               s == LoadSegment(m, m.guest, m.guest.phdrs[k], EndLoad(m));
      OwnEnd(m, k);
    }
  }

  lemma OwnEnd(m: Machine, k: nat)
    requires Plain(m) && LinkerLater(m) && k < |m.guest.phdrs| && m.guest.phdrs[k].ptype == PT_LOAD
    ensures var h, s := m.guest.phdrs[k], LoadSegment(m, m.guest, m.guest.phdrs[k], EndLoad(m));
            s.base + s.size == h.vaddr + m.guest.adjust + h.memsz <= MaxEnd(m.guest.phdrs, 0) + m.guest.adjust
  {
    var h := m.guest.phdrs[k];
    WhoEndsLast(m, k);
    hide MaxEnd, EndLoad, LoadSegment, EndsLast;
    LoadSegmentCovers(m, m.guest, h);
  }

  function MapSegment(r: Mmap): Segment {
    Segment(r.start, r.size, ElfFlags(r.protection))
  }

  /** The mappings that can be accessed, in order. */
  function Mapped(ms: seq<Mmap>): seq<Segment> {
    if ms == [] then []
    else
      var init, last := Mapped(ms[..|ms| - 1]), ms[|ms| - 1];
      if last.protection != PROT_NONE then init + [MapSegment(last)] else init
  }

  /** PROT_READ, PROT_WRITE and PROT_EXEC as PF_R, PF_W and PF_X. */
  function ElfFlags(protection: int): int {
    [0, 4, 2, 6, 1, 5, 3, 7][protection % 8]
  }

  /** The segment is the mapping, read, write and execute rights in the order of an ELF header. */
  predicate IsMapping(s: Segment, r: Mmap) {
    var q := r.protection % 8;
    && r.protection != PROT_NONE && s.base == r.start && s.size == r.size && 0 <= s.flags < 8
    && s.flags / 4 == q % 2 && s.flags / 2 % 2 == q / 2 % 2 && s.flags % 2 == q / 4
  }

  lemma {:induction false} MappedAre(ms: seq<Mmap>, s: Segment)
    ensures s in Mapped(ms) <==> exists k :: 0 <= k < |ms| && IsMapping(s, ms[k])
  {
    if ms != [] {
      var init, last := ms[..|ms| - 1], ms[|ms| - 1];
      MappedAre(init, s);
      assert forall k :: 0 <= k < |init| ==> init[k] == ms[k];
      MappingIs(s, last);
      hide IsMapping, MapSegment;
    }
  }

  lemma MappingIs(s: Segment, r: Mmap)
    ensures IsMapping(s, r) <==> r.protection != PROT_NONE && s == MapSegment(r)
  {
    assert r.protection % 8 % 8 == r.protection % 8;
    Rights(r.protection % 8, s.flags);
  }

  lemma Rights(q: int, f: int)
    requires 0 <= q < 8
    ensures f == ElfFlags(q) <==> 0 <= f < 8 && f / 4 == q % 2 && f / 2 % 2 == q / 2 % 2 && f % 2 == q / 4
  {
  }

  function LinkerLoads(m: Machine, endLoad: int): seq<Segment> {
    if m.dynlinker.Some? then Loads(m, m.dynlinker.value, m.dynlinker.value.phdrs, endLoad) else []
  }

  function Segments(m: Machine, endLoad: int): seq<Segment> {
    Loads(m, m.guest, m.guest.phdrs, endLoad) + LinkerLoads(m, endLoad) + Mapped(m.mmaps)
  }

  /** What is dumped: a segment for each loadable header of the program and of the linker, and one for each
      accessible mapping. */
  lemma SegmentsAre(m: Machine, s: Segment)
    ensures var e := EndLoad(m);
            s in Segments(m, e) <==>
            || (exists k :: 0 <= k < |m.guest.phdrs| && m.guest.phdrs[k].ptype == PT_LOAD &&
                            s == LoadSegment(m, m.guest, m.guest.phdrs[k], e))
            || (m.dynlinker.Some? &&
                var p := m.dynlinker.value;
                exists k :: 0 <= k < |p.phdrs| && p.phdrs[k].ptype == PT_LOAD && s == LoadSegment(m, p, p.phdrs[k], e))
            || (exists k :: 0 <= k < |m.mmaps| && IsMapping(s, m.mmaps[k]))
  {
    hide LoadSegment, Loads, Mapped, IsMapping, EndLoad;
    LoadsAre(m, m.guest, m.guest.phdrs, EndLoad(m), s);
    if m.dynlinker.Some? {
      LoadsAre(m, m.dynlinker.value, m.dynlinker.value.phdrs, EndLoad(m), s);
    }
    MappedAre(m.mmaps, s);
  }

  lemma LoadsStep(m: Machine, p: Payload, hs: seq<ElfPhdr>, endLoad: int, i: nat)
    requires i < |hs|
    ensures var l := Loads(m, p, hs[..i], endLoad);
            Loads(m, p, hs[..i + 1], endLoad) ==
            if hs[i].ptype == PT_LOAD then l + [LoadSegment(m, p, hs[i], endLoad)] else l
  {
    assert hs[..i + 1][..i] == hs[..i];
  }

  lemma LoadsNone(m: Machine, p: Payload, hs: seq<ElfPhdr>, endLoad: int)
    ensures Loads(m, p, hs[..0], endLoad) == [] && hs[..|hs|] == hs
  {
  }

  lemma MappedNone(ms: seq<Mmap>)
    ensures Mapped(ms[..0]) == [] && ms[..|ms|] == ms
  {
  }

  lemma MappedStep(ms: seq<Mmap>, i: nat)
    requires i < |ms|
    ensures var l := Mapped(ms[..i]);
            Mapped(ms[..i + 1]) ==
            if ms[i].protection != PROT_NONE then l + [MapSegment(ms[i])] else l
  {
    assert ms[..i + 1][..i] == ms[..i];
  }

  /** How many segments there are does not depend on where the program ends. */
  lemma {:induction false} LoadsCount(m: Machine, p: Payload, hs: seq<ElfPhdr>, e: int, f: int)
    ensures |Loads(m, p, hs, e)| == |Loads(m, p, hs, f)|
  {
    if hs != [] {
      LoadsCount(m, p, hs[..|hs| - 1], e, f);
    }
  }

  // ---- counting ------------------------------------------------------------------------------------

  // the loops of km_core_count_phdrs over one payload
  method CountLoads(m: Machine, p: Payload, from: nat) returns (n: nat, endLoad: nat)
    ensures endLoad == MaxEnd(p.phdrs, from) && forall e :: n == |Loads(m, p, p.phdrs, e)|
  {
    n, endLoad := 0, from;
    var i := 0;
    while i < |p.phdrs|
      invariant i <= |p.phdrs| && n == |Loads(m, p, p.phdrs[..i], 0)| && endLoad == MaxEnd(p.phdrs[..i], from)
    {
      LoadsStep(m, p, p.phdrs, 0, i);
      MaxEndStep(p.phdrs, from, i);
      if p.phdrs[i].ptype == PT_LOAD {
        var pend := Wrap(p.phdrs[i].vaddr + p.phdrs[i].memsz);
        if pend > endLoad {
          endLoad := pend;
        }
        n := n + 1;
      }
      i := i + 1;
    }
    assert p.phdrs[..i] == p.phdrs;
    forall e
      ensures n == |Loads(m, p, p.phdrs, e)|
    {
      LoadsCount(m, p, p.phdrs, 0, e);
    }
  }

  method CountMapped(ms: seq<Mmap>) returns (n: nat)
    ensures n == |Mapped(ms)|
  {
    hide Mapped, MapSegment;
    MappedNone(ms);
    n := 0;
    var i := 0;
    while i < |ms|
      invariant i <= |ms| && n == |Mapped(ms[..i])|
    {
      MappedStep(ms, i);
      if ms[i].protection != PROT_NONE {
        n := n + 1;
      }
      i := i + 1;
    }
  }

  // km_core_count_phdrs
  method CountPhdrs(m: Machine) returns (phnum: nat, endLoad: nat)
    ensures endLoad == EndLoad(m) && phnum == 1 + |Segments(m, endLoad)|
  {
    hide Loads, Mapped, MaxEnd;
    var n, end := CountLoads(m, m.guest, 0);
    phnum, endLoad := 1 + n, Wrap(end + m.guest.adjust);
    if m.dynlinker.Some? {
      var k;
      k, endLoad := CountLoads(m, m.dynlinker.value, endLoad);
      phnum := phnum + k;
    }
    var c := CountMapped(m.mmaps);
    phnum := phnum + c;
  }

  // ---- headers -------------------------------------------------------------------------------------

  function EhdrCells(phnum: int): Data {
    seq(EHDR_SIZE, k => EhdrByte(phnum, k))
  }

  function PhdrCells(h: Phdr): (r: Data)
    ensures |r| == PHDR_SIZE
  {
    seq(PHDR_SIZE, k => PhdrByte(h, k))
  }

  function NoteCells(n: nat): (r: Data)
    ensures |r| == n
  {
    seq(n, k => NoteByte(k))
  }

  /** The header of segment i. */
  function HeaderOf(start: nat, segs: seq<Segment>, i: nat): Phdr
    requires i < |segs|
  {
    Load(Offset(start, segs, i), segs[i].base, segs[i].size, segs[i].flags)
  }

  /** The headers of the segments stand in the header table, after that of the notes. */
  ghost predicate HeadersPlaced(data: Data, start: nat, segs: seq<Segment>) {
    forall i :: 0 <= i < |segs| ==>
      Holds(data, EHDR_SIZE + PHDR_SIZE * (i + 1), PhdrCells(HeaderOf(start, segs, i)), true)
  }

  /** The memory of the segments stands at their offsets. */
  ghost predicate SegmentsPlaced(data: Data, start: nat, segs: seq<Segment>, mem: int -> int, full: bool) {
    forall i :: 0 <= i < |segs| ==> Holds(data, Offset(start, segs, i), Memory(mem, segs[i].base, segs[i].size), full)
  }

  lemma HeadersGrown(a: Data, b: Data, start: nat, segs: seq<Segment>)
    requires HeadersPlaced(a, start, segs) && a <= b
    ensures HeadersPlaced(b, start, segs)
  {
    hide Holds;
    forall i | 0 <= i < |segs|
      ensures Holds(b, EHDR_SIZE + PHDR_SIZE * (i + 1), PhdrCells(HeaderOf(start, segs, i)), true)
    {
      HoldsGrown(a, b, EHDR_SIZE + PHDR_SIZE * (i + 1), PhdrCells(HeaderOf(start, segs, i)), true);
    }
  }

  lemma SegmentsGrown(a: Data, b: Data, start: nat, segs: seq<Segment>, mem: int -> int, full: bool)
    requires SegmentsPlaced(a, start, segs, mem, full) && a <= b
    ensures SegmentsPlaced(b, start, segs, mem, full)
  {
    hide Holds;
    forall i | 0 <= i < |segs|
      ensures Holds(b, Offset(start, segs, i), Memory(mem, segs[i].base, segs[i].size), full)
    {
      HoldsGrown(a, b, Offset(start, segs, i), Memory(mem, segs[i].base, segs[i].size), full);
    }
  }

  /** One more header. */
  lemma HeadersStep(a: Data, b: Data, start: nat, segs: seq<Segment>, s: Segment, h: Phdr)
    requires HeadersPlaced(a, start, segs) && a <= b && |a| == EHDR_SIZE + PHDR_SIZE * (|segs| + 1)
    requires h == Load(Offset(start, segs, |segs|), s.base, s.size, s.flags) && Holds(b, |a|, PhdrCells(h), true)
    ensures HeadersPlaced(b, start, segs + [s])
  {
    hide Holds, PhdrCells;
    HeadersGrown(a, b, start, segs);
    var ts := segs + [s];
    forall i | 0 <= i < |ts|
      ensures Holds(b, EHDR_SIZE + PHDR_SIZE * (i + 1), PhdrCells(HeaderOf(start, ts, i)), true)
    {
      OffsetPrefix(start, segs, [s], i);
      if i < |segs| {
        assert HeaderOf(start, ts, i) == HeaderOf(start, segs, i);
      }
    }
  }

  lemma SegmentsStep(a: Data, b: Data, start: nat, segs: seq<Segment>, s: Segment, mem: int -> int, full: bool)
    requires SegmentsPlaced(a, start, segs, mem, full) && a <= b
    requires Holds(b, Offset(start, segs, |segs|), Memory(mem, s.base, s.size), full)
    ensures SegmentsPlaced(b, start, segs + [s], mem, full)
  {
    hide Holds, Memory, Offset;
    SegmentsGrown(a, b, start, segs, mem, full);
    var ts := segs + [s];
    forall i | 0 <= i < |ts|
      ensures Holds(b, Offset(start, ts, i), Memory(mem, ts[i].base, ts[i].size), full)
    {
      OffsetPrefix(start, segs, [s], i);
      if i < |segs| {
        assert ts[i] == segs[i];
      }
    }
  }

  lemma OffsetStep(start: nat, segs: seq<Segment>, s: Segment)
    ensures Offset(start, segs + [s], |segs| + 1) == PageUp(Offset(start, segs, |segs|) + s.size)
    ensures Offset(start, segs, |segs|) % PAGE_SIZE == 0
  {
    OffsetPrefix(start, segs, [s], |segs|);
  }

  // km_core_write_load_header
  method WriteLoadHeader(f: File, offset: nat, s: Segment) returns (rc: int)
    requires f.Valid()
    modifies f
    ensures f.Valid() && old(f.Padded()) <= f.Padded() && f.pos <= old(f.pos) + PHDR_SIZE
    ensures rc == 0 ==> f.pos == old(f.pos) + PHDR_SIZE
    ensures rc == 0 ==> Holds(f.Padded(), old(f.pos), PhdrCells(Load(offset, s.base, s.size, s.flags)), true)
    ensures rc != 0 ==> f.pos < old(f.pos) + PHDR_SIZE
    ensures Job(f.host, old(f.Now()), PHDR_SIZE, false) == if rc == 0 then Done(f.Now()) else Stopped(f.Now())
  {
    hide Holds, OnlyNew, Job;
    rc := f.WriteMem(PhdrCells(Load(offset, s.base, s.size, s.flags)), false);
  }

  /** Where the host's answers lead when the ELF header and `n` program headers are written, each of
      which has to be taken. */
  ghost function HeadersTaken(host: nat -> Answer, n: nat): Option<Progress>
    requires Sane(host)
  {
    if n == 0 then Finished(Job(host, Progress(0, 0, 0), EHDR_SIZE, false))
    else
      match HeadersTaken(host, n - 1)
      case None => None
      case Some(p) => Finished(Job(host, p, PHDR_SIZE, false))
  }

  ghost function Finished(r: Result): Option<Progress> {
    match r
    case Done(p) => Some(p)
    case Stopped(_) => None
  }

  /** The same for `n` headers whose results are not looked at. */
  ghost function HeadersTried(host: nat -> Answer, p: Progress, n: nat): Progress
    requires Sane(host)
  {
    if n == 0 then p else Job(host, HeadersTried(host, p, n - 1), PHDR_SIZE, false).p
  }

  /** The header table holds the headers of `segs`, and the next offset is theirs to continue. */
  ghost predicate HeaderState(data: Data, start: nat, segs: seq<Segment>, offset: nat) {
    && |data| == EHDR_SIZE + PHDR_SIZE * (|segs| + 1)
    && HeadersPlaced(data, start, segs)
    && PageUp(offset) == Offset(start, segs, |segs|)
  }

  lemma HeaderStateStep(a: Data, b: Data, start: nat, segs: seq<Segment>, s: Segment, offset: nat)
    requires HeaderState(a, start, segs, offset) && a <= b && |b| == |a| + PHDR_SIZE
    requires Holds(b, |a|, PhdrCells(Load(PageUp(offset), s.base, s.size, s.flags)), true)
    ensures HeaderState(b, start, segs + [s], PageUp(offset) + s.size)
  {
    hide Holds, PhdrCells, HeadersPlaced, PageUp;
    HeadersStep(a, b, start, segs, s, Load(PageUp(offset), s.base, s.size, s.flags));
    OffsetStep(start, segs, s);
  }

  // km_core_write_payload_phdr
  method WritePayloadPhdr(f: File, m: Machine, p: Payload, endLoad: nat, from: nat, ghost start: nat,
                          ghost segs: seq<Segment>)
    returns (rc: int, offset: nat)
    requires f.Valid() && HeaderState(f.Padded(), start, segs, from) &&
             HeadersTaken(f.host, |segs| + 1) == Some(f.Now())
    modifies f
    ensures f.Valid() && old(f.Padded()) <= f.Padded()
    ensures var t := segs + Loads(m, p, p.phdrs, endLoad);
            if rc == 0 then HeaderState(f.Padded(), start, t, offset) && HeadersTaken(f.host, |t| + 1) == Some(f.Now())
            else HeadersTaken(f.host, |t| + 1) == None
  {
    hide Holds, HeaderState, Loads, LoadSegment, Sane, PhdrCells, PageUp, Job;
    offset := from;
    var i := 0;
    LoadsNone(m, p, p.phdrs, endLoad);
    assert segs + [] == segs;
    while i < |p.phdrs|
      invariant i <= |p.phdrs| && f.Valid() && old(f.Padded()) <= f.Padded()
      invariant HeaderState(f.Padded(), start, segs + Loads(m, p, p.phdrs[..i], endLoad), offset)
      invariant HeadersTaken(f.host, |segs + Loads(m, p, p.phdrs[..i], endLoad)| + 1) == Some(f.Now())
    {
      LoadsStep(m, p, p.phdrs, endLoad, i);
      if p.phdrs[i].ptype == PT_LOAD {
        var s := LoadSegment(m, p, p.phdrs[i], endLoad);
        ghost var before, done := f.Padded(), Loads(m, p, p.phdrs[..i], endLoad);
        rc := WriteLoadHeader(f, PageUp(offset), s);
        if rc != 0 {
          LoadsGrow(m, p, p.phdrs, endLoad, i + 1);
          NotTaken(f.host, |segs + done| + 2, |segs + Loads(m, p, p.phdrs, endLoad)| + 1);
          return;
        }
        HeaderStateStep(before, f.Padded(), start, segs + done, s, offset);
        assert (segs + done) + [s] == segs + (done + [s]);
        offset := PageUp(offset) + s.size;
      }
      i := i + 1;
    }
    rc := 0;
  }

  lemma {:induction false} LoadsGrow(m: Machine, p: Payload, hs: seq<ElfPhdr>, endLoad: nat, i: nat)
    requires i <= |hs|
    ensures |Loads(m, p, hs[..i], endLoad)| <= |Loads(m, p, hs, endLoad)|
    decreases |hs| - i
  {
    hide Loads, LoadSegment;
    if i < |hs| {
      LoadsStep(m, p, hs, endLoad, i);
      LoadsGrow(m, p, hs, endLoad, i + 1);
    } else {
      assert hs[..i] == hs;
    }
  }

  /** A header that is refused is not made up for by later ones. */
  lemma {:induction false} NotTaken(host: nat -> Answer, a: nat, b: nat)
    requires Sane(host) && a <= b && HeadersTaken(host, a) == None
    ensures HeadersTaken(host, b) == None
    decreases b
  {
    hide Job;
    if a < b {
      NotTaken(host, a, b - 1);
    }
  }

  /** The headers of the first mappings, or a header table that fell short. */
  ghost predicate MapHeaders(data: Data, start: nat, segs: seq<Segment>, offset: nat, ok: bool) {
    if ok then HeaderState(data, start, segs, offset) else |data| < EHDR_SIZE + PHDR_SIZE * (|segs| + 1)
  }

  lemma MapHeadersStep(a: Data, b: Data, start: nat, segs: seq<Segment>, s: Segment, offset: nat, ok: bool, rc: int)
    requires MapHeaders(a, start, segs, offset, ok) && a <= b && |b| <= |a| + PHDR_SIZE
    requires rc == 0 ==> |b| == |a| + PHDR_SIZE &&
                         Holds(b, |a|, PhdrCells(Load(PageUp(offset), s.base, s.size, s.flags)), true)
    requires rc != 0 ==> |b| < |a| + PHDR_SIZE
    ensures MapHeaders(b, start, segs + [s], PageUp(offset) + s.size, ok && rc == 0)
  {
    hide Holds, PhdrCells, HeadersPlaced, Offset, PageUp;
    if ok && rc == 0 {
      HeaderStateStep(a, b, start, segs, s, offset);
    }
  }

  // the mapping loop of km_core_write_phdrs; the result of writing a header is not looked at
  method WriteMapPhdrs(f: File, ms: seq<Mmap>, from: nat, ghost start: nat, ghost segs: seq<Segment>)
    returns (offset: nat, ghost ok: bool)
    requires f.Valid() && HeaderState(f.Padded(), start, segs, from) &&
             HeadersTaken(f.host, |segs| + 1) == Some(f.Now())
    modifies f
    ensures f.Valid() && old(f.Padded()) <= f.Padded() && MapHeaders(f.Padded(), start, segs + Mapped(ms), offset, ok)
    ensures f.Now() == HeadersTried(f.host, old(f.Now()), |Mapped(ms)|)
    ensures HeadersTaken(f.host, |segs + Mapped(ms)| + 1) == if ok then Some(f.Now()) else None
  {
    hide Holds, HeaderState, Mapped, MapSegment, Sane, PhdrCells, PageUp, Job;
    offset, ok := from, true;
    var i := 0;
    MappedNone(ms);
    assert segs + [] == segs;
    while i < |ms|
      invariant i <= |ms| && f.Valid() && old(f.Padded()) <= f.Padded()
      invariant MapHeaders(f.Padded(), start, segs + Mapped(ms[..i]), offset, ok)
      invariant f.Now() == HeadersTried(f.host, old(f.Now()), |Mapped(ms[..i])|)
      invariant HeadersTaken(f.host, |segs + Mapped(ms[..i])| + 1) == if ok then Some(f.Now()) else None
    {
      hide MapHeaders;
      MappedStep(ms, i);
      if ms[i].protection != PROT_NONE {
        var s := MapSegment(ms[i]);
        ghost var before, done := f.Padded(), Mapped(ms[..i]);
        var rc := WriteLoadHeader(f, PageUp(offset), s);
        MapHeadersStep(before, f.Padded(), start, segs + done, s, offset, ok, rc);
        assert (segs + done) + [s] == segs + (done + [s]);
        offset := PageUp(offset) + s.size;
        ok := ok && rc == 0;
      }
      i := i + 1;
    }
  }

  /** ELF header, header of the notes, and where the notes will be. */
  ghost predicate TopPlaced(data: Data, phnum: nat, used: int) {
    && Holds(data, 0, EhdrCells(phnum), true)
    && Holds(data, EHDR_SIZE, PhdrCells(Note(EHDR_SIZE + PHDR_SIZE * phnum, used)), true)
  }

  lemma TopGrown(a: Data, b: Data, phnum: nat, used: int)
    requires TopPlaced(a, phnum, used) && a <= b
    ensures TopPlaced(b, phnum, used)
  {
    hide Holds;
    HoldsGrown(a, b, 0, EhdrCells(phnum), true);
    HoldsGrown(a, b, EHDR_SIZE, PhdrCells(Note(EHDR_SIZE + PHDR_SIZE * phnum, used)), true);
  }

  method WriteTop(f: File, phnum: nat, used: int) returns (rc: int)
    requires f.Valid() && f.Now() == Progress(0, 0, 0)
    modifies f
    ensures f.Valid()
    ensures rc == 0 ==> TopPlaced(f.Padded(), phnum, used) && f.pos == EHDR_SIZE + PHDR_SIZE
    ensures HeadersTaken(f.host, 1) == if rc == 0 then Some(f.Now()) else None
  {
    hide Holds, OnlyNew, PhdrCells, Job;
    rc := f.WriteMem(EhdrCells(phnum), false);
    if rc != 0 {
      return;
    }
    ghost var before := f.Padded();
    rc := f.WriteMem(PhdrCells(Note(EHDR_SIZE + PHDR_SIZE * phnum, used)), false);
    HoldsGrown(before, f.Padded(), 0, EhdrCells(phnum), true);
  }

  /** Segments of the program and of its dynamic linker. */
  function LoadSegments(m: Machine, endLoad: nat): seq<Segment> {
    Loads(m, m.guest, m.guest.phdrs, endLoad) + LinkerLoads(m, endLoad)
  }

  // km_core_write_phdrs; `used` is the filled part of the note buffer
  method WritePhdrs(f: File, m: Machine, phnum: nat, endLoad: nat, used: int)
    returns (rc: int, offset: nat, ghost ok: bool)
    requires f.Valid() && f.Now() == Progress(0, 0, 0)
    modifies f
    ensures f.Valid()
    ensures rc == 0 <==> HeadersTaken(f.host, |LoadSegments(m, endLoad)| + 1).Some?
    ensures rc == 0 ==> (ok <==> HeadersTaken(f.host, |Segments(m, endLoad)| + 1).Some?)
    ensures rc == 0 ==>
              f.Now() ==
              HeadersTried(f.host, HeadersTaken(f.host, |LoadSegments(m, endLoad)| + 1).value, |Mapped(m.mmaps)|)
    ensures rc == 0 ==> var start := EHDR_SIZE + PHDR_SIZE * phnum + m.notes;
                        TopPlaced(f.Padded(), phnum, used) &&
                        MapHeaders(f.Padded(), start, Segments(m, endLoad), offset, ok)
  {
    hide Holds, Offset, PageUp, TopPlaced, Loads, Mapped, MapHeaders, HeadersTaken, HeadersTried;
    var start := EHDR_SIZE + PHDR_SIZE * phnum + m.notes;
    offset, ok := start, false;
    rc := WriteTop(f, phnum, used);
    if rc != 0 {
      NotTaken(f.host, 1, |LoadSegments(m, endLoad)| + 1);
      return;
    }
    ghost var top := f.Padded();
    NoHeaders(f.Padded(), start);
    hide HeaderState;
    ghost var segs := Loads(m, m.guest, m.guest.phdrs, endLoad);
    assert [] + segs == segs;
    rc, offset := WritePayloadPhdr(f, m, m.guest, endLoad, offset, start, []);
    if rc != 0 {
      NotTaken(f.host, |segs| + 1, |LoadSegments(m, endLoad)| + 1);
      return;
    }
    if m.dynlinker.Some? {
      rc, offset := WritePayloadPhdr(f, m, m.dynlinker.value, endLoad, offset, start, segs);
      if rc != 0 {
        return;
      }
    } else {
      assert segs + [] == segs;
    }
    segs := LoadSegments(m, endLoad);
    offset, ok := WriteMapPhdrs(f, m.mmaps, offset, start, segs);
    TopGrown(top, f.Padded(), phnum, used);
  }

  lemma NoHeaders(data: Data, start: nat)
    requires |data| == EHDR_SIZE + PHDR_SIZE
    ensures HeaderState(data, start, [], start)
  {
  }

  // ---- data ----------------------------------------------------------------------------------------

  /** Where the host's answers lead when the segments are written, each of which has to succeed. */
  ghost function DataTaken(host: nat -> Answer, p: Progress, segs: seq<Segment>): Option<Progress>
    requires Sane(host)
  {
    if segs == [] then Some(p)
    else
      match DataTaken(host, p, segs[..|segs| - 1])
      case None => None
      case Some(q) => Pages(host, Progress(q.call, PageUp(q.pos), q.end), PageUp(segs[|segs| - 1].size))
  }

  lemma DataTakenStep(host: nat -> Answer, p: Progress, segs: seq<Segment>, s: Segment)
    requires Sane(host)
    ensures DataTaken(host, p, segs + [s]) ==
            match DataTaken(host, p, segs) {
              case None => None
              case Some(q) => Pages(host, Progress(q.call, PageUp(q.pos), q.end), PageUp(s.size))
            }
  {
    assert (segs + [s])[..|segs|] == segs;
    hide Pages, PageUp;
  }

  lemma {:induction false} DataStops(host: nat -> Answer, p: Progress, a: seq<Segment>, b: seq<Segment>)
    requires Sane(host) && DataTaken(host, p, a) == None
    ensures DataTaken(host, p, a + b) == None
    decreases |b|
  {
    hide Pages, PageUp, DataTaken;
    if b == [] {
      assert a + b == a;
    } else {
      var n := |b| - 1;
      DataStops(host, p, a, b[..n]);
      assert a + b == (a + b[..n]) + [b[n]];
      DataTakenStep(host, p, a + b[..n], b[n]);
    }
  }

  /** The segments are in the file, and the next one continues at its offset. */
  ghost predicate DataState(data: Data, start: nat, segs: seq<Segment>, mem: int -> int, full: bool) {
    PageUp(|data|) == Offset(start, segs, |segs|) && SegmentsPlaced(data, start, segs, mem, full)
  }

  lemma DataStateStep(a: Data, b: Data, start: nat, segs: seq<Segment>, s: Segment, mem: int -> int, full: bool)
    requires DataState(a, start, segs, mem, full) && a <= b
    requires |b| == PageUp(|a|) + PageUp(s.size) && Holds(b, PageUp(|a|), Memory(mem, s.base, s.size), full)
    ensures DataState(b, start, segs + [s], mem, full)
  {
    hide Holds, Memory, PageUp, SegmentsPlaced, Offset;
    SegmentsStep(a, b, start, segs, s, mem, full);
    OffsetStep(start, segs, s);
    PageUpSum(PageUp(|a|), s.size);
  }

  // one segment: km_guestmem_write, from the state after `segs`
  method DumpSegment(f: File, mem: int -> int, s: Segment, ghost from: Progress, ghost start: nat,
                     ghost segs: seq<Segment>, ghost good: bool)
    returns (rc: int)
    requires f.Valid() && DataTaken(f.host, from, segs) == Some(f.Now())
    requires good ==> DataState(f.Padded(), start, segs, mem, NoFault(f.host))
    modifies f
    ensures f.Valid() && old(f.Padded()) <= f.Padded() && OnlyMemory(old(f.Padded()), f.Padded())
    ensures DataTaken(f.host, from, segs + [s]) == if rc == 0 then Some(f.Now()) else None
    ensures rc == 0 && good ==> DataState(f.Padded(), start, segs + [s], mem, NoFault(f.host))
  {
    hide Holds, DataState, DataTaken, NoFault, Memory, PageUp, Pages, OnlyMemory;
    ghost var before := f.Padded();
    rc := f.GuestWrite(mem, s.base, s.size);
    DataTakenStep(f.host, from, segs, s);
    if rc == 0 && good {
      DataStateStep(before, f.Padded(), start, segs, s, mem, NoFault(f.host));
    }
  }

  // the data loops of km_dump_core over a payload; `good` says that the headers took their room
  method DumpPayload(f: File, m: Machine, p: Payload, endLoad: nat, ghost from: Progress, ghost start: nat,
                     ghost segs: seq<Segment>, ghost good: bool)
    returns (rc: int)
    requires f.Valid() && DataTaken(f.host, from, segs) == Some(f.Now())
    requires good ==> DataState(f.Padded(), start, segs, m.mem, NoFault(f.host))
    modifies f
    ensures f.Valid() && old(f.Padded()) <= f.Padded() && OnlyMemory(old(f.Padded()), f.Padded())
    ensures DataTaken(f.host, from, segs + Loads(m, p, p.phdrs, endLoad)) == if rc == 0 then Some(f.Now()) else None
    ensures rc == 0 && good ==>
            DataState(f.Padded(), start, segs + Loads(m, p, p.phdrs, endLoad), m.mem, NoFault(f.host))
  {
    hide Holds, DataState, DataTaken, Loads, LoadSegment, Sane, NoFault;
    var i := 0;
    LoadsNone(m, p, p.phdrs, endLoad);
    assert segs + [] == segs;
    while i < |p.phdrs|
      invariant i <= |p.phdrs| && f.Valid() && old(f.Padded()) <= f.Padded() && OnlyMemory(old(f.Padded()), f.Padded())
      invariant DataTaken(f.host, from, segs + Loads(m, p, p.phdrs[..i], endLoad)) == Some(f.Now())
      invariant good ==> DataState(f.Padded(), start, segs + Loads(m, p, p.phdrs[..i], endLoad), m.mem, NoFault(f.host))
    {
      LoadsStep(m, p, p.phdrs, endLoad, i);
      if p.phdrs[i].ptype == PT_LOAD {
        var s := LoadSegment(m, p, p.phdrs[i], endLoad);
        ghost var before, done := f.Padded(), Loads(m, p, p.phdrs[..i], endLoad);
        rc := DumpSegment(f, m.mem, s, from, start, segs + done, good);
        OnlyMemoryTrans(old(f.Padded()), before, f.Padded());
        assert (segs + done) + [s] == segs + (done + [s]);
        if rc != 0 {
          LoadsSplit(m, p, p.phdrs, endLoad, i + 1);
          ghost var rest := Loads(m, p, p.phdrs, endLoad)[|done| + 1..];
          DataStops(f.host, from, segs + (done + [s]), rest);
          assert (segs + (done + [s])) + rest == segs + Loads(m, p, p.phdrs, endLoad);
          return;
        }
      }
      i := i + 1;
    }
    rc := 0;
  }

  lemma {:induction false} LoadsSplit(m: Machine, p: Payload, hs: seq<ElfPhdr>, endLoad: nat, i: nat)
    requires i <= |hs|
    ensures Loads(m, p, hs[..i], endLoad) <= Loads(m, p, hs, endLoad)
    decreases |hs| - i
  {
    hide Loads, LoadSegment;
    if i < |hs| {
      LoadsStep(m, p, hs, endLoad, i);
      LoadsSplit(m, p, hs, endLoad, i + 1);
    } else {
      assert hs[..i] == hs;
    }
  }

  lemma {:induction false} MappedSplit(ms: seq<Mmap>, i: nat)
    requires i <= |ms|
    ensures Mapped(ms[..i]) <= Mapped(ms)
    decreases |ms| - i
  {
    hide Mapped, MapSegment;
    if i < |ms| {
      MappedStep(ms, i);
      MappedSplit(ms, i + 1);
    } else {
      assert ms[..i] == ms;
    }
  }

  lemma OnlyMemoryTrans(a: Data, b: Data, c: Data)
    requires a <= b <= c && OnlyMemory(a, b) && OnlyMemory(b, c)
    ensures OnlyMemory(a, c)
  {
  }

  /** The dump can read the mapping, or the host lets its protection be changed for the dump and back. */
  predicate Readable(r: Mmap, unlocks: Mmap -> bool) {
    r.protection == PROT_NONE || r.monitor || r.protection % 2 == PROT_READ || unlocks(r)
  }

  // the mapping loop of km_dump_core
  method DumpMaps(f: File, m: Machine, unlocks: Mmap -> bool, ghost from: Progress, ghost start: nat,
                  ghost segs: seq<Segment>, ghost good: bool)
    returns (rc: int)
    requires f.Valid() && DataTaken(f.host, from, segs) == Some(f.Now())
    requires good ==> DataState(f.Padded(), start, segs, m.mem, NoFault(f.host))
    modifies f
    ensures f.Valid() && old(f.Padded()) <= f.Padded() && OnlyMemory(old(f.Padded()), f.Padded())
    ensures rc == 0 <==> (forall k :: 0 <= k < |m.mmaps| ==> Readable(m.mmaps[k], unlocks)) &&
                         DataTaken(f.host, from, segs + Mapped(m.mmaps)).Some?
    ensures rc == 0 ==> DataTaken(f.host, from, segs + Mapped(m.mmaps)) == Some(f.Now())
    ensures rc == 0 && good ==> DataState(f.Padded(), start, segs + Mapped(m.mmaps), m.mem, NoFault(f.host))
  {
    hide Holds, DataState, DataTaken, Mapped, MapSegment, Sane, NoFault;
    var ms := m.mmaps;
    var i := 0;
    MappedNone(ms);
    assert segs + [] == segs;
    while i < |ms|
      invariant i <= |ms| && f.Valid() && old(f.Padded()) <= f.Padded() && OnlyMemory(old(f.Padded()), f.Padded())
      invariant forall k :: 0 <= k < i ==> Readable(ms[k], unlocks)
      invariant DataTaken(f.host, from, segs + Mapped(ms[..i])) == Some(f.Now())
      invariant good ==> DataState(f.Padded(), start, segs + Mapped(ms[..i]), m.mem, NoFault(f.host))
    {
      MappedStep(ms, i);
      if ms[i].protection != PROT_NONE {
        if !ms[i].monitor && ms[i].protection % 2 != PROT_READ && !unlocks(ms[i]) {
          assert !Readable(ms[i], unlocks);
          return 13; // EACCES
        }
        var s := MapSegment(ms[i]);
        ghost var before, done := f.Padded(), Mapped(ms[..i]);
        rc := DumpSegment(f, m.mem, s, from, start, segs + done, good);
        OnlyMemoryTrans(old(f.Padded()), before, f.Padded());
        assert (segs + done) + [s] == segs + (done + [s]);
        if rc != 0 {
          MappedSplit(ms, i + 1);
          ghost var rest := Mapped(ms)[|done| + 1..];
          DataStops(f.host, from, segs + (done + [s]), rest);
          assert (segs + (done + [s])) + rest == segs + Mapped(ms);
          return;
        }
      }
      i := i + 1;
    }
    rc := 0;
  }

  // ---- the whole file ------------------------------------------------------------------------------

  /** A core file as its headers describe it: every byte they speak of is in the file. */
  ghost predicate Complete(data: Data, m: Machine, used: int, full: bool) {
    var segs := Segments(m, EndLoad(m));
    var phnum := 1 + |segs|;
    var notesAt := EHDR_SIZE + PHDR_SIZE * phnum;
    && TopPlaced(data, phnum, used) && HeadersPlaced(data, notesAt + m.notes, segs)
    && Holds(data, notesAt, NoteCells(m.notes), true)
    && SegmentsPlaced(data, notesAt + m.notes, segs, m.mem, full)
  }

  /** Where the segments start, at the earliest. */
  function DataStart(m: Machine): nat {
    EHDR_SIZE + PHDR_SIZE * (1 + |Segments(m, EndLoad(m))|) + m.notes
  }

  /** Where the host's answers lead over a whole dump: the headers of the loaded segments have to be
      taken, those of the mappings are tried, notes and data have to be taken. */
  ghost function DumpTaken(m: Machine, host: nat -> Answer): Option<Progress>
    requires Sane(host)
  {
    match HeadersTaken(host, |LoadSegments(m, EndLoad(m))| + 1)
    case None => None
    case Some(p) =>
      match Job(host, HeadersTried(host, p, |Mapped(m.mmaps)|), m.notes, false)
      case Stopped(_) => None
      case Done(q) => DataTaken(host, q, Segments(m, EndLoad(m)))
  }

  /** Notes that are not where their header says. */
  lemma NotesAstray(a: Data, b: Data, c: Data, n: nat, at: int)
    requires a <= b <= c && |b| == |a| + n && n > 0 && 0 <= |a| < at
    requires Holds(b, |a|, NoteCells(n), true) && OnlyMemory(b, c)
    ensures !Holds(c, at, NoteCells(n), true)
  {
    assert NoteCells(n)[0] == NoteByte(0);
    if at < |b| {
      assert b[|a| + (at - |a|)] == NoteCells(n)[at - |a|];
    }
    assert at < |c| ==> c[at + 0] != NoteByte(0);
  }

  lemma NoData(host: nat -> Answer, from: Progress, data: Data, start: nat, mem: int -> int, full: bool)
    requires Sane(host)
    ensures DataTaken(host, from, []) == Some(from)
    ensures |data| == start ==> DataState(data, start, [], mem, full)
  {
  }

  method DumpLoads(f: File, m: Machine, endLoad: nat, ghost start: nat, ghost good: bool) returns (rc: int)
    requires f.Valid() && (good ==> f.pos == start)
    modifies f
    ensures f.Valid() && old(f.Padded()) <= f.Padded() && OnlyMemory(old(f.Padded()), f.Padded())
    ensures DataTaken(f.host, old(f.Now()), LoadSegments(m, endLoad)) == if rc == 0 then Some(f.Now()) else None
    ensures rc == 0 && good ==> DataState(f.Padded(), start, LoadSegments(m, endLoad), m.mem, NoFault(f.host))
  {
    hide NoFault, Loads, OnlyMemory, DataTaken, DataState;
    ghost var from, a := f.Now(), f.Padded();
    ghost var segs := Loads(m, m.guest, m.guest.phdrs, endLoad);
    NoData(f.host, from, a, start, m.mem, NoFault(f.host));
    assert [] + segs == segs;
    rc := DumpPayload(f, m, m.guest, endLoad, from, start, [], good);
    if rc != 0 {
      DataStops(f.host, from, segs, LinkerLoads(m, endLoad));
      return;
    }
    ghost var b := f.Padded();
    if m.dynlinker.Some? {
      rc := DumpPayload(f, m, m.dynlinker.value, endLoad, from, start, segs, good);
      OnlyMemoryTrans(a, b, f.Padded());
    } else {
      assert segs + [] == segs;
    }
  }

  method DumpData(f: File, m: Machine, unlocks: Mmap -> bool, ghost start: nat, ghost good: bool) returns (rc: int)
    requires f.Valid() && (good ==> f.pos == start)
    modifies f
    ensures f.Valid() && old(f.Padded()) <= f.Padded() && OnlyMemory(old(f.Padded()), f.Padded())
    ensures rc == 0 <==> (forall k :: 0 <= k < |m.mmaps| ==> Readable(m.mmaps[k], unlocks)) &&
                         DataTaken(f.host, old(f.Now()), Segments(m, EndLoad(m))).Some?
    ensures rc == 0 ==> DataTaken(f.host, old(f.Now()), Segments(m, EndLoad(m))) == Some(f.Now())
    ensures rc == 0 && good ==> SegmentsPlaced(f.Padded(), start, Segments(m, EndLoad(m)), m.mem, NoFault(f.host))
  {
    hide NoFault, Loads, LinkerLoads, Mapped, OnlyMemory, Readable, EndLoad, DataTaken, DataState, SegmentsPlaced;
    ghost var from, a, segs := f.Now(), f.Padded(), LoadSegments(m, EndLoad(m));
    rc := DumpLoads(f, m, EndLoad(m), start, good);
    if rc != 0 {
      DataStops(f.host, from, segs, Mapped(m.mmaps));
      return;
    }
    ghost var b := f.Padded();
    rc := DumpMaps(f, m, unlocks, from, start, segs, good);
    OnlyMemoryTrans(a, b, f.Padded());
    if rc == 0 && good {
      StatePlaced(f.Padded(), start, segs + Mapped(m.mmaps), m.mem, NoFault(f.host));
    }
  }

  lemma StatePlaced(data: Data, start: nat, segs: seq<Segment>, mem: int -> int, full: bool)
    requires DataState(data, start, segs, mem, full)
    ensures SegmentsPlaced(data, start, segs, mem, full)
  {
  }

  /** The segments that stand in the padded file stand in the file itself exactly when it reaches them. */
  lemma SegmentsCut(a: Data, b: Data, start: nat, segs: seq<Segment>, mem: int -> int, full: bool)
    requires SegmentsPlaced(b, start, segs, mem, full) && a <= b
    ensures SegmentsPlaced(a, start, segs, mem, full) <==> SegmentsEnd(start, segs) <= |a|
  {
    SegmentsEndIs(start, segs);
    hide Holds, Offset, SegmentsEnd, Memory;
    forall i | 0 <= i < |segs|
      ensures Holds(a, Offset(start, segs, i), Memory(mem, segs[i].base, segs[i].size), full) <==>
              (segs[i].size == 0 || Offset(start, segs, i) + segs[i].size <= |a|)
    {
      HoldsCut(a, b, Offset(start, segs, i), Memory(mem, segs[i].base, segs[i].size), full);
    }
  }

  lemma HeadersCut(a: Data, b: Data, start: nat, segs: seq<Segment>)
    requires HeadersPlaced(b, start, segs) && a <= b && EHDR_SIZE + PHDR_SIZE * (1 + |segs|) <= |a|
    ensures HeadersPlaced(a, start, segs)
  {
    hide Holds, HeaderOf, PhdrCells;
    forall i | 0 <= i < |segs|
      ensures Holds(a, EHDR_SIZE + PHDR_SIZE * (i + 1), PhdrCells(HeaderOf(start, segs, i)), true)
    {
      HoldsCut(a, b, EHDR_SIZE + PHDR_SIZE * (i + 1), PhdrCells(HeaderOf(start, segs, i)), true);
    }
  }

  lemma TopCut(a: Data, b: Data, phnum: nat, used: int)
    requires TopPlaced(b, phnum, used) && a <= b && EHDR_SIZE + PHDR_SIZE <= |a|
    ensures TopPlaced(a, phnum, used)
  {
    hide Holds;
    HoldsCut(a, b, 0, EhdrCells(phnum), true);
    HoldsCut(a, b, EHDR_SIZE, PhdrCells(Note(EHDR_SIZE + PHDR_SIZE * phnum, used)), true);
  }

  /** When all headers are in place, the file is complete exactly when it reaches the end of the segments. */
  lemma CompleteCut(a: Data, b: Data, m: Machine, used: int, full: bool)
    requires Complete(b, m, used, full) && a <= b && DataStart(m) <= |a|
    ensures Complete(a, m, used, full) <==> SegmentsEnd(DataStart(m), Segments(m, EndLoad(m))) <= |a|
  {
    hide Holds, TopPlaced, HeadersPlaced, SegmentsPlaced, Segments, EndLoad, SegmentsEnd, NoteCells;
    var segs := Segments(m, EndLoad(m));
    TopCut(a, b, 1 + |segs|, used);
    HeadersCut(a, b, DataStart(m), segs);
    HoldsCut(a, b, EHDR_SIZE + PHDR_SIZE * (1 + |segs|), NoteCells(m.notes), true);
    SegmentsCut(a, b, DataStart(m), segs, m.mem, full);
  }

  /** A file that lacks something its padded form lacks too. */
  lemma IncompleteCut(a: Data, b: Data, m: Machine, used: int, full: bool)
    requires a <= b && !Holds(b, EHDR_SIZE + PHDR_SIZE * (1 + |Segments(m, EndLoad(m))|), NoteCells(m.notes), true)
    ensures !Complete(a, m, used, full)
  {
    hide Segments, EndLoad, NoteCells, TopPlaced, HeadersPlaced, SegmentsPlaced;
    var at := EHDR_SIZE + PHDR_SIZE * (1 + |Segments(m, EndLoad(m))|);
    if Holds(a, at, NoteCells(m.notes), true) {
      HoldsGrown(a, b, at, NoteCells(m.notes), true);
    }
  }

  // km_dump_core, once the file is open and the note buffer is filled
  method DumpCore(f: File, m: Machine, used: int, unlocks: Mmap -> bool) returns (rc: int, phnum: nat)
    requires f.Valid() && f.Now() == Progress(0, 0, 0) && m.notes > 0
    modifies f
    ensures phnum == 1 + |Segments(m, EndLoad(m))|
    ensures rc == 0 <==> (forall k :: 0 <= k < |m.mmaps| ==> Readable(m.mmaps[k], unlocks)) &&
                         DumpTaken(m, f.host).Some?
    ensures rc == 0 ==> |f.data| == DumpTaken(m, f.host).value.end
    ensures rc == 0 ==>
              (Complete(f.data, m, used, NoFault(f.host)) <==>
               HeadersTaken(f.host, phnum).Some? &&
               SegmentsEnd(DataStart(m), Segments(m, EndLoad(m))) <= DumpTaken(m, f.host).value.end)
  {
    hide EndLoad, HeadersTaken, HeadersTried, DataTaken, Job, OnlyMemory, OnlyNew, Holds, NoFault, PageUp, Segments,
         HeadersPlaced, SegmentsPlaced, TopPlaced, Offset, NoteCells, Complete, SegmentsEnd, Readable, LoadSegments,
         Mapped;
    var endLoad;
    phnum, endLoad := CountPhdrs(m);
    ghost var notesAt := EHDR_SIZE + PHDR_SIZE * phnum;
    ghost var start := DataStart(m);
    var offset;
    ghost var ok;
    rc, offset, ok := WritePhdrs(f, m, phnum, endLoad, used);
    if rc != 0 {
      return;
    }
    ghost var heads, was := f.Padded(), f.Now();
    rc := f.WriteMem(NoteCells(m.notes), false);
    if rc != 0 {
      return;
    }
    JobFills(f.host, was, m.notes);
    ghost var notes, from := f.Padded(), f.Now();
    rc := DumpData(f, m, unlocks, start, ok);
    if rc != 0 {
      return;
    }
    DataGrows(f.host, from, Segments(m, EndLoad(m)));
    if ok {
      Assembled(heads, notes, f.Padded(), m, used, NoFault(f.host));
      CompleteCut(f.data, f.Padded(), m, used, NoFault(f.host));
    } else {
      NotesAstray(heads, notes, f.Padded(), m.notes, notesAt);
      IncompleteCut(f.data, f.Padded(), m, used, NoFault(f.host));
    }
  }

  /** Headers, notes and data in their places are a complete file. */
  lemma Assembled(heads: Data, notes: Data, all: Data, m: Machine, used: int, full: bool)
    requires heads <= notes <= all && TopPlaced(heads, 1 + |Segments(m, EndLoad(m))|, used)
    requires HeadersPlaced(heads, DataStart(m), Segments(m, EndLoad(m)))
    requires Holds(notes, EHDR_SIZE + PHDR_SIZE * (1 + |Segments(m, EndLoad(m))|), NoteCells(m.notes), true)
    requires SegmentsPlaced(all, DataStart(m), Segments(m, EndLoad(m)), m.mem, full)
    ensures Complete(all, m, used, full)
  {
    hide Holds, TopPlaced, HeadersPlaced, SegmentsPlaced, Segments, EndLoad, NoteCells;
    var segs := Segments(m, EndLoad(m));
    TopGrown(heads, all, 1 + |segs|, used);
    HeadersGrown(heads, all, DataStart(m), segs);
    HoldsGrown(notes, all, EHDR_SIZE + PHDR_SIZE * (1 + |segs|), NoteCells(m.notes), true);
  }

  // ---- how far the host's answers lead -------------------------------------------------------------

  /** Writing something of the monitor's own leaves no gap. */
  lemma {:induction false} JobFills(host: nat -> Answer, p: Progress, len: nat)
    requires Sane(host) && len > 0 && Job(host, p, len, false).Done?
    ensures var q := Job(host, p, len, false).p; q.end == q.pos == p.pos + len
    decreases len
  {
    var n := if host(p.call).n < len then host(p.call).n else len;
    if n < len {
      JobFills(host, Progress(p.call + 1, p.pos + n, p.pos + n), len - n);
    }
  }

  /** Without faults guest memory leaves none either, and the file never shrinks. */
  lemma {:induction false} JobGrows(host: nat -> Answer, p: Progress, len: nat)
    requires Sane(host) && p.end <= p.pos && Job(host, p, len, true).Done?
    ensures var q := Job(host, p, len, true).p; q.pos == p.pos + len && p.end <= q.end <= q.pos
    ensures NoFault(host) && len > 0 ==> Job(host, p, len, true).p.end == p.pos + len
    decreases len
  {
    if len > 0 && host(p.call).Wrote? {
      var n := if host(p.call).n < len then host(p.call).n else len;
      JobGrows(host, Progress(p.call + 1, p.pos + n, p.pos + n), len - n);
    }
  }

  lemma {:induction false} PagesGrow(host: nat -> Answer, p: Progress, size: nat)
    requires Sane(host) && p.end <= p.pos && Pages(host, p, size).Some?
    ensures var q := Pages(host, p, size).value; q.pos == p.pos + size && p.end <= q.end <= q.pos
    ensures NoFault(host) && size > 0 ==> Pages(host, p, size).value.end == p.pos + size
    decreases size
  {
    hide Job, NoFault;
    if size > 0 {
      var n := if size < MIB then size else MIB;
      JobGrows(host, p, n);
      PagesGrow(host, Job(host, p, n, true).p, size - n);
    }
  }

  lemma {:induction false} DataGrows(host: nat -> Answer, p: Progress, segs: seq<Segment>)
    requires Sane(host) && p.end <= p.pos && DataTaken(host, p, segs).Some?
    ensures var q := DataTaken(host, p, segs).value; p.end <= q.end <= q.pos
    decreases |segs|
  {
    hide Pages, PageUp;
    if segs != [] {
      var init, last := segs[..|segs| - 1], segs[|segs| - 1];
      DataGrows(host, p, init);
      var q := DataTaken(host, p, init).value;
      PagesGrow(host, Progress(q.call, PageUp(q.pos), q.end), PageUp(last.size));
    }
  }

  /** Without faults the file reaches the end of the segments. */
  lemma {:induction false} DataReaches(host: nat -> Answer, p: Progress, segs: seq<Segment>)
    requires Sane(host) && NoFault(host) && p.end <= p.pos && DataTaken(host, p, segs).Some?
    ensures var q := DataTaken(host, p, segs).value;
            PageUp(q.pos) == Offset(p.pos, segs, |segs|) && SegmentsEnd(p.pos, segs) <= q.end <= q.pos
    decreases |segs|
  {
    hide Pages, PageUp, NoFault;
    if segs != [] {
      var n := |segs| - 1;
      var init, last := segs[..n], segs[n];
      DataReaches(host, p, init);
      assert segs == init + [last];
      OffsetPrefix(p.pos, init, [last], n);
      var q := DataTaken(host, p, init).value;
      PagesGrow(host, Progress(q.call, PageUp(q.pos), q.end), PageUp(last.size));
      PageUpSum(PageUp(q.pos), last.size);
    }
  }

  /** Headers that are all taken follow each other. */
  lemma {:induction false} HeadersFill(host: nat -> Answer, n: nat)
    requires Sane(host) && HeadersTaken(host, n).Some?
    ensures var p := HeadersTaken(host, n).value; p.pos == p.end == EHDR_SIZE + PHDR_SIZE * n
  {
    hide Job;
    if n == 0 {
      JobFills(host, Progress(0, 0, 0), EHDR_SIZE);
    } else {
      HeadersFill(host, n - 1);
      JobFills(host, HeadersTaken(host, n - 1).value, PHDR_SIZE);
    }
  }

  /** Headers that are all taken are where trying them leads. */
  lemma {:induction false} TriedTaken(host: nat -> Answer, n: nat, k: nat)
    requires Sane(host) && HeadersTaken(host, n + k).Some?
    ensures HeadersTaken(host, n).Some?
    ensures HeadersTried(host, HeadersTaken(host, n).value, k) == HeadersTaken(host, n + k).value
    decreases k
  {
    hide Job;
    if k > 0 {
      TriedTaken(host, n, k - 1);
    }
  }

  /** A host that does not fault and takes every header makes every successful dump complete. */
  lemma NoFaultReaches(m: Machine, host: nat -> Answer)
    requires Sane(host) && NoFault(host) && m.notes > 0 && DumpTaken(m, host).Some?
    requires HeadersTaken(host, 1 + |Segments(m, EndLoad(m))|).Some?
    ensures SegmentsEnd(DataStart(m), Segments(m, EndLoad(m))) <= DumpTaken(m, host).value.end
  {
    hide Job, HeadersTaken, HeadersTried, DataTaken, NoFault, EndLoad, SegmentsEnd, Loads, Mapped, LinkerLoads;
    var segs := Segments(m, EndLoad(m));
    TriedTaken(host, |LoadSegments(m, EndLoad(m))| + 1, |Mapped(m.mmaps)|);
    HeadersFill(host, 1 + |segs|);
    var p := HeadersTaken(host, 1 + |segs|).value;
    JobFills(host, p, m.notes);
    DataReaches(host, Job(host, p, m.notes, false).p, segs);
  }

  // ---- two dumps that report success and are not complete -------------------------------------------

  /** One call each for the first headers. */
  lemma {:induction false} OneCallEach(host: nat -> Answer, n: nat)
    requires Sane(host) && forall i :: 0 <= i <= n ==> host(i).Wrote? && host(i).n >= EHDR_SIZE
    ensures HeadersTaken(host, n) == Some(Progress(n + 1, EHDR_SIZE + PHDR_SIZE * n, EHDR_SIZE + PHDR_SIZE * n))
  {
    if n > 0 {
      OneCallEach(host, n - 1);
      JobOnce(host, HeadersTaken(host, n - 1).value, PHDR_SIZE, false);
    } else {
      JobOnce(host, Progress(0, 0, 0), EHDR_SIZE, false);
    }
  }

  lemma JobOnce(host: nat -> Answer, p: Progress, len: nat, isGuest: bool)
    requires Sane(host) && host(p.call).Wrote? && host(p.call).n >= len > 0
    ensures Job(host, p, len, isGuest) == Done(Progress(p.call + 1, p.pos + len, p.pos + len))
  {
    JobDone(host, Progress(p.call + 1, p.pos + len, p.pos + len), isGuest);
  }

  lemma JobRefused(host: nat -> Answer, p: Progress, len: nat)
    requires Sane(host) && host(p.call).Failed? && len > 0
    ensures Job(host, p, len, false) == Stopped(Progress(p.call + 1, p.pos, p.end))
  {
  }

  /** Guest memory is dumped as long as the host does not fail; when it only faults, nothing is written. */
  lemma {:induction false} JobUnfailing(host: nat -> Answer, p: Progress, len: nat, faults: bool)
    requires Sane(host) && forall i :: p.call <= i ==> if faults then host(i).Fault? else host(i).Wrote?
    ensures Job(host, p, len, true).Done? && p.call <= Job(host, p, len, true).p.call
    ensures faults ==> Job(host, p, len, true).p.end == p.end
    decreases len
  {
    if len > 0 && !faults {
      var n := if host(p.call).n < len then host(p.call).n else len;
      JobUnfailing(host, Progress(p.call + 1, p.pos + n, p.pos + n), len - n, faults);
    }
  }

  lemma {:induction false} PagesUnfailing(host: nat -> Answer, p: Progress, size: nat, faults: bool)
    requires Sane(host) && forall i :: p.call <= i ==> if faults then host(i).Fault? else host(i).Wrote?
    ensures Pages(host, p, size).Some? && p.call <= Pages(host, p, size).value.call
    ensures faults ==> Pages(host, p, size).value.end == p.end
    decreases size
  {
    hide Job;
    if size > 0 {
      var n := if size < MIB then size else MIB;
      JobUnfailing(host, p, n, faults);
      PagesUnfailing(host, Job(host, p, n, true).p, size - n, faults);
    }
  }

  lemma {:induction false} DataUnfailing(host: nat -> Answer, p: Progress, segs: seq<Segment>, faults: bool)
    requires Sane(host) && forall i :: p.call <= i ==> if faults then host(i).Fault? else host(i).Wrote?
    ensures DataTaken(host, p, segs).Some? && p.call <= DataTaken(host, p, segs).value.call
    ensures faults ==> DataTaken(host, p, segs).value.end == p.end
    decreases |segs|
  {
    hide Pages, PageUp;
    if segs != [] {
      var init := segs[..|segs| - 1];
      DataUnfailing(host, p, init, faults);
      var q := DataTaken(host, p, init).value;
      PagesUnfailing(host, Progress(q.call, PageUp(q.pos), q.end), PageUp(segs[|segs| - 1].size), faults);
    }
  }

  /** A host that takes everything in one call each, except that it refuses the header `lost`. */
  function Refusing(m: Machine, lost: nat): nat -> Answer {
    i => if i == lost then Failed(28) else Wrote(EHDR_SIZE + m.notes)
  }

  /** A host that takes headers and notes in one call each and then faults on all of guest memory. */
  function Faulting(m: Machine, calls: nat): nat -> Answer {
    i => if i < calls then Wrote(EHDR_SIZE + m.notes) else Fault
  }

  /** The last header is refused, nobody notices, and all else is taken. */
  lemma LostHeader(m: Machine)
    requires m.notes > 0 && Mapped(m.mmaps) != []
    ensures var n := 1 + |Segments(m, EndLoad(m))|;
            Sane(Refusing(m, n)) && DumpTaken(m, Refusing(m, n)).Some? && HeadersTaken(Refusing(m, n), n) == None
  {
    hide EndLoad, Loads, Mapped, LinkerLoads, Job, DataTaken;
    var n, a, k := 1 + |Segments(m, EndLoad(m))|, |LoadSegments(m, EndLoad(m))| + 1, |Mapped(m.mmaps)|;
    assert n == a + k;
    var host := Refusing(m, n);
    OneCallEach(host, n - 1);
    TriedTaken(host, a, k - 1);
    JobRefused(host, HeadersTaken(host, n - 1).value, PHDR_SIZE);
    var p := HeadersTried(host, HeadersTaken(host, a).value, k);
    hide HeadersTaken, HeadersTried;
    JobOnce(host, p, m.notes, false);
    DataUnfailing(host, Job(host, p, m.notes, false).p, Segments(m, EndLoad(m)), false);
  }

  /** Every write of memory faults, which is skipped, and the file ends after the notes. */
  lemma AllFaults(m: Machine)
    requires m.notes > 0
    ensures var n := 1 + |Segments(m, EndLoad(m))|; var host := Faulting(m, n + 2);
            Sane(host) && HeadersTaken(host, n).Some? && DumpTaken(m, host).Some? &&
            DumpTaken(m, host).value.end == DataStart(m)
  {
    hide EndLoad, Loads, Mapped, LinkerLoads, Job, DataTaken, HeadersTaken, HeadersTried;
    var n, a, k := 1 + |Segments(m, EndLoad(m))|, |LoadSegments(m, EndLoad(m))| + 1, |Mapped(m.mmaps)|;
    assert n == a + k;
    var host := Faulting(m, n + 2);
    OneCallEach(host, n);
    TriedTaken(host, a, k);
    var p := HeadersTaken(host, n).value;
    JobOnce(host, p, m.notes, false);
    DataUnfailing(host, Job(host, p, m.notes, false).p, Segments(m, EndLoad(m)), true);
  }

  /** Any machine with a mapping: the dump reports success and its last header is missing. */
  method DumpWithoutHeader(m: Machine, used: int) returns (f: File, rc: int)
    requires m.notes > 0 && Mapped(m.mmaps) != []
    ensures rc == 0 && !Complete(f.data, m, used, NoFault(f.host))
  {
    hide Complete, DumpTaken, HeadersTaken, Segments, EndLoad, Mapped, Sane, NoFault;
    LostHeader(m);
    var phnum, _ := CountPhdrs(m);
    f := new File(Refusing(m, phnum));
    rc, phnum := DumpCore(f, m, used, _ => true);
  }

  /** Any machine with memory to dump: the dump reports success and the file ends before it. */
  method DumpWithoutMemory(m: Machine, used: int) returns (f: File, rc: int)
    requires m.notes > 0 && exists s :: s in Segments(m, EndLoad(m)) && s.size > 0
    ensures rc == 0 && !Complete(f.data, m, used, NoFault(f.host))
  {
    hide Complete, DumpTaken, HeadersTaken, Segments, EndLoad, Sane, NoFault, SegmentsEnd, Offset;
    AllFaults(m);
    ghost var segs := Segments(m, EndLoad(m));
    ghost var s :| s in segs && s.size > 0;
    ghost var i :| 0 <= i < |segs| && segs[i] == s;
    SegmentsEndIs(DataStart(m), segs);
    OffsetStarts(DataStart(m), segs, i);
    var phnum, _ := CountPhdrs(m);
    f := new File(Faulting(m, phnum + 2));
    rc, phnum := DumpCore(f, m, used, _ => true);
  }

  lemma OffsetStarts(start: nat, segs: seq<Segment>, i: nat)
    requires i < |segs|
    ensures start <= Offset(start, segs, i)
  {
    OffsetsApart(start, segs, i, i + 1);
  }
}
