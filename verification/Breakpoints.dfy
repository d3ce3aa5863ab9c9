/** Breakpoints of the GDB stub (km/gdb_kvm_x86_64.c, km/km_gdb_stub.c): software breakpoints as an
    overlay on guest memory, hardware breakpoints and watchpoints in debug registers. */
module Breakpoints {
  import opened Sequences

  const INT3: int := 0xcc
  const MAX_HW_BREAKPOINTS: nat := 4

  datatype SwBp = SwBp(addr: int, len: nat, saved: int)

  datatype HwType = Execute | Write | Read | Access

  datatype HwBp = HwBp(htype: HwType, addr: int, len: nat)

  type Memory = map<int, int>

  // ---- software breakpoints as a value -------------------------------------------------------------

  /** Position of the first breakpoint at the address, or the length of the list. */
  function Find(sw: seq<SwBp>, addr: int): (k: nat)
    ensures k <= |sw| && (k < |sw| ==> sw[k].addr == addr) && forall j :: 0 <= j < k ==> sw[j].addr != addr
  {
    if sw == [] then 0 else if sw[0].addr == addr then 0 else 1 + Find(sw[1..], addr)
  }

  predicate Planted(sw: seq<SwBp>, addr: int) {
    Find(sw, addr) < |sw|
  }

  /** Addresses are distinct and each saved byte is the original one. */
  ghost predicate ListOk(sw: seq<SwBp>, orig: Memory) {
    && (forall i, j :: 0 <= i < j < |sw| ==> sw[i].addr != sw[j].addr)
    && (forall i :: 0 <= i < |sw| ==> sw[i].addr in orig && sw[i].saved == orig[sw[i].addr])
  }

  /** Memory is the original with a trap at every breakpoint. */
  ghost predicate Overlay(mem: Memory, orig: Memory, sw: seq<SwBp>) {
    mem.Keys == orig.Keys && forall a :: a in orig ==> mem[a] == if Planted(sw, a) then INT3 else orig[a]
  }

  lemma PlantedIs(sw: seq<SwBp>, addr: int)
    ensures Planted(sw, addr) <==> exists k :: 0 <= k < |sw| && sw[k].addr == addr
  {
    if k :| 0 <= k < |sw| && sw[k].addr == addr {
      assert Find(sw, addr) <= k;
    }
  }

  lemma InsertKeeps(mem: Memory, orig: Memory, sw: seq<SwBp>, bp: SwBp)
    requires ListOk(sw, orig) && Overlay(mem, orig, sw) && !Planted(sw, bp.addr) && bp.addr in mem &&
             bp.saved == mem[bp.addr]
    ensures ListOk([bp] + sw, orig) && Overlay(mem[bp.addr := INT3], orig, [bp] + sw)
  {
    var t := [bp] + sw;
    assert t[1..] == sw;
    assert forall j :: 0 <= j < |sw| ==> sw[j].addr != bp.addr;
    forall a | a in orig
      ensures Planted(t, a) <==> a == bp.addr || Planted(sw, a)
    {
    }
  }

  lemma WithoutOk(sw: seq<SwBp>, orig: Memory, k: nat)
    requires ListOk(sw, orig) && k < |sw|
    ensures ListOk(Without(sw, k), orig)
  {
    var t := Without(sw, k);
    hide Without;
    forall j | 0 <= j < |t|
      ensures t[j].addr in orig && t[j].saved == orig[t[j].addr]
    {
      var i := WithoutFrom(sw, k, j);
    }
    forall j, l | 0 <= j < l < |t|
      ensures t[j].addr != t[l].addr
    {
      var i := WithoutFrom(sw, k, j);
      var m := WithoutFrom(sw, k, l);
    }
  }

  lemma WithoutPlanted(sw: seq<SwBp>, orig: Memory, k: nat, a: int)
    requires ListOk(sw, orig) && k < |sw|
    ensures Planted(Without(sw, k), a) <==> a != sw[k].addr && Planted(sw, a)
  {
    var t := Without(sw, k);
    PlantedIs(t, a);
    PlantedIs(sw, a);
    hide Without, Planted, Find;
    if j :| 0 <= j < |sw| && sw[j].addr == a && a != sw[k].addr {
      var l := WithoutTo(sw, k, j);
    }
    if j :| 0 <= j < |t| && t[j].addr == a {
      var i := WithoutFrom(sw, k, j);
    }
  }

  lemma RemoveKeeps(mem: Memory, orig: Memory, sw: seq<SwBp>, k: nat)
    requires ListOk(sw, orig) && Overlay(mem, orig, sw) && k < |sw|
    ensures sw[k].addr in mem && mem[sw[k].addr] == INT3
    ensures ListOk(Without(sw, k), orig) && Overlay(mem[sw[k].addr := sw[k].saved], orig, Without(sw, k))
  {
    PlantedIs(sw, sw[k].addr);
    WithoutOk(sw, orig, k);
    hide Without, Planted, Find;
    forall a
      ensures Planted(Without(sw, k), a) <==> a != sw[k].addr && Planted(sw, a)
    {
      WithoutPlanted(sw, orig, k, a);
    }
  }

  lemma NoneLeft(mem: Memory, orig: Memory)
    requires Overlay(mem, orig, [])
    ensures mem == orig
  {
    assert forall a :: a in orig ==> mem[a] == orig[a];
  }

  /** The breakpoints that could not be removed, in order. */
  function Remaining(sw: seq<SwBp>, access: int -> bool): seq<SwBp> {
    if sw == [] then []
    else if access(sw[0].addr) then Remaining(sw[1..], access)
    else [sw[0]] + Remaining(sw[1..], access)
  }

  // ---- debug registers ---------------------------------------------------------------------------------

  function ConditionCode(t: HwType): bv32 {
    match t
    case Execute => 0
    case Write => 1
    case Read => 2
    case Access => 3
  }

  /** What the source finds past the end of its table of length codes, by length. */
  type Outside = nat -> bv8

  const LONGEST: nat := 8 // the last entry of mem_size_code

  // mem_size_code[len]: lengths in the table other than 1, 2, 4 and 8 have code 0
  function SizeCode(len: nat, outside: Outside): bv32 {
    if len > LONGEST then outside(len) as bv32
    else if len == 2 then 1 else if len == 4 then 3 else if len == 8 then 2 else 0
  }

  /** DR7 with slot n added: global enable, condition and length. */
  function With(dr7: bv32, n: nat, c: bv32, l: bv32): bv32
    requires n < 4
  {
    if n == 0 then dr7 | 0x2 | (c << 16) | (l << 18)
    else if n == 1 then dr7 | 0x8 | (c << 20) | (l << 22)
    else if n == 2 then dr7 | 0x20 | (c << 24) | (l << 26)
    else dr7 | 0x80 | (c << 28) | (l << 30)
  }

  /** DR7 for the first n breakpoints of the list. */
  function Dr7(hw: seq<HwBp>, n: nat, outside: Outside): bv32
    requires n <= |hw| <= MAX_HW_BREAKPOINTS
  {
    if n == 0 then 0x600
    else With(Dr7(hw, n - 1, outside), n - 1, ConditionCode(hw[n - 1].htype), SizeCode(hw[n - 1].len, outside))
  }

  datatype HwBreak = NoBreak | Break(addr: int, code: bv32)

  // km_gdb_get_hwbreak_info
  function HwBreakInfo(dr6: bv32, dr7: bv32, dr: seq<int>): HwBreak
    requires |dr| == 4
  {
    if dr6 & 1 != 0 && dr7 & 0x03 != 0 then Break(dr[0], (dr7 >> 16) & 0x03)
    else if dr6 & 2 != 0 && dr7 & 0x0c != 0 then Break(dr[1], (dr7 >> 20) & 0x03)
    else if dr6 & 4 != 0 && dr7 & 0x20 != 0 then Break(dr[2], (dr7 >> 24) & 0x03)
    else if dr6 & 8 != 0 && dr7 & 0xc0 != 0 then Break(dr[3], (dr7 >> 28) & 0x03)
    else NoBreak
  }

  /** The slot that fired: the lowest one in use whose bit is set in DR6. */
  function Fired(dr6: bv32, used: nat): nat {
    if used > 0 && dr6 & 1 != 0 then 0
    else if used > 1 && dr6 & 2 != 0 then 1
    else if used > 2 && dr6 & 4 != 0 then 2
    else if used > 3 && dr6 & 8 != 0 then 3
    else used
  }

  /** The condition field of slot n. */
  function Condition(dr7: bv32, n: nat): bv32
    requires n < 4
  {
    if n == 0 then (dr7 >> 16) & 0x03
    else if n == 1 then (dr7 >> 20) & 0x03
    else if n == 2 then (dr7 >> 24) & 0x03
    else (dr7 >> 28) & 0x03
  }

  /** The length field of slot n. */
  function Length(dr7: bv32, n: nat): bv32
    requires n < 4
  {
    if n == 0 then (dr7 >> 18) & 0x03
    else if n == 1 then (dr7 >> 22) & 0x03
    else if n == 2 then (dr7 >> 26) & 0x03
    else (dr7 >> 30) & 0x03
  }

  /** How many bytes a length field stands for (section "Debug Control Register (DR7)" of the Intel SDM,
      Volume 3). */
  function Watched(field: bv32): nat {
    if field == 0 then 1 else if field == 1 then 2 else if field == 2 then 8 else 4
  }

  /** Exactly the slots of the list are enabled. */
  predicate Enables(dr7: bv32, used: nat) {
    && (dr7 & 0x03 != 0 <==> used > 0) && (dr7 & 0x0c != 0 <==> used > 1)
    && (dr7 & 0x20 != 0 <==> used > 2) && (dr7 & 0xc0 != 0 <==> used > 3)
  }

  /** The bits of a length code that reach the condition of the next slot, and of the one after it. */
  function Near(l: bv32): bv32 {
    (l >> 2) & 0x03
  }

  function Far(l: bv32): bv32 {
    (l >> 6) & 0x03
  }

  /** The length field of a slot with length code l above one with length code m. */
  function Joint(l: bv32, m: bv32): bv32 {
    (l | (m >> 4)) & 0x03
  }

  function Mixed(c: bv32, a: bv32, b: bv32): bv32 {
    c | a | b
  }

  /** The condition of slot n with what the length codes of the two slots below spill into it. */
  function Seen(hw: seq<HwBp>, n: nat, outside: Outside): bv32
    requires n < |hw|
  {
    Mixed(ConditionCode(hw[n].htype), if n > 0 then Near(SizeCode(hw[n - 1].len, outside)) else 0,
          if n > 1 then Far(SizeCode(hw[n - 2].len, outside)) else 0)
  }

  function SeenLength(hw: seq<HwBp>, n: nat, outside: Outside): bv32
    requires n < |hw|
  {
    Joint(SizeCode(hw[n].len, outside), if n > 0 then SizeCode(hw[n - 1].len, outside) else 0)
  }

  /** Condition and length field of slot n, from its own code and those of the slots below it. */
  predicate Reads(d: bv32, n: nat, c: bv32, l: bv32, m: bv32, k: bv32)
    requires n < 4
  {
    Condition(d, n) == Mixed(c, Near(m), Far(k)) && Length(d, n) == Joint(l, m)
  }

  lemma OneSlot(c0: bv32, l0: bv32)
    requires c0 < 4 && l0 < 256
    ensures var d := With(0x600, 0, c0, l0); Enables(d, 1) && Reads(d, 0, c0, l0, 0, 0)
  {
  }

  lemma TwoSlots(c0: bv32, l0: bv32, c1: bv32, l1: bv32)
    requires c0 < 4 && l0 < 256 && c1 < 4 && l1 < 256
    ensures var d := With(With(0x600, 0, c0, l0), 1, c1, l1);
            Enables(d, 2) && Reads(d, 0, c0, l0, 0, 0) && Reads(d, 1, c1, l1, l0, 0)
  {
  }

  lemma ThreeSlots(c0: bv32, l0: bv32, c1: bv32, l1: bv32, c2: bv32, l2: bv32)
    requires c0 < 4 && l0 < 256 && c1 < 4 && l1 < 256 && c2 < 4 && l2 < 256
    ensures var d := With(With(With(0x600, 0, c0, l0), 1, c1, l1), 2, c2, l2);
            Enables(d, 3) && Reads(d, 0, c0, l0, 0, 0) && Reads(d, 1, c1, l1, l0, 0) && Reads(d, 2, c2, l2, l1, l0)
  {
  }

  lemma FourSlotsLow(c0: bv32, l0: bv32, c1: bv32, l1: bv32, c2: bv32, l2: bv32, c3: bv32, l3: bv32)
    requires c0 < 4 && l0 < 256 && c1 < 4 && l1 < 256 && c2 < 4 && l2 < 256 && c3 < 4 && l3 < 256
    ensures var d := With(With(With(With(0x600, 0, c0, l0), 1, c1, l1), 2, c2, l2), 3, c3, l3);
            Enables(d, 4) && Reads(d, 0, c0, l0, 0, 0) && Reads(d, 1, c1, l1, l0, 0)
  {
  }

  lemma FourSlotsHigh(c0: bv32, l0: bv32, c1: bv32, l1: bv32, c2: bv32, l2: bv32, c3: bv32, l3: bv32)
    requires c0 < 4 && l0 < 256 && c1 < 4 && l1 < 256 && c2 < 4 && l2 < 256 && c3 < 4 && l3 < 256
    ensures var d := With(With(With(With(0x600, 0, c0, l0), 1, c1, l1), 2, c2, l2), 3, c3, l3);
            Reads(d, 2, c2, l2, l1, l0) && Reads(d, 3, c3, l3, l2, l1)
  {
  }

  lemma FourSlots(c0: bv32, l0: bv32, c1: bv32, l1: bv32, c2: bv32, l2: bv32, c3: bv32, l3: bv32)
    requires c0 < 4 && l0 < 256 && c1 < 4 && l1 < 256 && c2 < 4 && l2 < 256 && c3 < 4 && l3 < 256
    ensures var d := With(With(With(With(0x600, 0, c0, l0), 1, c1, l1), 2, c2, l2), 3, c3, l3);
            Enables(d, 4) && Reads(d, 0, c0, l0, 0, 0) && Reads(d, 1, c1, l1, l0, 0) &&
            Reads(d, 2, c2, l2, l1, l0) && Reads(d, 3, c3, l3, l2, l1)
  {
    hide With, Enables, Reads;
    FourSlotsLow(c0, l0, c1, l1, c2, l2, c3, l3);
    FourSlotsHigh(c0, l0, c1, l1, c2, l2, c3, l3);
  }

  lemma NothingBelow()
    ensures Near(0) == 0 && Far(0) == 0
  {
  }

  lemma CodeSizes(bp: HwBp, outside: Outside)
    ensures ConditionCode(bp.htype) < 4 && SizeCode(bp.len, outside) < 256
  {
  }

  lemma Dr7Step(hw: seq<HwBp>, n: nat, outside: Outside)
    requires n < |hw| <= MAX_HW_BREAKPOINTS
    ensures Dr7(hw, n + 1, outside) ==
            With(Dr7(hw, n, outside), n, ConditionCode(hw[n].htype), SizeCode(hw[n].len, outside))
    ensures ConditionCode(hw[n].htype) < 4 && SizeCode(hw[n].len, outside) < 256
  {
    hide With;
    CodeSizes(hw[n], outside);
  }

  /** The fields of slot n hold its condition and length, with what length codes spill into them. */
  predicate Holds(hw: seq<HwBp>, n: nat, outside: Outside)
    requires n < |hw| <= MAX_HW_BREAKPOINTS
  {
    && Condition(Dr7(hw, |hw|, outside), n) == Seen(hw, n, outside)
    && Length(Dr7(hw, |hw|, outside), n) == SeenLength(hw, n, outside)
  }

  lemma FieldsOne(hw: seq<HwBp>, outside: Outside)
    requires |hw| == 1
    ensures Enables(Dr7(hw, 1, outside), 1) && Holds(hw, 0, outside)
  {
    Dr7None(hw, outside);
    NothingBelow();
    hide Dr7, With, ConditionCode, SizeCode, Enables, Condition, Length, Near, Far, Mixed, Joint;
    Dr7Step(hw, 0, outside);
    OneSlot(ConditionCode(hw[0].htype), SizeCode(hw[0].len, outside));
  }

  lemma FieldsTwo(hw: seq<HwBp>, outside: Outside)
    requires |hw| == 2
    ensures Enables(Dr7(hw, 2, outside), 2) && Holds(hw, 0, outside) && Holds(hw, 1, outside)
  {
    Dr7None(hw, outside);
    NothingBelow();
    hide Dr7, With, ConditionCode, SizeCode, Enables, Condition, Length, Near, Far, Mixed, Joint;
    Dr7Step(hw, 0, outside);
    Dr7Step(hw, 1, outside);
    TwoSlots(ConditionCode(hw[0].htype), SizeCode(hw[0].len, outside),
             ConditionCode(hw[1].htype), SizeCode(hw[1].len, outside));
  }

  lemma FieldsThree(hw: seq<HwBp>, outside: Outside)
    requires |hw| == 3
    ensures Enables(Dr7(hw, 3, outside), 3) && Holds(hw, 0, outside) && Holds(hw, 1, outside) && Holds(hw, 2, outside)
  {
    Dr7None(hw, outside);
    NothingBelow();
    hide Dr7, With, ConditionCode, SizeCode, Enables, Condition, Length, Near, Far, Mixed, Joint;
    Dr7Step(hw, 0, outside);
    Dr7Step(hw, 1, outside);
    Dr7Step(hw, 2, outside);
    ThreeSlots(ConditionCode(hw[0].htype), SizeCode(hw[0].len, outside),
               ConditionCode(hw[1].htype), SizeCode(hw[1].len, outside),
               ConditionCode(hw[2].htype), SizeCode(hw[2].len, outside));
  }

  lemma FieldsFour(hw: seq<HwBp>, outside: Outside)
    requires |hw| == 4
    ensures Enables(Dr7(hw, 4, outside), 4) && Holds(hw, 0, outside) && Holds(hw, 1, outside) &&
            Holds(hw, 2, outside) && Holds(hw, 3, outside)
  {
    Dr7None(hw, outside);
    NothingBelow();
    hide Dr7, With, ConditionCode, SizeCode, Enables, Condition, Length, Near, Far, Mixed, Joint;
    Dr7Step(hw, 0, outside);
    Dr7Step(hw, 1, outside);
    Dr7Step(hw, 2, outside);
    Dr7Step(hw, 3, outside);
    FourSlots(ConditionCode(hw[0].htype), SizeCode(hw[0].len, outside),
              ConditionCode(hw[1].htype), SizeCode(hw[1].len, outside),
              ConditionCode(hw[2].htype), SizeCode(hw[2].len, outside),
              ConditionCode(hw[3].htype), SizeCode(hw[3].len, outside));
  }

  /** DR7 enables exactly the slots in use, and the fields of each hold that. */
  lemma Dr7Fields(hw: seq<HwBp>, outside: Outside)
    requires |hw| <= MAX_HW_BREAKPOINTS
    ensures Enables(Dr7(hw, |hw|, outside), |hw|) && forall n :: 0 <= n < |hw| ==> Holds(hw, n, outside)
  {
    Dr7None(hw, outside);
    hide Dr7, Enables, Holds;
    if |hw| == 0 {
      NoSlots();
    } else if |hw| == 1 {
      FieldsOne(hw, outside);
    } else if |hw| == 2 {
      FieldsTwo(hw, outside);
    } else if |hw| == 3 {
      FieldsThree(hw, outside);
    } else {
      FieldsFour(hw, outside);
    }
  }

  lemma NoSlots()
    ensures Enables(0x600, 0)
  {
  }

  /** A breakpoint in one of the two slots below n is longer than the table of length codes. */
  predicate Exposed(hw: seq<HwBp>, n: nat)
    requires n < |hw|
  {
    (n > 0 && hw[n - 1].len > LONGEST) || (n > 1 && hw[n - 2].len > LONGEST)
  }

  /** The condition of slot n reads back whatever stands past the table. */
  ghost predicate Reliable(hw: seq<HwBp>, n: nat)
    requires n < |hw| <= MAX_HW_BREAKPOINTS
  {
    forall outside: Outside :: Condition(Dr7(hw, |hw|, outside), n) == ConditionCode(hw[n].htype)
  }

  /** Nothing spills from the codes of the table, and everything from a byte of all ones. */
  lemma CodeSpills(len: nat, outside: Outside)
    ensures len <= LONGEST ==> Near(SizeCode(len, outside)) == 0 && Far(SizeCode(len, outside)) == 0
    ensures len > LONGEST && outside(len) == 0xff ==>
              Near(SizeCode(len, outside)) == 3 && Far(SizeCode(len, outside)) == 3
    ensures Near(SizeCode(len, outside)) < 4 && Far(SizeCode(len, outside)) < 4
  {
    var l := SizeCode(len, outside);
    assert l == 0 || l == 1 || l == 2 || l == 3 || len > LONGEST;
    assert 0xff as bv8 as bv32 == 0xff;
    hide SizeCode;
    SpillBits(l);
  }

  lemma SpillBits(l: bv32)
    ensures l < 4 ==> Near(l) == 0 && Far(l) == 0
    ensures l == 0xff ==> Near(l) == 3 && Far(l) == 3
    ensures Near(l) < 4 && Far(l) < 4
  {
  }

  lemma MixedBits(c: bv32, a: bv32, b: bv32)
    requires c < 4 && a < 4 && b < 4
    ensures a == 0 && b == 0 ==> Mixed(c, a, b) == c
    ensures c == 3 || a == 3 || b == 3 ==> Mixed(c, a, b) == 3
  {
  }

  /** An access watch is seen as one, and so is a slot that a byte of all ones spills into; a slot that
      nothing can spill into is seen as it is. */
  lemma SeenIs(hw: seq<HwBp>, n: nat, outside: Outside)
    requires n < |hw|
    ensures !Exposed(hw, n) ==> Seen(hw, n, outside) == ConditionCode(hw[n].htype)
    ensures hw[n].htype == Access ==> Seen(hw, n, outside) == 3
    ensures Exposed(hw, n) && (forall len :: outside(len) == 0xff) ==> Seen(hw, n, outside) == 3
  {
    ConditionCodes(hw[n].htype);
    CodeSizes(hw[n], outside);
    hide SizeCode, Near, Far, Mixed, ConditionCode;
    var a := if n > 0 then Near(SizeCode(hw[n - 1].len, outside)) else 0;
    var b := if n > 1 then Far(SizeCode(hw[n - 2].len, outside)) else 0;
    if n > 0 {
      CodeSpills(hw[n - 1].len, outside);
    }
    if n > 1 {
      CodeSpills(hw[n - 2].len, outside);
    }
    MixedBits(ConditionCode(hw[n].htype), a, b);
  }

  /** What can trip a breakpoint. */
  datatype Event = Fetch | DataWrite | DataRead | PortAccess

  /** What a condition field stops on (section "Debug Control Register (DR7)" of the Intel SDM, Volume 3). */
  predicate StopsOn(field: bv32, e: Event) {
    match e
    case Fetch => field == 0
    case DataWrite => field == 1 || field == 3
    case DataRead => field == 3
    case PortAccess => field == 2
  }

  /** What the debugger asks for. */
  predicate Asked(t: HwType, e: Event) {
    match e
    case Fetch => t == Execute
    case DataWrite => t == Write || t == Access
    case DataRead => t == Read || t == Access
    case PortAccess => false
  }

  /** For everything that may stand past the table, the slot stops on what was asked. */
  ghost predicate StopsRightly(hw: seq<HwBp>, n: nat)
    requires n < |hw| <= MAX_HW_BREAKPOINTS
  {
    forall outside: Outside, e: Event :: StopsOn(Condition(Dr7(hw, |hw|, outside), n), e) <==> Asked(hw[n].htype, e)
  }

  lemma CodeStops(t: HwType, field: bv32)
    ensures (forall e :: StopsOn(field, e) <==> Asked(t, e)) <==> t != Read && field == ConditionCode(t)
  {
    if t == Read {
      assert Asked(t, DataRead) && !Asked(t, DataWrite);
      assert StopsOn(field, DataRead) ==> StopsOn(field, DataWrite);
    } else {
      assert StopsOn(field, Fetch) <==> field == 0;
      assert StopsOn(field, DataWrite) <==> field == 1 || field == 3;
      assert StopsOn(field, DataRead) <==> field == 3;
    }
  }

  /** The slot stops on what was asked exactly when it is no read watch, whose code is that of port accesses,
      and its condition reads back. */
  lemma SlotStops(hw: seq<HwBp>, n: nat)
    requires n < |hw| <= MAX_HW_BREAKPOINTS
    ensures StopsRightly(hw, n) <==> hw[n].htype != Read && (hw[n].htype == Access || !Exposed(hw, n))
    ensures hw[n].htype == Read && !Exposed(hw, n) ==>
              forall outside: Outside, e: Event ::
                StopsOn(Condition(Dr7(hw, |hw|, outside), n), e) <==> e == PortAccess
  {
    hide Dr7, Condition, Exposed, StopsOn, Asked;
    SlotReliable(hw, n);
    var t := hw[n].htype;
    if t != Read && Reliable(hw, n) {
      forall outside: Outside, e: Event
        ensures StopsOn(Condition(Dr7(hw, |hw|, outside), n), e) <==> Asked(t, e)
      {
        CodeStops(t, Condition(Dr7(hw, |hw|, outside), n));
      }
    } else {
      var some: Outside := len => 0;
      var bad: Outside := if t == Read then some
                          else var o: Outside :| Condition(Dr7(hw, |hw|, o), n) != ConditionCode(t); o;
      CodeStops(t, Condition(Dr7(hw, |hw|, bad), n));
    }
    if t == Read && Reliable(hw, n) {
      forall outside: Outside, e: Event
        ensures StopsOn(Condition(Dr7(hw, |hw|, outside), n), e) <==> e == PortAccess
      {
        PortCode(e);
      }
    }
  }

  lemma PortCode(e: Event)
    ensures StopsOn(ConditionCode(Read), e) <==> e == PortAccess
  {
  }

  lemma ConditionCodes(t: HwType)
    ensures ConditionCode(t) == 3 <==> t == Access
  {
  }

  /** The condition of a slot reads back for everything that may stand past the table exactly when it is an
      access watch or the breakpoints in the two slots below it are no longer than the table. */
  lemma SlotReliable(hw: seq<HwBp>, n: nat)
    requires n < |hw| <= MAX_HW_BREAKPOINTS
    ensures Reliable(hw, n) <==> hw[n].htype == Access || !Exposed(hw, n)
  {
    hide Dr7, ConditionCode, Seen, SeenLength, Exposed, Condition, Length;
    ConditionCodes(hw[n].htype);
    forall outside: Outside | hw[n].htype == Access || !Exposed(hw, n)
      ensures Condition(Dr7(hw, |hw|, outside), n) == ConditionCode(hw[n].htype)
    {
      Dr7Fields(hw, outside);
      assert Holds(hw, n, outside);
      SeenIs(hw, n, outside);
    }
    if hw[n].htype != Access && Exposed(hw, n) {
      var ones: Outside := len => 0xff;
      Dr7Fields(hw, ones);
      assert Holds(hw, n, ones);
      SeenIs(hw, n, ones);
      assert Condition(Dr7(hw, |hw|, ones), n) != ConditionCode(hw[n].htype);
    }
  }

  /** The length of slot n reads back whatever stands past the table. */
  ghost predicate LengthReliable(hw: seq<HwBp>, n: nat)
    requires n < |hw| <= MAX_HW_BREAKPOINTS
  {
    forall outside: Outside :: Watched(Length(Dr7(hw, |hw|, outside), n)) == hw[n].len
  }

  lemma JointBits(len: nat, m: bv32, outside: Outside)
    requires len <= LONGEST && m < 256
    ensures len == 4 || m < 4 ==> Joint(SizeCode(len, outside), m) == SizeCode(len, outside)
    ensures m == 0xff ==> Joint(SizeCode(len, outside), m) == 3
  {
  }

  lemma SeenLengthIs(hw: seq<HwBp>, n: nat, outside: Outside)
    requires n < |hw| && hw[n].len <= LONGEST
    ensures hw[n].len == 4 || n == 0 || hw[n - 1].len <= LONGEST ==>
              SeenLength(hw, n, outside) == SizeCode(hw[n].len, outside)
    ensures n > 0 && hw[n - 1].len > LONGEST && (forall len :: outside(len) == 0xff) ==> SeenLength(hw, n, outside) == 3
  {
    hide Joint;
    if n > 0 {
      CodeSizes(hw[n - 1], outside);
      assert 0xff as bv8 as bv32 == 0xff;
    }
    JointBits(hw[n].len, if n > 0 then SizeCode(hw[n - 1].len, outside) else 0, outside);
  }

  /** The length of a slot reads back for everything that may stand past the table exactly when it is one
      that the debug registers know, and it is 4 or the breakpoint in the slot below is no longer than the
      table. */
  lemma LengthDecodes(hw: seq<HwBp>, n: nat)
    requires n < |hw| <= MAX_HW_BREAKPOINTS
    ensures LengthReliable(hw, n) <==>
            hw[n].len in {1, 2, 4, 8} && (hw[n].len == 4 || n == 0 || hw[n - 1].len <= LONGEST)
  {
    hide Dr7, Seen, SeenLength, Condition, Length;
    var ones: Outside := len => 0xff;
    Dr7Fields(hw, ones);
    assert Holds(hw, n, ones);
    if hw[n].len <= LONGEST {
      SeenLengthIs(hw, n, ones);
      forall outside: Outside | hw[n].len in {1, 2, 4, 8} && (hw[n].len == 4 || n == 0 || hw[n - 1].len <= LONGEST)
        ensures Watched(Length(Dr7(hw, |hw|, outside), n)) == hw[n].len
      {
        Dr7Fields(hw, outside);
        assert Holds(hw, n, outside);
        SeenLengthIs(hw, n, outside);
      }
    }
    assert LengthReliable(hw, n) ==> Watched(Length(Dr7(hw, |hw|, ones), n)) == hw[n].len;
  }

  /** Enable bits and the condition of each slot. */
  predicate Decodes(dr7: bv32, hw: seq<HwBp>)
    requires |hw| <= MAX_HW_BREAKPOINTS
  {
    Enables(dr7, |hw|) && forall n :: 0 <= n < |hw| ==> Condition(dr7, n) == ConditionCode(hw[n].htype)
  }

  /** Every slot that is no access watch has only breakpoints of at most 8 bytes in the two slots below. */
  predicate Sheltered(hw: seq<HwBp>) {
    forall n :: 0 <= n < |hw| && hw[n].htype != Access ==> !Exposed(hw, n)
  }

  /** DR7 decodes into the list whatever stands past the table. */
  ghost predicate AlwaysDecodes(hw: seq<HwBp>)
    requires |hw| <= MAX_HW_BREAKPOINTS
  {
    forall outside: Outside :: Decodes(Dr7(hw, |hw|, outside), hw)
  }

  lemma ReliableDecodes(hw: seq<HwBp>)
    requires |hw| <= MAX_HW_BREAKPOINTS
    ensures AlwaysDecodes(hw) <==> forall n :: 0 <= n < |hw| ==> Reliable(hw, n)
  {
    hide Dr7, ConditionCode, Condition, Enables;
    if AlwaysDecodes(hw) {
      forall n, outside: Outside | 0 <= n < |hw|
        ensures Condition(Dr7(hw, |hw|, outside), n) == ConditionCode(hw[n].htype)
      {
        assert Decodes(Dr7(hw, |hw|, outside), hw);
      }
    }
    if forall n :: 0 <= n < |hw| ==> Reliable(hw, n) {
      forall outside: Outside
        ensures Decodes(Dr7(hw, |hw|, outside), hw)
      {
        Dr7Fields(hw, outside);
        forall n | 0 <= n < |hw|
          ensures Condition(Dr7(hw, |hw|, outside), n) == ConditionCode(hw[n].htype)
        {
          assert Reliable(hw, n);
        }
      }
    }
  }

  /** It does exactly when they have. */
  lemma Dr7Decodes(hw: seq<HwBp>)
    requires |hw| <= MAX_HW_BREAKPOINTS
    ensures AlwaysDecodes(hw) <==> Sheltered(hw)
  {
    hide AlwaysDecodes, Reliable, Exposed;
    ReliableDecodes(hw);
    forall n | 0 <= n < |hw|
      ensures Reliable(hw, n) <==> hw[n].htype == Access || !Exposed(hw, n)
    {
      SlotReliable(hw, n);
    }
  }

  /** What a hardware stop should be reported as: the lowest slot that fired, with the address and the kind
      of the breakpoint in that place of the list. */
  function RightBreak(hw: seq<HwBp>, dr6: bv32): HwBreak {
    var n := Fired(dr6, |hw|);
    if n < |hw| then Break(hw[n].addr, ConditionCode(hw[n].htype)) else NoBreak
  }

  /** It is attributed to that slot and address, with its kind and what spilled into it. */
  lemma HwBreakFound(hw: seq<HwBp>, dr6: bv32, dr: seq<int>, outside: Outside)
    requires |hw| <= MAX_HW_BREAKPOINTS && |dr| == 4 && forall n :: 0 <= n < |hw| ==> dr[n] == hw[n].addr
    ensures var n, stop := Fired(dr6, |hw|), HwBreakInfo(dr6, Dr7(hw, |hw|, outside), dr);
            if n < |hw| then
              stop == Break(hw[n].addr, Condition(Dr7(hw, |hw|, outside), n)) &&
              Condition(Dr7(hw, |hw|, outside), n) == Seen(hw, n, outside)
            else stop == NoBreak
  {
    hide Dr7, ConditionCode, Seen, SeenLength, Condition, Length, HwBreakInfo, Fired, Enables;
    Dr7Fields(hw, outside);
    assert Fired(dr6, |hw|) < |hw| ==> Holds(hw, Fired(dr6, |hw|), outside);
    FiredIs(hw, dr6, Dr7(hw, |hw|, outside), dr);
  }

  /** The stop is reported right whatever stands past the table. */
  ghost predicate AlwaysRight(hw: seq<HwBp>, dr6: bv32, dr: seq<int>)
    requires |hw| <= MAX_HW_BREAKPOINTS && |dr| == 4
  {
    forall outside: Outside :: HwBreakInfo(dr6, Dr7(hw, |hw|, outside), dr) == RightBreak(hw, dr6)
  }

  /** It is exactly when the slot is an access watch or has only breakpoints of at most 8 bytes in the two
      slots below it. */
  lemma HwBreakIs(hw: seq<HwBp>, dr6: bv32, dr: seq<int>)
    requires |hw| <= MAX_HW_BREAKPOINTS && |dr| == 4 && forall n :: 0 <= n < |hw| ==> dr[n] == hw[n].addr
    ensures AlwaysRight(hw, dr6, dr) <==>
            var n := Fired(dr6, |hw|); n < |hw| && hw[n].htype != Access ==> !Exposed(hw, n)
  {
    hide Dr7, ConditionCode, Seen, Exposed, Condition, HwBreakInfo, Fired;
    var n := Fired(dr6, |hw|);
    forall outside: Outside
      ensures HwBreakInfo(dr6, Dr7(hw, |hw|, outside), dr) ==
              if n < |hw| then Break(hw[n].addr, Condition(Dr7(hw, |hw|, outside), n)) else NoBreak
    {
      HwBreakFound(hw, dr6, dr, outside);
    }
    if n < |hw| {
      SlotReliable(hw, n);
      if AlwaysRight(hw, dr6, dr) {
        forall outside: Outside
          ensures Condition(Dr7(hw, |hw|, outside), n) == ConditionCode(hw[n].htype)
        {
          assert HwBreakInfo(dr6, Dr7(hw, |hw|, outside), dr) == RightBreak(hw, dr6);
        }
      }
    }
  }

  lemma FiredIs(hw: seq<HwBp>, dr6: bv32, dr7: bv32, dr: seq<int>)
    requires |hw| <= MAX_HW_BREAKPOINTS && |dr| == 4 && Enables(dr7, |hw|)
    requires forall n :: 0 <= n < |hw| ==> dr[n] == hw[n].addr
    ensures HwBreakInfo(dr6, dr7, dr) ==
            var n := Fired(dr6, |hw|); if n < |hw| then Break(hw[n].addr, Condition(dr7, n)) else NoBreak
  {
  }

  // ---- the stub ------------------------------------------------------------------------------------------

  class Stub {
    var mem: Memory
    var sw: seq<SwBp> // sw_breakpoints, first is the head
    var hw: seq<HwBp> // hw_breakpoints
    var nrHw: nat // nr_hw_breakpoints
    ghost var orig: Memory // guest memory as the guest wrote it

    ghost predicate Valid()
      reads this
    {
      && ListOk(sw, orig) && Overlay(mem, orig, sw)
      && nrHw == |hw| <= MAX_HW_BREAKPOINTS && forall i, j :: 0 <= i < j < |hw| ==> hw[i].addr != hw[j].addr
    }

    constructor (memory: Memory)
      ensures Valid() && mem == memory && orig == memory && sw == [] && hw == []
    {
      mem, sw, hw, nrHw, orig := memory, [], [], 0, memory;
    }

    // bp_list_find for software breakpoints
    method FindSw(addr: int) returns (k: nat)
      ensures k == Find(sw, addr)
    {
      k := 0;
      while k < |sw| && sw[k].addr != addr
        invariant k <= |sw| && forall j :: 0 <= j < k ==> sw[j].addr != addr
      {
        k := k + 1;
      }
    }

    // bp_list_find for hardware breakpoints and watchpoints of any kind
    method FindHw(addr: int) returns (k: nat)
      ensures k <= |hw| && (k < |hw| ==> hw[k].addr == addr) && forall j :: 0 <= j < k ==> hw[j].addr != addr
    {
      k := 0;
      while k < |hw| && hw[k].addr != addr
        invariant k <= |hw| && forall j :: 0 <= j < k ==> hw[j].addr != addr
      {
        k := k + 1;
      }
    }

    // km_gdb_add_breakpoint, software. `access` says whether the byte can be reached and made writable,
    // `update` whether the debug state of all vcpus can be set.
    method AddSw(addr: int, len: nat, access: bool, update: bool) returns (rc: int)
      requires Valid()
      modifies this
      ensures Valid() && orig == old(orig) && hw == old(hw)
      ensures rc == 0 <==> Planted(old(sw), addr) || (addr in mem && access && update)
      ensures if Planted(old(sw), addr) || addr !in mem || !access then sw == old(sw) && mem == old(mem)
              else sw == [SwBp(addr, len, old(mem)[addr])] + old(sw)
    {
      var k := FindSw(addr);
      if k < |sw| {
        return 0;
      }
      if addr !in mem || !access {
        return -1;
      }
      InsertKeeps(mem, orig, sw, SwBp(addr, len, mem[addr]));
      sw := [SwBp(addr, len, mem[addr])] + sw;
      mem := mem[addr := INT3];
      rc := if update then 0 else -1;
    }

    // km_gdb_remove_breakpoint, software
    method RemoveSw(addr: int, access: bool, update: bool) returns (rc: int)
      requires Valid()
      modifies this
      ensures Valid() && orig == old(orig) && hw == old(hw)
      ensures rc == 0 <==> !Planted(old(sw), addr) || (access && update)
      ensures sw == if Planted(old(sw), addr) && access then Without(old(sw), Find(old(sw), addr)) else old(sw)
      ensures !Planted(old(sw), addr) || !access ==> mem == old(mem)
    {
      var k := FindSw(addr);
      if k == |sw| {
        return 0;
      }
      if !access {
        return -1;
      }
      RemoveKeeps(mem, orig, sw, k);
      assert mem[addr] == INT3; // the source asserts this
      mem := mem[addr := sw[k].saved];
      sw := sw[..k] + sw[k + 1..];
      rc := if update then 0 else -1;
    }

    // km_gdb_add_breakpoint, hardware; a breakpoint of any kind at the address counts as set
    method AddHw(t: HwType, addr: int, len: nat, update: bool) returns (rc: int)
      requires Valid()
      modifies this
      ensures Valid() && orig == old(orig) && mem == old(mem) && sw == old(sw)
      ensures rc == 0 <==> (exists k :: 0 <= k < |old(hw)| && old(hw)[k].addr == addr) ||
                           (|old(hw)| < MAX_HW_BREAKPOINTS && update)
      ensures hw == if (exists k :: 0 <= k < |old(hw)| && old(hw)[k].addr == addr) || |old(hw)| == MAX_HW_BREAKPOINTS
                    then old(hw) else [HwBp(t, addr, len)] + old(hw)
    {
      var k := FindHw(addr);
      if k < |hw| {
        return 0;
      }
      if nrHw == MAX_HW_BREAKPOINTS {
        return -1;
      }
      nrHw := nrHw + 1;
      hw := [HwBp(t, addr, len)] + hw;
      rc := if update then 0 else -1;
    }

    // km_gdb_remove_breakpoint, hardware
    method RemoveHw(addr: int, update: bool) returns (rc: int)
      requires Valid()
      modifies this
      ensures Valid() && orig == old(orig) && mem == old(mem) && sw == old(sw)
      ensures rc == 0 <==> (forall k :: 0 <= k < |old(hw)| ==> old(hw)[k].addr != addr) || update
      ensures if exists k :: 0 <= k < |old(hw)| && old(hw)[k].addr == addr
              then exists k :: 0 <= k < |old(hw)| && old(hw)[k].addr == addr && hw == Without(old(hw), k)
              else hw == old(hw)
    {
      var k := FindHw(addr);
      if k == |hw| {
        return 0;
      }
      assert hw[..k] + hw[k + 1..] == Without(hw, k);
      hw := hw[..k] + hw[k + 1..];
      nrHw := nrHw - 1;
      rc := if update then 0 else -1;
    }

    // the copy and the correction loop of km_guest_mem2hex: a debugger sees memory without breakpoints
    method ReadMemory(addr: int, len: nat) returns (bytes: seq<int>)
      requires Valid() && forall a :: addr <= a < addr + len ==> a in mem
      ensures |bytes| == len && forall i :: 0 <= i < len ==> addr + i in orig && bytes[i] == orig[addr + i]
    {
      bytes := [];
      var i := 0;
      while i < len
        invariant 0 <= i <= len && |bytes| == i &&
                  forall j :: 0 <= j < i ==> addr + j in mem && bytes[j] == mem[addr + j]
      {
        bytes := bytes + [mem[addr + i]];
        i := i + 1;
      }
      i := 0;
      while i < len
        invariant 0 <= i <= len && |bytes| == len
        invariant forall j :: 0 <= j < i ==> addr + j in orig && bytes[j] == orig[addr + j]
        invariant forall j :: i <= j < len ==> addr + j in mem && bytes[j] == mem[addr + j]
      {
        var k := FindSw(addr + i);
        if k < |sw| {
          bytes := bytes[i := sw[k].saved];
        }
        i := i + 1;
      }
    }

    // km_gdb_remove_all_breakpoints; `access` answers for each address
    method RemoveAll(access: int -> bool, update: bool, skip: bool) returns (rc: int)
      requires Valid()
      modifies this
      ensures Valid() && orig == old(orig) && hw == [] && sw == Remaining(old(sw), access)
      ensures rc == 0 ==> sw == [] && mem == orig
      ensures sw == [] && (skip || update) ==> rc == 0
    {
      hide Overlay, ListOk, Remaining;
      rc := RemoveAllSw(access, update, skip);
      while hw != []
        invariant Valid() && orig == old(orig) && sw == Remaining(old(sw), access)
        invariant rc == 0 ==> sw == []
        invariant sw == [] && (skip || update) ==> rc == 0
        decreases |hw|
      {
        var r := RemoveHw(hw[0].addr, skip || update);
        if r != 0 {
          rc := r;
        }
      }
      if rc == 0 {
        NoneLeft(mem, orig);
      }
    }

    method RemoveAllSw(access: int -> bool, update: bool, skip: bool) returns (rc: int)
      requires Valid()
      modifies this
      ensures Valid() && orig == old(orig) && hw == old(hw) && sw == Remaining(old(sw), access)
      ensures rc == 0 ==> sw == []
      ensures sw == [] && (skip || update) ==> rc == 0
    {
      hide Overlay, ListOk, Remaining, Find, Without, Planted;
      var todo := sw;
      rc := 0;
      var i := 0;
      RemainingEnds(todo, access);
      while i < |todo|
        invariant i <= |todo| && Valid() && orig == old(orig) && hw == old(hw)
        invariant sw == Remaining(todo[..i], access) + todo[i..]
        invariant rc == 0 ==> |Remaining(todo[..i], access)| == 0
        invariant |Remaining(todo[..i], access)| == 0 && (skip || update) ==> rc == 0
      {
        RemainingStep(todo, i, access);
        var r := RemoveNext(todo, i, access(todo[i].addr), skip || update, Remaining(todo[..i], access));
        if r != 0 {
          rc := r;
        }
        i := i + 1;
      }
    }

    // one turn of its loop: the breakpoints before have been removed or stay, as `done` says
    method RemoveNext(todo: seq<SwBp>, i: nat, access: bool, update: bool, ghost done: seq<SwBp>) returns (r: int)
      requires Valid() && i < |todo| && sw == done + todo[i..]
      modifies this
      ensures Valid() && orig == old(orig) && hw == old(hw)
      ensures sw == (if access then done else done + [todo[i]]) + todo[i + 1..]
      ensures r == 0 <==> access && update
    {
      FindAfter(sw, orig, done, todo, i);
      SplitAt(sw, done, todo, i);
      hide Overlay, ListOk, Find, Without, Planted;
      r := RemoveSw(todo[i].addr, access, update);
    }

    // km_gdb_update_vcpu_debug: debug registers of a vcpu for the current list
    method UpdateVcpuDebug(dr: array<int>, outside: Outside) returns (dr7: bv32)
      requires Valid() && dr.Length == 4
      modifies dr
      ensures dr7 == if hw == [] then 0 else Dr7(hw, |hw|, outside)
      ensures forall n :: 0 <= n < |hw| ==> dr[n] == hw[n].addr
    {
      hide With, ListOk, Overlay;
      dr7 := 0;
      if hw != [] {
        dr7 := 0x600;
        Dr7None(hw, outside);
        hide Dr7;
        var n := 0;
        while n < |hw|
          invariant 0 <= n <= |hw| && dr7 == Dr7(hw, n, outside)
          invariant forall k :: 0 <= k < n ==> dr[k] == hw[k].addr
        {
          dr[n] := hw[n].addr;
          Dr7Step(hw, n, outside);
          dr7 := With(dr7, n, ConditionCode(hw[n].htype), SizeCode(hw[n].len, outside));
          n := n + 1;
        }
      }
    }
  }

  lemma Dr7None(hw: seq<HwBp>, outside: Outside)
    requires |hw| <= MAX_HW_BREAKPOINTS
    ensures Dr7(hw, 0, outside) == 0x600
  {
  }

  lemma {:induction false} RemainingStep(sw: seq<SwBp>, i: nat, access: int -> bool)
    requires i < |sw|
    ensures Remaining(sw[..i + 1], access) ==
            if access(sw[i].addr) then Remaining(sw[..i], access) else Remaining(sw[..i], access) + [sw[i]]
    decreases |sw|
  {
    if i > 0 {
      RemainingStep(sw[1..], i - 1, access);
      assert sw[..i + 1][1..] == sw[1..][..i] && sw[..i][1..] == sw[1..][..i - 1];
    }
  }

  lemma RemainingEnds(sw: seq<SwBp>, access: int -> bool)
    ensures Remaining(sw[..0], access) == [] && [] + sw[0..] == sw
    ensures sw[..|sw|] == sw && Remaining(sw, access) + sw[|sw|..] == Remaining(sw, access)
  {
  }

  /** The breakpoint in hand comes right after those that stay. */
  lemma FindAfter(before: seq<SwBp>, orig: Memory, done: seq<SwBp>, todo: seq<SwBp>, i: nat)
    requires i < |todo| && before == done + todo[i..] && ListOk(before, orig)
    ensures Find(before, todo[i].addr) == |done| < |before| && before[|done|] == todo[i] &&
            Planted(before, todo[i].addr)
  {
    var k := Find(before, todo[i].addr);
    assert before[|done|] == todo[i];
  }

  lemma SplitAt(before: seq<SwBp>, done: seq<SwBp>, todo: seq<SwBp>, i: nat)
    requires i < |todo| && before == done + todo[i..]
    ensures Without(before, |done|) == done + todo[i + 1..] && before == (done + [todo[i]]) + todo[i + 1..]
  {
  }

  // ---- runs ----------------------------------------------------------------------------------------------

  datatype Call =
    | AddSwCall(addr: int, len: nat, access: bool, update: bool)
    | RemoveSwCall(addr: int, access: bool, update: bool)
    | AddHwCall(htype: HwType, addr: int, len: nat, update: bool)
    | RemoveHwCall(addr: int, update: bool)
    | RemoveAllCall(accesses: int -> bool, update: bool, skip: bool)

  /** Over every run of adds, removes and removals of all, with any failures, memory stays the original
      under the breakpoints; it is the original whenever no software breakpoint is left. */
  method Run(stub: Stub, calls: seq<Call>)
    requires stub.Valid()
    modifies stub
    ensures stub.Valid() && stub.orig == old(stub.orig) && (stub.sw == [] ==> stub.mem == stub.orig)
  {
    hide ListOk, Overlay;
    var k := 0;
    while k < |calls|
      invariant stub.Valid() && stub.orig == old(stub.orig)
    {
      match calls[k] {
        case AddSwCall(addr, len, access, update) =>
          var _ := stub.AddSw(addr, len, access, update);
        case RemoveSwCall(addr, access, update) =>
          var _ := stub.RemoveSw(addr, access, update);
        case AddHwCall(t, addr, len, update) =>
          var _ := stub.AddHw(t, addr, len, update);
        case RemoveHwCall(addr, update) =>
          var _ := stub.RemoveHw(addr, update);
        case RemoveAllCall(accesses, update, skip) =>
          var _ := stub.RemoveAll(accesses, update, skip);
      }
      k := k + 1;
    }
    if stub.sw == [] {
      NoneLeft(stub.mem, stub.orig);
    }
  }

  /** A write watch of 4 bytes and then one of 16 bytes elsewhere: when the first fires it is reported as an
      access watch, if bit 3 is set in the byte found for length 16. */
  method LongWatchMisread(memory: Memory, a: int, b: int, outside: Outside) returns (stop: HwBreak)
    requires a != b && outside(16) == 0x08
    ensures stop == Break(a, ConditionCode(Access)) != Break(a, ConditionCode(Write))
  {
    hide ListOk, Overlay, Dr7, Seen;
    var stub := new Stub(memory);
    var first := stub.AddHw(Write, a, 4, true);
    var second := stub.AddHw(Write, b, 16, true);
    assert stub.hw == [HwBp(Write, b, 16), HwBp(Write, a, 4)];
    var dr := new int[4];
    var dr7 := stub.UpdateVcpuDebug(dr, outside);
    HwBreakFound(stub.hw, 2, dr[..], outside);
    LongSpills(stub.hw, outside);
    stop := HwBreakInfo(2, dr7, dr[..]);
  }

  lemma LongSpills(hw: seq<HwBp>, outside: Outside)
    requires |hw| == 2 && hw[0].len == 16 && hw[1].htype == Write && outside(16) == 0x08
    ensures Seen(hw, 1, outside) == 3 && Fired(2, 2) == 1
  {
    assert SizeCode(16, outside) == 0x08;
  }
}
