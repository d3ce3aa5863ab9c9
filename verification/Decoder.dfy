/** The decoder that finds the faulting address of an instruction (km/km_decode.c), for one-byte opcodes
    with a ModRM byte, and the encoding of such instructions (section 2.1 of the Intel 64 and IA-32
    Architectures Software Developer's Manual, Volume 2). */
module Decoder {
  import opened MachineWords
  import ProcessStack

  type Byte = b: int | 0 <= b < 256

  /** Guest memory that is mapped, byte by byte. */
  type Memory = map<int, Byte>

  /** RAX, RCX, RDX, RBX, RSP, RBP, RSI, RDI, R8 to R15. */
  type Registers = s: seq<int> | |s| == 16 witness seq(16, _ => 0)

  // The bytes decode_legacy_prefixes consumes; some of them are opcodes of instruction groups.
  predicate IsPrefix(b: int) {
    b in {
    0x26, 0x2e, 0x36, 0x3e, 0x66, 0x67, 0x80, 0x81, 0x82, 0x83, 0x8f, 0xc0, 0xc1, 0xc6, 0xc7,
    0xd0, 0xd1, 0xd2, 0xd3, 0xf0, 0xf2, 0xf3, 0xf6, 0xf7, 0xfe, 0xff}
  }

  // x86_rmmod_addressed, and 0x00
  predicate HasModrm(b: int) {
    b in {
    0x00, 0x01, 0x02, 0x03, 0x08, 0x09, 0x0a, 0x0b, 0x10, 0x11, 0x12, 0x13, 0x18, 0x19, 0x1a, 0x1b,
    0x20, 0x21, 0x22, 0x23, 0x28, 0x29, 0x2a, 0x2b, 0x30, 0x31, 0x32, 0x33, 0x38, 0x39, 0x3a, 0x3b,
    0x63, 0x69, 0x6b, 0x84, 0x85, 0x86, 0x87, 0x88, 0x89, 0x8a, 0x8b, 0x8c, 0x8e}
  }

  predicate IsVex(b: int) {
    b in {0xc4, 0xc5, 0x8f}
  }

  // two-byte opcodes, x86_rsi_addressed, x86_rdi_addressed and x86_rsi_rdi_addressed
  predicate InOtherTable(b: int) {
    b in {0x0f, 0xa4, 0xa5, 0xa6, 0xa7, 0xaa, 0xab, 0xac, 0xad, 0xae, 0xaf}
  }

  // km_reg_ptr
  function Reg(regs: Registers, b: int, reg: int): int
    requires 0 <= b <= 1 && 0 <= reg < 8
  {
    regs[8 * b + reg]
  }

  function Signed8(b: int): int {
    if b < 128 then b else b - 256
  }

  function Signed32(b: seq<int>): int
    requires |b| == 4
  {
    var v := b[0] + 0x100 * b[1] + 0x1_0000 * b[2] + 0x100_0000 * b[3];
    if v < 0x8000_0000 then v else v - 0x1_0000_0000
  }

  function Scale(s: int): int {
    if s == 0 then 1 else if s == 1 then 2 else if s == 2 then 4 else 8
  }

  // ---- what the decoder computes -------------------------------------------------------------------------

  /** The decoder stops at an address it cannot read, finds an address, leaves the instruction to other
      tables, or does not interpret it. The source reports an address only, and 0 for none: there
      Address(0), NoMemory and Uninterpreted are one result, and of a byte at address 0, which is never
      mapped, it does not notice that it cannot be read. */
  datatype Fault = Unmapped(at: int) | Address(a: int) | NoMemory | Elsewhere | Uninterpreted

  function Above(mem: Memory, ip: int): set<int> {
    set a | a in mem && a >= ip
  }

  lemma AboveShrinks(mem: Memory, ip: int)
    requires ip in mem
    ensures Above(mem, ip + 1) < Above(mem, ip)
  {
    assert ip in Above(mem, ip) && ip !in Above(mem, ip + 1);
  }

  /** The first position from `ip` on that holds no prefix; there is one, for memory is finite. */
  function SkipPrefixes(mem: Memory, ip: int): (r: int)
    ensures r >= ip && (r in mem ==> !IsPrefix(mem[r]))
    decreases Above(mem, ip)
  {
    if ip in mem && IsPrefix(mem[ip]) then AboveShrinks(mem, ip); SkipPrefixes(mem, ip + 1) else ip
  }

  /** The first of the n positions after `ip` that is not mapped, or ip + n + 1. */
  function FirstUnmapped(mem: Memory, ip: int, n: nat): int
    decreases n
  {
    if n == 0 then ip + 1 else if ip + 1 !in mem then ip + 1 else FirstUnmapped(mem, ip + 1, n - 1)
  }

  /** Base, index and displacement, for the fields that were read. */
  function ComputeAddress(regs: Registers, rexX: int, rexB: int, rm: int, sib: Byte, disp: int): int
    requires 0 <= rexX <= 1 && 0 <= rexB <= 1 && 0 <= rm < 8
  {
    if rm != 4 then Wrap(Reg(regs, rexB, rm) + disp)
    else
      var index, base := sib / 8 % 8, sib % 8;
      if rexX == 0 && index == 4 then Wrap(Reg(regs, rexB, base) + disp)
      else Wrap(Reg(regs, rexB, base) + Reg(regs, rexX, index) * Scale(sib / 64) + disp)
  }

  /** From the byte after ModRM on. */
  function AfterModrm(mem: Memory, regs: Registers, ip: int, mode: int, rm: int, rexX: int, rexB: int): Fault
    requires 0 <= rexX <= 1 && 0 <= rexB <= 1 && 0 <= rm < 8 && 0 <= mode < 4
  {
    if ip !in mem then Unmapped(ip)
    else if mode == 3 then NoMemory
    else
      var sib: Byte := if rm == 4 then mem[ip] else 0;
      var at := if rm == 4 then ip + 1 else ip;
      if at !in mem then Unmapped(at)
      else
        var n := if mode == 0 then 0 else if mode == 1 then 1 else 4;
        var end := FirstUnmapped(mem, at, n);
        if end <= at + n then Unmapped(end)
        else Address(ComputeAddress(regs, rexX, rexB, rm, sib, Displacement(mem, at, mode)))
  }

  function Displacement(mem: Memory, at: int, mode: int): int {
    if mode == 1 && at in mem then Signed8(mem[at])
    else if mode == 2 && at in mem && at + 1 in mem && at + 2 in mem && at + 3 in mem then
      Signed32([mem[at], mem[at + 1], mem[at + 2], mem[at + 3]])
    else 0
  }

  predicate IsRex(b: Byte) {
    b / 16 == 4
  }

  function FromOpcode(mem: Memory, regs: Registers, ip: int, rexX: int, rexB: int): Fault
    requires 0 <= rexX <= 1 && 0 <= rexB <= 1
  {
    if ip !in mem then Unmapped(ip)
    else if IsVex(mem[ip]) then Elsewhere
    else if ip + 1 !in mem then Unmapped(ip + 1)
    else if HasModrm(mem[ip]) then AfterModrm(mem, regs, ip + 2, mem[ip + 1] / 64, mem[ip + 1] % 8, rexX, rexB)
    else if InOtherTable(mem[ip]) then Elsewhere
    else Uninterpreted
  }

  /** What the decoder finds for the instruction at `rip`. */
  function Decode(mem: Memory, regs: Registers, rip: int): Fault {
    var ip := SkipPrefixes(mem, rip);
    if ip !in mem then Unmapped(ip)
    else if IsRex(mem[ip]) then FromOpcode(mem, regs, ip + 1, mem[ip] / 2 % 2, mem[ip] % 2)
    else FromOpcode(mem, regs, ip, 0, 0)
  }

  // ---- encodings ---------------------------------------------------------------------------------------------

  /** An instruction with a ModRM byte, by its fields; `rex` is 0 for none, `disp` the displacement bytes. */
  datatype Encoding = Encoding(
    prefixes: seq<Byte>, rex: int, opcode: Byte, mod: int, reg: int, rm: int, scale: int, index: int, base: int,
    disp: seq<Byte>)

  /** Segment, operand size, lock and repeat prefixes. */
  predicate IsLegacy(b: int) {
    b in {0x26, 0x2e, 0x36, 0x3e, 0x66, 0xf0, 0xf2, 0xf3}
  }

  /** Forms whose displacement is 32 bits although mod is 0: relative to RIP, or without a base. */
  predicate Special(e: Encoding) {
    e.mod == 0 && (e.rm == 5 || (e.rm == 4 && e.base == 5))
  }

  predicate Shaped(e: Encoding) {
    && (e.rex == 0 || 0x40 <= e.rex < 0x50)
    && 0 <= e.mod < 3 && 0 <= e.reg < 8 && 0 <= e.rm < 8 && 0 <= e.scale < 4 && 0 <= e.index < 8 && 0 <= e.base < 8
  }

  /** As the architecture encodes it, with any opcode. */
  predicate Formed(e: Encoding) {
    && Shaped(e) && (forall k :: 0 <= k < |e.prefixes| ==> IsLegacy(e.prefixes[k]))
    && |e.disp| == if e.mod == 1 then 1 else if e.mod == 2 || Special(e) then 4 else 0
  }

  /** An opcode the decoder knows to have a ModRM byte. */
  predicate Encodable(e: Encoding) {
    Formed(e) && HasModrm(e.opcode)
  }

  /** An opcode of an instruction group that has a ModRM byte in 64-bit mode. */
  predicate IsGroup(b: int) {
    b in {0x80, 0x81, 0x83, 0x8f, 0xc0, 0xc1, 0xc6, 0xc7, 0xd0, 0xd1, 0xd2, 0xd3, 0xf6, 0xf7, 0xfe, 0xff}
  }

  /** One-byte opcodes with a ModRM byte in 64-bit mode (appendix A.3 of the manual, table A-2); 0x62, 0xc4 and
      0xc5 begin longer ones. */
  predicate ModrmOpcode(b: int) {
    || (0 <= b < 0x40 && b % 8 < 4) || b in {0x63, 0x69, 0x6b, 0xc0, 0xc1, 0xc6, 0xc7, 0xf6, 0xf7, 0xfe, 0xff}
    || (0x80 <= b < 0x90 && b != 0x82) || 0xd0 <= b < 0xd4 || 0xd8 <= b < 0xe0
  }

  /** The decoder's table lacks the groups, LEA, which accesses no memory, and the floating-point opcodes; the
      other tables are those of two-byte opcodes and string instructions. */
  lemma OpcodesCovered(b: int)
    ensures HasModrm(b) <==> ModrmOpcode(b) && !IsGroup(b) && b != 0x8d && !(0xd8 <= b < 0xe0)
    ensures IsGroup(b) ==> ModrmOpcode(b)
    ensures InOtherTable(b) <==> b == 0x0f || 0xa4 <= b < 0xa8 || 0xaa <= b < 0xb0
  {
  }

  predicate GroupEncoding(e: Encoding) {
    Formed(e) && IsGroup(e.opcode)
  }

  function Tail(e: Encoding): seq<Byte>
    requires Shaped(e)
  {
    [e.opcode, e.mod * 64 + e.reg * 8 + e.rm] +
    (if e.rm == 4 then [e.scale * 64 + e.index * 8 + e.base] else []) + e.disp
  }

  function Encode(e: Encoding): seq<Byte>
    requires Shaped(e)
  {
    e.prefixes + (if e.rex == 0 then [] else [e.rex]) + Tail(e)
  }

  /** Little-endian bytes as a two's complement number. */
  function DispValue(disp: seq<Byte>): int {
    var v, p := ProcessStack.Value(disp), ProcessStack.Pow256(|disp|);
    if 2 * v < p then v else v - p
  }

  function Pow2(n: nat): nat {
    if n == 0 then 1 else 2 * Pow2(n - 1)
  }

  /** Index times scale, or nothing; REX.X extends the index field. */
  function IndexPart(e: Encoding, regs: Registers): int
    requires Shaped(e)
  {
    var x := e.rex / 2 % 2;
    if e.rm != 4 || (x == 0 && e.index == 4) then 0 else regs[8 * x + e.index] * Pow2(e.scale)
  }

  /** The effective address of the memory operand, table 2-2 and section 2.2.1.6 of the manual; `next` is the
      address of the following instruction. REX.B extends the field that names the base. */
  function EffectiveAddress(e: Encoding, regs: Registers, next: int): int
    requires Formed(e)
  {
    var b := e.rex % 2;
    var base := if !Special(e) then regs[8 * b + if e.rm == 4 then e.base else e.rm] else if e.rm == 5 then next else 0;
    (base + IndexPart(e, regs) + DispValue(e.disp)) % 0x1_0000_0000_0000_0000
  }

  /** The value lies in the range of its width and differs from the unsigned one by a multiple of 256^n. */
  lemma SignExtended(disp: seq<Byte>)
    requires |disp| == 1 || |disp| == 4
    ensures var v, p := DispValue(disp), if |disp| == 1 then 0x100 else 0x1_0000_0000;
            -p <= 2 * v < p && (v - ProcessStack.Value(disp)) % p == 0
    ensures DispValue(disp) == if |disp| == 1 then Signed8(disp[0]) else Signed32(disp)
  {
    BytesValue(disp);
    hide ProcessStack.Value, ProcessStack.Pow256;
  }

  lemma BytesValue(b: seq<int>)
    requires |b| == 1 || |b| == 4
    ensures ProcessStack.Pow256(1) == 0x100 && ProcessStack.Pow256(4) == 0x1_0000_0000
    ensures ProcessStack.Value(b) ==
            if |b| == 1 then b[0] else b[0] + 0x100 * b[1] + 0x1_0000 * b[2] + 0x100_0000 * b[3]
  {
    if |b| == 4 {
      assert b[1..][1..] == b[2..] && b[2..][1..] == b[3..] && b[3..][1..] == [];
      assert ProcessStack.Value(b[3..]) == b[3];
      assert ProcessStack.Value(b[2..]) == b[2] + 0x100 * b[3];
    } else {
      assert b[1..] == [];
    }
  }

  lemma ScaleIs(s: nat)
    requires s < 4
    ensures Scale(s) == Pow2(s)
  {
    assert Pow2(1) == 2 && Pow2(2) == 4;
  }

  /** The bytes stand in memory at `ip`. */
  predicate Stands(mem: Memory, ip: int, bytes: seq<Byte>) {
    forall a :: ip <= a < ip + |bytes| ==> a in mem && mem[a] == bytes[a - ip]
  }

  lemma StandsSplit(mem: Memory, ip: int, a: seq<Byte>, b: seq<Byte>)
    requires Stands(mem, ip, a + b)
    ensures Stands(mem, ip, a) && Stands(mem, ip + |a|, b)
  {
  }

  lemma {:induction false} PrefixesSkipped(mem: Memory, ip: int, ps: seq<Byte>)
    requires Stands(mem, ip, ps) && forall k :: 0 <= k < |ps| ==> IsPrefix(ps[k])
    requires ip + |ps| in mem && !IsPrefix(mem[ip + |ps|])
    ensures SkipPrefixes(mem, ip) == ip + |ps|
    decreases |ps|
  {
    if ps != [] {
      assert ps == [ps[0]] + ps[1..];
      StandsSplit(mem, ip, [ps[0]], ps[1..]);
      PrefixesSkipped(mem, ip + 1, ps[1..]);
    }
  }

  lemma OpcodesAreNoPrefixes(b: Byte)
    ensures HasModrm(b) ==> !IsPrefix(b) && !IsVex(b) && !IsRex(b)
    ensures IsRex(b) ==> !IsPrefix(b)
    ensures IsLegacy(b) ==> IsPrefix(b)
  {
  }

  lemma RexBits(b: int)
    requires 0x40 <= b < 0x50
    ensures IsRex(b) && 0 <= b / 2 % 2 <= 1
  {
  }

  lemma Fields(a: int, b: int, c: int)
    requires 0 <= a < 4 && 0 <= b < 8 && 0 <= c < 8
    ensures var v := a * 64 + b * 8 + c; 0 <= v < 256 && v / 64 == a && v / 8 % 8 == b && v % 8 == c
  {
    var v := a * 64 + b * 8 + c;
    assert v == 8 * (a * 8 + b) + c && v / 8 == a * 8 + b;
  }

  /** What the decoder can read: any bytes it takes for prefixes, and no displacement where mod is 0. */
  predicate Readable(e: Encoding) {
    && Shaped(e) && (forall k :: 0 <= k < |e.prefixes| ==> IsPrefix(e.prefixes[k]))
    && HasModrm(e.opcode) && |e.disp| == DispSize(e.mod)
  }

  /** Up to the opcode: prefixes and REX are recognised. */
  lemma HeadDecoded(mem: Memory, regs: Registers, rip: int, e: Encoding)
    requires Shaped(e) && Stands(mem, rip, Encode(e)) && !IsPrefix(e.opcode) && !IsRex(e.opcode)
    requires forall k :: 0 <= k < |e.prefixes| ==> IsPrefix(e.prefixes[k])
    ensures var at := rip + |Encode(e)| - |Tail(e)|;
            Stands(mem, at, Tail(e)) && Decode(mem, regs, rip) == FromOpcode(mem, regs, at, e.rex / 2 % 2, e.rex % 2)
  {
    hide FromOpcode;
    HeadStands(mem, rip, e);
    if e.rex != 0 {
      RexBits(e.rex);
      OpcodesAreNoPrefixes(e.rex);
    }
    hide Encode, Tail, Stands, IsPrefix, IsRex;
    PrefixesSkipped(mem, rip, e.prefixes);
  }

  lemma HeadStands(mem: Memory, rip: int, e: Encoding)
    requires Shaped(e) && Stands(mem, rip, Encode(e))
    ensures var at, first := rip + |Encode(e)| - |Tail(e)|, rip + |e.prefixes|;
            Stands(mem, rip, e.prefixes) && Stands(mem, at, Tail(e)) && at == first + (if e.rex == 0 then 0 else 1) &&
            at in mem && mem[at] == e.opcode && (e.rex != 0 ==> first in mem && mem[first] == e.rex)
  {
    var ps, t := e.prefixes, Tail(e);
    var rex: seq<Byte> := if e.rex == 0 then [] else [e.rex];
    assert Encode(e) == ps + (rex + t);
    assert t[0] == e.opcode;
    hide Encode, Tail;
    StandsSplit(mem, rip, ps, rex + t);
    StandsSplit(mem, rip + |ps|, rex, t);
  }

  lemma FirstUnmappedIs(mem: Memory, at: int, n: nat)
    requires forall k :: at < k <= at + n ==> k in mem
    ensures FirstUnmapped(mem, at, n) == at + n + 1
    decreases n
  {
  }

  function DispSize(mode: int): nat {
    if mode == 0 then 0 else if mode == 1 then 1 else 4
  }

  /** SIB and displacement, all mapped with the byte after them. */
  lemma OperandDecoded(mem: Memory, regs: Registers, ip: int, mode: int, rm: int, sib: Byte, x: int, b: int)
    requires 0 <= x <= 1 && 0 <= b <= 1 && 0 <= rm < 8 && 0 <= mode < 3 &&
             (if rm == 4 then ip in mem && mem[ip] == sib else sib == 0)
    requires var d := if rm == 4 then ip + 1 else ip; forall k :: d <= k <= d + DispSize(mode) ==> k in mem
    ensures var d := if rm == 4 then ip + 1 else ip;
            AfterModrm(mem, regs, ip, mode, rm, x, b) ==
            Address(ComputeAddress(regs, x, b, rm, sib, Displacement(mem, d, mode)))
  {
    hide ComputeAddress, Displacement, FirstUnmapped;
    FirstUnmappedIs(mem, if rm == 4 then ip + 1 else ip, DispSize(mode));
  }

  lemma DisplacementIs(mem: Memory, d: int, mode: int, disp: seq<Byte>)
    requires 0 <= mode < 3 && Stands(mem, d, disp) && |disp| == DispSize(mode)
    ensures Displacement(mem, d, mode) == DispValue(disp)
  {
    hide Signed8, Signed32;
    if mode == 0 {
      NoDisplacement();
    } else {
      SignExtended(disp);
      hide DispValue;
      assert mode == 2 ==> [mem[d], mem[d + 1], mem[d + 2], mem[d + 3]] == disp;
    }
  }

  /** The parts of the tail in memory. */
  lemma TailStands(mem: Memory, at: int, e: Encoding)
    requires Readable(e) && Stands(mem, at, Tail(e)) && at + |Tail(e)| in mem
    ensures var d := if e.rm == 4 then at + 3 else at + 2;
            && at in mem && mem[at] == e.opcode && at + 1 in mem && mem[at + 1] == e.mod * 64 + e.reg * 8 + e.rm
            && (e.rm == 4 ==> at + 2 in mem && mem[at + 2] == e.scale * 64 + e.index * 8 + e.base)
            && Stands(mem, d, e.disp) && (forall k :: d <= k <= d + DispSize(e.mod) ==> k in mem)
  {
    hide HasModrm, IsLegacy;
    var sib: seq<Byte> := if e.rm == 4 then [e.scale * 64 + e.index * 8 + e.base] else [];
    var head: seq<Byte> := [e.opcode, e.mod * 64 + e.reg * 8 + e.rm];
    StandsSplit(mem, at, head + sib, e.disp);
    StandsSplit(mem, at, head, sib);
  }

  /** The operand of an encoding in memory, read by the decoder. */
  lemma TailDecoded(mem: Memory, regs: Registers, at: int, e: Encoding, x: int, b: int)
    requires Readable(e) && Stands(mem, at, Tail(e)) && at + |Tail(e)| in mem && 0 <= x <= 1 && 0 <= b <= 1
    ensures FromOpcode(mem, regs, at, x, b) == Address(ComputeAddress(regs, x, b, e.rm, SibByte(e), DispValue(e.disp)))
  {
    TailStands(mem, at, e);
    OpcodesAreNoPrefixes(e.opcode);
    hide Tail, Stands, HasModrm, IsVex, IsPrefix, IsRex, IsLegacy;
    Fields(e.mod, e.reg, e.rm);
    OperandDecoded(mem, regs, at + 2, e.mod, e.rm, SibByte(e), x, b);
    DisplacementIs(mem, if e.rm == 4 then at + 3 else at + 2, e.mod, e.disp);
    hide AfterModrm, ComputeAddress, Displacement, DispValue;
  }

  function SibByte(e: Encoding): Byte
    requires Shaped(e)
  {
    if e.rm == 4 then e.scale * 64 + e.index * 8 + e.base else 0
  }

  /** The address the decoder makes of an encoding. */
  function Found(e: Encoding, regs: Registers): int
    requires Shaped(e)
  {
    ComputeAddress(regs, e.rex / 2 % 2, e.rex % 2, e.rm, SibByte(e), DispValue(e.disp))
  }

  /** The encoding stands at `ip`, and the byte after it is mapped. */
  predicate ReadAt(mem: Memory, ip: int, e: Encoding) {
    Readable(e) && Stands(mem, ip, Encode(e)) && ip + |Encode(e)| in mem
  }

  lemma FoundAt(mem: Memory, regs: Registers, ip: int, e: Encoding)
    requires ReadAt(mem, ip, e)
    ensures Decode(mem, regs, ip) == Address(Found(e, regs))
  {
    OpcodesAreNoPrefixes(e.opcode);
    hide Decode, FromOpcode, Tail, Stands, ComputeAddress, HasModrm, IsPrefix, IsRex, IsVex;
    HeadDecoded(mem, regs, ip, e);
    TailDecoded(mem, regs, ip + |Encode(e)| - |Tail(e)|, e, e.rex / 2 % 2, e.rex % 2);
  }

  // ---- whatever the decoder finds stands in memory -----------------------------------------------------------

  lemma {:induction false} PrefixBytes(mem: Memory, ip: int) returns (ps: seq<Byte>)
    ensures Stands(mem, ip, ps) && (forall k :: 0 <= k < |ps| ==> IsPrefix(ps[k])) && SkipPrefixes(mem, ip) == ip + |ps|
    decreases Above(mem, ip)
  {
    hide IsPrefix;
    ps := [];
    if ip in mem && IsPrefix(mem[ip]) {
      AboveShrinks(mem, ip);
      var rest := PrefixBytes(mem, ip + 1);
      ps := [mem[ip]] + rest;
    }
  }

  lemma {:induction false} UnmappedAfter(mem: Memory, at: int, n: nat)
    requires FirstUnmapped(mem, at, n) > at + n
    ensures forall k :: at < k <= at + n ==> k in mem
    decreases n
  {
    if n > 0 {
      UnmappedAfter(mem, at + 1, n - 1);
    }
  }

  lemma ByteFields(v: Byte) returns (a: int, b: int, c: int)
    ensures 0 <= a < 4 && 0 <= b < 8 && 0 <= c < 8 && v == a * 64 + b * 8 + c
    ensures a == v / 64 && b == v / 8 % 8 && c == v % 8
  {
    a, b, c := v / 64, v / 8 % 8, v % 8;
    assert v / 64 == v / 8 / 8;
  }

  /** The bytes at `at`, mapped with one more. */
  lemma BytesAt(mem: Memory, at: int, n: nat) returns (bytes: seq<Byte>)
    requires forall k :: at <= k <= at + n ==> k in mem
    ensures |bytes| == n && Stands(mem, at, bytes)
  {
    bytes := seq(n, k requires 0 <= k < n => mem[at + k]);
  }

  lemma StandsJoin(mem: Memory, ip: int, a: seq<Byte>, b: seq<Byte>)
    requires Stands(mem, ip, a) && Stands(mem, ip + |a|, b)
    ensures Stands(mem, ip, a + b)
  {
  }

  lemma OperandMapped(mem: Memory, regs: Registers, ip: int, mode: int, rm: int, x: int, b: int)
    requires 0 <= x <= 1 && 0 <= b <= 1 && 0 <= rm < 8 && 0 <= mode < 4 &&
             AfterModrm(mem, regs, ip, mode, rm, x, b).Address?
    ensures mode < 3 && ip in mem
    ensures var d := if rm == 4 then ip + 1 else ip; forall k :: d <= k <= d + DispSize(mode) ==> k in mem
  {
    hide ComputeAddress, Displacement, FirstUnmapped;
    UnmappedAfter(mem, if rm == 4 then ip + 1 else ip, DispSize(mode));
  }

  /** Opcode, ModRM, SIB and displacement. */
  lemma TailRead(mem: Memory, regs: Registers, at: int, ps: seq<Byte>, rex: int, x: int, b: int) returns (e: Encoding)
    requires 0 <= x <= 1 && 0 <= b <= 1 && FromOpcode(mem, regs, at, x, b).Address?
    requires (rex == 0 || 0x40 <= rex < 0x50) && forall k :: 0 <= k < |ps| ==> IsPrefix(ps[k])
    ensures Readable(e) && e.prefixes == ps && e.rex == rex && Stands(mem, at, Tail(e)) && at + |Tail(e)| in mem
  {
    assert HasModrm(mem[at]);
    hide HasModrm, IsPrefix, IsVex, InOtherTable;
    var mod, reg, rm := ByteFields(mem[at + 1]);
    hide Stands;
    OperandMapped(mem, regs, at + 2, mod, rm, x, b);
    var scale, index, base, d := 0, 0, 0, at + 2;
    if rm == 4 {
      scale, index, base := ByteFields(mem[at + 2]);
      d := at + 3;
    }
    var disp := BytesAt(mem, d, DispSize(mod));
    e := Encoding(ps, rex, mem[at], mod, reg, rm, scale, index, base, disp);
    TailIs(mem, at, e, d);
  }

  lemma TailIs(mem: Memory, at: int, e: Encoding, d: int)
    requires Shaped(e) && d == (if e.rm == 4 then at + 3 else at + 2) && Stands(mem, d, e.disp)
    requires at in mem && mem[at] == e.opcode && at + 1 in mem && mem[at + 1] == e.mod * 64 + e.reg * 8 + e.rm
    requires e.rm == 4 ==> at + 2 in mem && mem[at + 2] == e.scale * 64 + e.index * 8 + e.base
    ensures Stands(mem, at, Tail(e)) && at + |Tail(e)| == d + |e.disp|
  {
    var sib: seq<Byte> := if e.rm == 4 then [e.scale * 64 + e.index * 8 + e.base] else [];
    var head: seq<Byte> := [e.opcode, e.mod * 64 + e.reg * 8 + e.rm];
    assert Stands(mem, at, head) && Stands(mem, at + 2, sib);
    StandsJoin(mem, at, head, sib);
    StandsJoin(mem, at, head + sib, e.disp);
  }

  /** When the decoder finds an address, an instruction stands there whose address it is. */
  lemma WhatIsFound(mem: Memory, regs: Registers, ip: int) returns (e: Encoding)
    requires Decode(mem, regs, ip).Address?
    ensures ReadAt(mem, ip, e) && Decode(mem, regs, ip) == Address(Found(e, regs))
  {
    var ps := PrefixBytes(mem, ip);
    var first := ip + |ps|;
    hide FromOpcode, IsPrefix;
    if IsRex(mem[first]) {
      var rex := mem[first];
      assert 0x40 <= rex < 0x50;
      e := TailRead(mem, regs, first + 1, ps, rex, rex / 2 % 2, rex % 2);
      WholeStands(mem, ip, e, [rex]);
    } else {
      e := TailRead(mem, regs, first, ps, 0, 0, 0);
      WholeStands(mem, ip, e, []);
    }
    hide Decode, Found, Stands, Encode, Tail, Readable;
    FoundAt(mem, regs, ip, e);
  }

  lemma WholeStands(mem: Memory, ip: int, e: Encoding, rex: seq<Byte>)
    requires Shaped(e) && rex == (if e.rex == 0 then [] else [e.rex]) && Stands(mem, ip, e.prefixes)
    requires Stands(mem, ip + |e.prefixes|, rex) && Stands(mem, ip + |e.prefixes + rex|, Tail(e))
    ensures Stands(mem, ip, Encode(e)) && |Encode(e)| == |e.prefixes + rex| + |Tail(e)|
  {
    StandsJoin(mem, ip, e.prefixes, rex);
    StandsJoin(mem, ip, e.prefixes + rex, Tail(e));
  }

  /** An encoding the decoder can read stands at `ip`, and `a` is the address it makes of it. */
  ghost predicate ReadsAs(mem: Memory, regs: Registers, ip: int, a: int) {
    exists e :: ReadAt(mem, ip, e) && Found(e, regs) == a
  }

  /** The decoder finds an address exactly when such an encoding stands there. */
  lemma FindsExactly(mem: Memory, regs: Registers, ip: int, a: int)
    ensures Decode(mem, regs, ip) == Address(a) <==> ReadsAs(mem, regs, ip, a)
  {
    hide Decode, Found, Stands, Encode, IsPrefix, HasModrm;
    if Decode(mem, regs, ip) == Address(a) {
      var e := WhatIsFound(mem, regs, ip);
      assert ReadAt(mem, ip, e) && Found(e, regs) == a;
    }
    if ReadsAs(mem, regs, ip, a) {
      var e :| ReadAt(mem, ip, e) && Found(e, regs) == a;
      FoundAt(mem, regs, ip, e);
    }
  }

  // ---- instructions with a known opcode ------------------------------------------------------------------------

  /** An encoding as the decoder reads it: without the displacement of the special forms. */
  function AsRead(e: Encoding): Encoding {
    if Special(e) then e.(disp := []) else e
  }

  lemma FoundIs(e: Encoding, regs: Registers, next: int)
    requires Formed(e)
    ensures Found(AsRead(e), regs) ==
            if Special(e) then (regs[8 * (e.rex % 2) + 5] + IndexPart(e, regs)) % 0x1_0000_0000_0000_0000
            else EffectiveAddress(e, regs, next)
  {
    NoDisplacement();
    ScaleIs(e.scale);
    Fields(e.scale, e.index, e.base);
    hide IsLegacy, Scale, Pow2, DispValue;
  }

  lemma NoDisplacement()
    ensures DispValue([]) == 0
  {
  }

  lemma AsReadStands(mem: Memory, rip: int, e: Encoding)
    requires Encodable(e) && Stands(mem, rip, Encode(e)) && rip + |Encode(e)| in mem
    ensures ReadAt(mem, rip, AsRead(e))
  {
    var f := AsRead(e);
    assert forall k :: 0 <= k < |e.prefixes| ==> IsPrefix(e.prefixes[k]) by {
      forall k | 0 <= k < |e.prefixes|
        ensures IsPrefix(e.prefixes[k])
      {
        OpcodesAreNoPrefixes(e.prefixes[k]);
      }
    }
    hide HasModrm, IsLegacy, IsPrefix;
    if Special(e) {
      assert Encode(e) == Encode(f) + e.disp;
      StandsSplit(mem, rip, Encode(f), e.disp);
      hide Encode;
      assert rip + |Encode(f)| in mem;
    }
  }

  /** The decoder finds the effective address of every encoding, except of the special forms, where it
      adds no displacement and takes RBP or R13 as the base. */
  lemma DecodesAddress(mem: Memory, regs: Registers, rip: int, e: Encoding, next: int)
    requires Encodable(e) && Stands(mem, rip, Encode(e)) && rip + |Encode(e)| in mem
    ensures Decode(mem, regs, rip) ==
            Address(if Special(e) then (regs[8 * (e.rex % 2) + 5] + IndexPart(e, regs)) % 0x1_0000_0000_0000_0000
                    else EffectiveAddress(e, regs, next))
  {
    hide Decode, Stands, Encode, Found, EffectiveAddress, IndexPart, Special, HasModrm;
    AsReadStands(mem, rip, e);
    FoundAt(mem, regs, rip, AsRead(e));
    FoundIs(e, regs, next);
  }

  lemma WrapCancels(a: int, b: int, c: int)
    ensures Wrap(a + c) == Wrap(b + c) <==> Wrap(a) == Wrap(b)
  {
    if Wrap(a + c) == Wrap(b + c) {
      WrapTwice(a + c, -c);
      WrapTwice(b + c, -c);
    }
    if Wrap(a) == Wrap(b) {
      WrapTwice(a, c);
      WrapTwice(b, c);
    }
  }

  /** It finds the right address exactly when the form is not special, or RBP (with REX.B, R13) happens to
      hold what the form should have used: the next address plus the displacement, or the displacement. */
  lemma DecodesExactly(mem: Memory, regs: Registers, rip: int, e: Encoding, next: int)
    requires Encodable(e) && Stands(mem, rip, Encode(e)) && rip + |Encode(e)| in mem
    ensures Decode(mem, regs, rip) == Address(EffectiveAddress(e, regs, next)) <==>
            (Special(e) ==> (regs[8 * (e.rex % 2) + 5] - (if e.rm == 5 then next else 0) - DispValue(e.disp))
                            % 0x1_0000_0000_0000_0000 == 0)
  {
    DecodesAddress(mem, regs, rip, e, next);
    hide Decode, Stands, Encode, HasModrm, IsLegacy, DispValue, IndexPart;
    if Special(e) {
      SameAddress(regs[8 * (e.rex % 2) + 5] + IndexPart(e, regs),
                  (if e.rm == 5 then next else 0) + IndexPart(e, regs) + DispValue(e.disp));
    }
  }

  lemma SameAddress(a: int, b: int)
    ensures a % TWO64 == b % TWO64 <==> (a - b) % TWO64 == 0
  {
    WrapCancels(a, b, -b);
  }

  /** mov eax, [rip + 4]: the decoder answers RBP. */
  lemma RipRelativeMissed(mem: Memory, regs: Registers, rip: int)
    requires 0 < rip < 0x1_0000_0000 && regs[5] == 0
    requires Stands(mem, rip, [0x8b, 0x05, 4, 0, 0, 0]) && rip + 6 in mem
    ensures Decode(mem, regs, rip) == Address(0)
    ensures var e := Encoding([], 0, 0x8b, 0, 0, 5, 0, 0, 0, [4, 0, 0, 0]);
            Formed(e) && EffectiveAddress(e, regs, rip + 6) == rip + 10
  {
    hide Decode, EffectiveAddress, Stands, Encode, Formed, HasModrm, Special, IndexPart;
    var e := Encoding([], 0, 0x8b, 0, 0, 5, 0, 0, 0, [4, 0, 0, 0]);
    MoveIs(regs, rip + 6);
    DecodesAddress(mem, regs, rip, e, rip + 6);
  }

  lemma MoveIs(regs: Registers, next: int)
    ensures var e := Encoding([], 0, 0x8b, 0, 0, 5, 0, 0, 0, [4, 0, 0, 0]);
            Encodable(e) && Special(e) && Encode(e) == [0x8b, 0x05, 4, 0, 0, 0] && IndexPart(e, regs) == 0 &&
            EffectiveAddress(e, regs, next) == (next + 4) % 0x1_0000_0000_0000_0000
  {
    var e := Encoding([], 0, 0x8b, 0, 0, 5, 0, 0, 0, [4, 0, 0, 0]);
    SignExtended(e.disp);
    assert Tail(e) == [0x8b, 0x05, 4, 0, 0, 0];
  }

  // ---- opcodes of instruction groups -----------------------------------------------------------------------------

  /** A byte that counts as a prefix changes nothing. */
  lemma PrefixIgnored(mem: Memory, regs: Registers, rip: int)
    requires rip in mem && IsPrefix(mem[rip])
    ensures Decode(mem, regs, rip) == Decode(mem, regs, rip + 1)
  {
    hide FromOpcode, IsPrefix;
  }

  lemma {:induction false} PrefixesIgnored(mem: Memory, regs: Registers, rip: int, ps: seq<Byte>)
    requires Stands(mem, rip, ps) && forall k :: 0 <= k < |ps| ==> IsPrefix(ps[k])
    ensures Decode(mem, regs, rip) == Decode(mem, regs, rip + |ps|)
    decreases |ps|
  {
    hide Decode, IsPrefix;
    if ps != [] {
      assert ps == [ps[0]] + ps[1..];
      StandsSplit(mem, rip, [ps[0]], ps[1..]);
      assert mem[rip] == ps[0];
      PrefixIgnored(mem, regs, rip);
      PrefixesIgnored(mem, regs, rip + 1, ps[1..]);
    }
  }

  lemma LegacyPrefixes(ps: seq<Byte>)
    requires forall k :: 0 <= k < |ps| ==> IsLegacy(ps[k])
    ensures forall k :: 0 <= k < |ps| ==> IsPrefix(ps[k])
  {
    forall k | 0 <= k < |ps|
      ensures IsPrefix(ps[k])
    {
      OpcodesAreNoPrefixes(ps[k]);
    }
  }

  lemma GroupOpcodes(b: int)
    requires IsGroup(b)
    ensures IsPrefix(b) && !HasModrm(b) && !InOtherTable(b) && (IsVex(b) <==> b == 0x8f)
  {
  }

  lemma ModrmStands(mem: Memory, rip: int, e: Encoding)
    requires Shaped(e) && Stands(mem, rip, Encode(e))
    ensures var at := rip + |e.prefixes| + (if e.rex == 0 then 0 else 1);
            at in mem && mem[at] == e.opcode && at + 1 in mem && mem[at + 1] == e.mod * 64 + e.reg * 8 + e.rm
  {
    HeadStands(mem, rip, e);
    var at := rip + |e.prefixes| + (if e.rex == 0 then 0 else 1);
    assert mem[at + 1] == Tail(e)[1];
  }

  /** Without REX, an instruction with a group opcode is decoded as if it began at its ModRM byte, so that
      the right address is found exactly when what stands there is read as that address too. */
  lemma GroupDecoded(mem: Memory, regs: Registers, rip: int, e: Encoding, next: int)
    requires GroupEncoding(e) && e.rex == 0 && Stands(mem, rip, Encode(e))
    ensures var modrm := rip + |e.prefixes| + 1;
            modrm in mem && mem[modrm] == e.mod * 64 + e.reg * 8 + e.rm &&
            Decode(mem, regs, rip) == Decode(mem, regs, modrm) &&
            (Decode(mem, regs, rip) == Address(EffectiveAddress(e, regs, next)) <==>
             ReadsAs(mem, regs, modrm, EffectiveAddress(e, regs, next)))
  {
    hide Decode, EffectiveAddress, ReadsAs, Stands, Encode, Tail, IsPrefix, IsLegacy, IsGroup, HasModrm, InOtherTable,
         IsVex;
    HeadStands(mem, rip, e);
    ModrmStands(mem, rip, e);
    LegacyPrefixes(e.prefixes);
    GroupOpcodes(e.opcode);
    var modrm := rip + |e.prefixes| + 1;
    PrefixesIgnored(mem, regs, rip, e.prefixes);
    PrefixIgnored(mem, regs, modrm - 1);
    FindsExactly(mem, regs, modrm, EffectiveAddress(e, regs, next));
  }

  /** With REX it is not interpreted, or, for 0x8f, taken for a longer prefix. */
  lemma GroupAfterRex(mem: Memory, regs: Registers, rip: int, e: Encoding)
    requires GroupEncoding(e) && e.rex != 0 && Stands(mem, rip, Encode(e))
    ensures Decode(mem, regs, rip) == if e.opcode == 0x8f then Elsewhere else Uninterpreted
  {
    hide IsPrefix, IsLegacy, Stands, Encode, Tail, IsRex, IsGroup, HasModrm, InOtherTable, IsVex;
    HeadStands(mem, rip, e);
    ModrmStands(mem, rip, e);
    LegacyPrefixes(e.prefixes);
    RexBits(e.rex);
    OpcodesAreNoPrefixes(e.rex);
    GroupOpcodes(e.opcode);
    PrefixesSkipped(mem, rip, e.prefixes);
  }

  /** A byte in front of an operand that is just a register. */
  function Indirect(opcode: Byte, rm: int): Encoding {
    Encoding([], 0, opcode, 0, 0, rm, 0, 0, 0, [])
  }

  lemma IndirectIs(opcode: Byte, rm: int, regs: Registers, next: int)
    requires 0 <= rm < 4
    ensures Formed(Indirect(opcode, rm)) && Encode(Indirect(opcode, rm)) == [opcode, rm] &&
            !Special(Indirect(opcode, rm))
    ensures EffectiveAddress(Indirect(opcode, rm), regs, next) == Wrap(regs[rm])
  {
    assert [] + [opcode, rm] + [] == [opcode, rm];
  }

  /** add dword ptr [rax], 1: the group opcode 0x83 is taken for a prefix, and the ModRM byte that names
      RAX for the opcode of another instruction, which names RCX. */
  lemma GroupOpcodeMissed(mem: Memory, regs: Registers, rip: int)
    requires Stands(mem, rip, [0x83, 0x00, 0x01]) && rip + 3 in mem && Word64(regs[0]) && Word64(regs[1])
    ensures Decode(mem, regs, rip) == Address(regs[1])
    ensures Formed(Indirect(0x83, 0)) && EffectiveAddress(Indirect(0x83, 0), regs, rip + 3) == regs[0]
  {
    hide Decode, EffectiveAddress, Encode, Formed, Stands, IsGroup, HasModrm, Special;
    AddBytes(mem, rip);
    IndirectIs(0x83, 0, regs, rip + 3);
    IndirectIs(0x00, 1, regs, 0);
    GroupDecoded(mem, regs, rip, Indirect(0x83, 0), rip + 3);
    DecodesAddress(mem, regs, rip + 1, Indirect(0x00, 1), 0);
  }

  lemma AddBytes(mem: Memory, rip: int)
    requires Stands(mem, rip, [0x83, 0x00, 0x01])
    ensures Stands(mem, rip, [0x83, 0x00]) && Stands(mem, rip + 1, [0x00, 0x01]) && IsGroup(0x83) && HasModrm(0x00)
  {
    assert [0x83, 0x00] + [0x01] == [0x83, 0x00, 0x01] == [0x83] + [0x00, 0x01];
    StandsSplit(mem, rip, [0x83, 0x00], [0x01]);
    StandsSplit(mem, rip, [0x83], [0x00, 0x01]);
  }

  // ---- the decoder ---------------------------------------------------------------------------------------------

  /** x86_instruction_t, filled in byte by byte; `failed` is failed_addr when the byte at `curip` is not mapped. */
  class Instruction {
    const mem: Memory
    const regs: Registers
    var curip: int
    var curbyte: Byte
    var failed: bool
    var rexX: int
    var rexB: int
    var mode: int
    var rm: int
    var sib: Byte
    var sibPresent: bool
    var disp: int

    constructor (mem': Memory, regs': Registers, rip: int)
      ensures mem == mem' && regs == regs' && curip == rip && rexX == rexB == 0 && !sibPresent && Fetched()
    {
      mem, regs, curip := mem', regs', rip;
      curbyte := if rip in mem' then mem'[rip] else 0;
      failed := rip !in mem';
      rexX, rexB, mode, rm, sib, sibPresent, disp := 0, 0, 0, 0, 0, false, 0;
    }

    /** The current byte is that at `curip`, unless it is not mapped. */
    ghost predicate Fetched()
      reads this
    {
      (failed <==> curip !in mem) && (!failed ==> curbyte == mem[curip])
    }

    // decode_consume_byte
    method ConsumeByte()
      requires !failed
      modifies `curip, `curbyte, `failed
      ensures curip == old(curip) + 1 && Fetched()
    {
      curip := curip + 1;
      if curip !in mem {
        failed := true;
        return;
      }
      curbyte := mem[curip];
    }

    // decode_legacy_prefixes
    method LegacyPrefixes()
      requires Fetched() && !failed
      modifies `curip, `curbyte, `failed
      ensures Fetched() && curip == SkipPrefixes(mem, old(curip))
    {
      while !failed && IsPrefix(curbyte)
        invariant Fetched() && SkipPrefixes(mem, curip) == SkipPrefixes(mem, old(curip))
        decreases Above(mem, curip)
      {
        AboveShrinks(mem, curip);
        ConsumeByte();
      }
    }

    // decode_rex_prefix
    method RexPrefix()
      requires Fetched() && !failed && rexX == rexB == 0
      modifies `curip, `curbyte, `failed, `rexX, `rexB
      ensures Fetched() && 0 <= rexX <= 1 && 0 <= rexB <= 1
      ensures if IsRex(old(curbyte)) then
                curip == old(curip) + 1 && rexX == old(curbyte) / 2 % 2 && rexB == old(curbyte) % 2
              else curip == old(curip) && curbyte == old(curbyte) && rexX == rexB == 0
    {
      if curbyte / 16 != 4 {
        return;
      }
      if curbyte / 2 % 2 != 0 {
        rexX := 1;
      }
      if curbyte % 2 != 0 {
        rexB := 1;
      }
      ConsumeByte();
    }

    // the displacement part of find_modrm_fault
    method ReadDisplacement()
      requires Fetched() && !failed && 0 <= mode < 3
      modifies `curip, `curbyte, `failed, `disp
      ensures Fetched() && curip == FirstUnmappedOrEnd(old(curip))
      ensures failed <==> FirstUnmapped(mem, old(curip), DispSize(mode)) <= old(curip) + DispSize(mode)
      ensures !failed ==> disp == Displacement(mem, old(curip), mode)
      ensures forall b: seq<Byte> :: !failed && |b| == DispSize(mode) && Stands(mem, old(curip), b) ==>
                disp == DispValue(b)
    {
      forall b: seq<Byte> | |b| == DispSize(mode) && Stands(mem, curip, b)
        ensures Displacement(mem, curip, mode) == DispValue(b)
      {
        DisplacementIs(mem, curip, mode, b);
      }
      hide DispValue, Stands;
      if mode == 0 {
        disp := 0;
      } else if mode == 1 {
        disp := Signed8(curbyte);
        ConsumeByte();
      } else {
        var bytes: seq<Byte> := [];
        var i := 0;
        while i < 4
          invariant 0 <= i <= 4 && !failed && Fetched() && curip == old(curip) + i && |bytes| == i
          invariant forall k :: old(curip) <= k < curip ==> k in mem && bytes[k - old(curip)] == mem[k]
          invariant FirstUnmapped(mem, old(curip), 4) == FirstUnmapped(mem, curip, 4 - i)
        {
          bytes := bytes + [curbyte];
          ConsumeByte();
          if failed {
            return;
          }
          i := i + 1;
        }
        disp := Signed32(bytes);
        assert bytes == [mem[old(curip)], mem[old(curip) + 1], mem[old(curip) + 2], mem[old(curip) + 3]];
      }
    }

    /** Where reading the displacement ends. */
    ghost function FirstUnmappedOrEnd(ip: int): int
      reads this
    {
      var end := FirstUnmapped(mem, ip, DispSize(mode));
      if end <= ip + DispSize(mode) then end else ip + DispSize(mode)
    }

    // find_modrm_fault
    method FindModrmFault() returns (f: Fault)
      requires Fetched() && 0 <= mode < 4 && 0 <= rm < 8 && 0 <= rexX <= 1 && 0 <= rexB <= 1 && !sibPresent
      modifies `curip, `curbyte, `failed, `disp, `sib, `sibPresent
      ensures f == AfterModrm(mem, regs, old(curip), mode, rm, rexX, rexB)
    {
      hide FirstUnmapped, Displacement;
      if failed {
        return Unmapped(curip);
      }
      if mode == 3 {
        return NoMemory;
      }
      sib := 0;
      if rm == 4 {
        sibPresent, sib := true, curbyte;
        ConsumeByte();
        if failed {
          return Unmapped(curip);
        }
      }
      ReadDisplacement();
      if failed {
        return Unmapped(curip);
      }
      var a := FaultAddress();
      f := Address(a);
    }

    // its last part: register, or base and index
    method FaultAddress() returns (a: int)
      requires 0 <= rm < 8 && 0 <= rexX <= 1 && 0 <= rexB <= 1 && (sibPresent <==> rm == 4)
      ensures a == ComputeAddress(regs, rexX, rexB, rm, sib, disp)
    {
      if !sibPresent {
        return Wrap(Reg(regs, rexB, rm) + disp);
      }
      var base := Reg(regs, rexB, sib % 8);
      if rexX == 0 && sib / 8 % 8 == 4 {
        a := Wrap(base + disp);
      } else {
        a := Wrap(base + Reg(regs, rexX, sib / 8 % 8) * Scale(sib / 64) + disp);
      }
    }

    // decode_opcode, for one-byte opcodes with a ModRM byte
    method Opcode() returns (f: Fault)
      requires Fetched() && 0 <= rexX <= 1 && 0 <= rexB <= 1 && !sibPresent
      modifies this
      ensures f == FromOpcode(mem, regs, old(curip), old(rexX), old(rexB))
    {
      hide AfterModrm, HasModrm, IsVex;
      if failed {
        return Unmapped(curip);
      }
      if IsVex(curbyte) {
        return Elsewhere;
      }
      var opcode := curbyte;
      ConsumeByte();
      if failed {
        return Unmapped(curip);
      }
      if !HasModrm(opcode) {
        return if InOtherTable(opcode) then Elsewhere else Uninterpreted;
      }
      mode, rm := curbyte / 64, curbyte % 8;
      ConsumeByte();
      f := FindModrmFault();
    }
  }

  // km_x86_decode_fault
  method DecodeFault(mem: Memory, regs: Registers, rip: int) returns (f: Fault)
    ensures f == Decode(mem, regs, rip)
  {
    hide FromOpcode;
    var ins := new Instruction(mem, regs, rip);
    if ins.failed {
      return Unmapped(rip);
    }
    ins.LegacyPrefixes();
    if ins.failed {
      return Unmapped(ins.curip);
    }
    ins.RexPrefix();
    f := ins.Opcode();
  }
}
