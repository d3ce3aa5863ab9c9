/** The initial stack of the payload, km_init_main (km/km_init_guest.c).

    The stack is an array of bytes that ends at guest address `base + GUEST_STACK_SIZE`; it is
    written downward. Padding bytes are whatever the memory held.
 */
module InitStack {
  import opened Sequences
  import opened MachineWords
  import opened ProcessStack
  import opened Wrappers

  const GUEST_STACK_SIZE: int := 0x20_0000
  const GUEST_ARG_MAX: int := 0x2_0000
  const PATH_MAX: int := 4096
  const PAGE_SIZE: int := 4096
  const PLATFORM: Bytes := [88, 56, 54, 95, 54, 52, 0] // "X86_64"

  const PT_LOAD: int := 1
  const PT_PHDR: int := 6

  datatype Phdr = Phdr(ptype: int, vaddr: int)

  /** What km_init_main takes from the loaded program, the dynamic linker and the host. */
  datatype Program = Program(
    entry: int, phoff: int, phentsize: int, adjust: int, phdrs: seq<Phdr>,
    interp: bool, interpAdjust: int, clockTicks: int, signalStack: int, vdso: int)
  {
    predicate Ok() {
      && Word64(entry) && Word64(phoff) && Word64(phentsize) && Word64(adjust) && Word64(|phdrs|)
      && Word64(interpAdjust) && Word64(clockTicks) && Word64(signalStack) && Word64(vdso)
      && (First(PT_PHDR) < |phdrs| || First(PT_LOAD) < |phdrs|)
    }

    /** Index of the first header of the type, or the number of headers. */
    function First(t: int): (k: nat)
      ensures k <= |phdrs| && (k < |phdrs| ==> phdrs[k].ptype == t) && forall j :: 0 <= j < k ==> phdrs[j].ptype != t
    {
      FirstFrom(phdrs, t)
    }

    /** Guest address of the program headers: PT_PHDR if there is one, else from the first PT_LOAD. */
    function PhdrAddress(): int
      requires Ok()
    {
      if First(PT_PHDR) < |phdrs| then Wrap(phdrs[First(PT_PHDR)].vaddr + adjust)
      else Wrap(phoff + phdrs[First(PT_LOAD)].vaddr + adjust)
    }
  }

  function FirstFrom(ps: seq<Phdr>, t: int): (k: nat)
    ensures k <= |ps| && (k < |ps| ==> ps[k].ptype == t) && forall j :: 0 <= j < k ==> ps[j].ptype != t
  {
    if ps == [] then 0 else if ps[0].ptype == t then 0 else 1 + FirstFrom(ps[1..], t)
  }

  // ---- strings ----------------------------------------------------------------------------------

  /** The strnlen(s, PATH_MAX) + 1 bytes copied for a string: no terminator past PATH_MAX. */
  function Stored(s: Bytes): (r: Bytes)
    ensures 0 < |r| <= PATH_MAX + 1
  {
    if |s| <= PATH_MAX then s + [0] else s[..PATH_MAX + 1]
  }

  /** Environment strings: the first is highest. */
  function EnvBytes(env: seq<Bytes>): Bytes {
    if env == [] then [] else Stored(env[|env| - 1]) + EnvBytes(env[..|env| - 1])
  }

  /** Argument strings: the first is lowest. */
  function ArgBytes(argv: seq<Bytes>): Bytes {
    if argv == [] then [] else Stored(argv[0]) + ArgBytes(argv[1..])
  }

  /** Guest addresses of the environment strings below `end`. */
  function EnvPointers(end: int, env: seq<Bytes>): (r: seq<int>)
    ensures |r| == |env|
  {
    seq(|env|, i requires 0 <= i < |env| => end - |EnvBytes(env[..i + 1])|)
  }

  function ArgPointers(end: int, argv: seq<Bytes>): (r: seq<int>)
    ensures |r| == |argv|
  {
    seq(|argv|, i requires 0 <= i < |argv| => end - |ArgBytes(argv[i..])|)
  }

  lemma EnvStep(end: int, env: seq<Bytes>, i: nat)
    requires i < |env|
    ensures EnvBytes(env[..i + 1]) == Stored(env[i]) + EnvBytes(env[..i])
    ensures EnvPointers(end, env[..i + 1]) == EnvPointers(end, env[..i]) + [end - |EnvBytes(env[..i + 1])|]
  {
    var a, b := env[..i + 1], env[..i];
    assert a[..i] == b && a[..i + 1] == a;
    hide EnvBytes, Stored;
    forall k | 0 <= k < i
      ensures EnvPointers(end, a)[k] == EnvPointers(end, b)[k]
    {
      assert a[..k + 1] == b[..k + 1];
    }
  }

  lemma ArgStep(end: int, argv: seq<Bytes>, i: nat)
    requires i < |argv|
    ensures ArgBytes(argv[i..]) == Stored(argv[i]) + ArgBytes(argv[i + 1..])
    ensures ArgPointers(end, argv[i..]) == [end - |ArgBytes(argv[i..])|] + ArgPointers(end, argv[i + 1..])
  {
    hide Stored;
    var a, b := argv[i..], argv[i + 1..];
    assert a[1..] == b && a[0..] == a;
    assert ArgBytes(a) == Stored(a[0]) + ArgBytes(b);
    hide ArgBytes;
    forall k | 0 <= k < |b|
      ensures ArgPointers(end, a)[k + 1] == ArgPointers(end, b)[k]
    {
      assert a[k + 1..] == b[k..];
    }
  }

  lemma NoStrings(end: int, xs: seq<Bytes>)
    ensures EnvBytes(xs[..0]) == [] && ArgBytes(xs[|xs|..]) == []
    ensures EnvPointers(end, xs[..0]) == [] && ArgPointers(end, xs[|xs|..]) == []
    ensures xs[..|xs|] == xs && xs[0..] == xs
  {
  }

  /** Each string takes at least a byte, and a prefix takes no more than the whole. */
  lemma {:induction false} EnvGrows(env: seq<Bytes>, i: nat)
    requires i <= |env|
    ensures |EnvBytes(env[..i])| + (|env| - i) <= |EnvBytes(env)|
    decreases |env| - i
  {
    hide EnvBytes, EnvPointers, Stored;
    if i < |env| {
      EnvStep(0, env, i);
      EnvGrows(env, i + 1);
    } else {
      assert env[..i] == env;
    }
  }

  lemma {:induction false} ArgGrows(argv: seq<Bytes>, i: nat)
    requires i <= |argv|
    ensures |ArgBytes(argv[i..])| + i <= |ArgBytes(argv)|
  {
    hide ArgBytes, ArgPointers, Stored;
    if i == 0 {
      assert argv[i..] == argv;
    } else {
      ArgGrows(argv, i - 1);
      ArgStep(0, argv, i - 1);
    }
  }

  // ---- writing ----------------------------------------------------------------------------------

  // strncpy, strcpy and memcpy to just below `top`; `c` is what stands from `top` up
  method Push(mem: array<int>, top: nat, data: Bytes, ghost c: Bytes) returns (low: nat)
    requires |data| <= top <= mem.Length && mem[top..] == c
    modifies mem
    ensures low == top - |data| && mem[low..] == data + c && forall k :: 0 <= k < low ==> mem[k] == old(mem[k])
  {
    low := top - |data|;
    var i := 0;
    while i < |data|
      invariant i <= |data| && mem[low..low + i] == data[..i]
      invariant mem[top..] == c && forall k :: 0 <= k < low ==> mem[k] == old(mem[k])
    {
      mem[low + i] := data[i];
      i := i + 1;
    }
    assert mem[low..] == mem[low..low + |data|] + mem[top..];
  }

  method PushEnv(mem: array<int>, base: int, env: seq<Bytes>) returns (ok: bool, top: nat, pointers: seq<int>)
    requires mem.Length == GUEST_STACK_SIZE
    modifies mem
    ensures ok <==> |EnvBytes(env)| <= GUEST_ARG_MAX
    ensures ok ==> top == mem.Length - |EnvBytes(env)| && mem[top..] == EnvBytes(env)
    ensures ok ==> pointers == EnvPointers(base + GUEST_STACK_SIZE, env) &&
                   forall k :: 0 <= k < top ==> mem[k] == old(mem[k])
  {
    hide EnvBytes, EnvPointers, Stored;
    NoStrings(base + GUEST_STACK_SIZE, env);
    top, pointers := mem.Length, [];
    var i := 0;
    while i < |env|
      invariant i <= |env| && |EnvBytes(env[..i])| <= GUEST_ARG_MAX
      invariant top == mem.Length - |EnvBytes(env[..i])| && mem[top..] == EnvBytes(env[..i])
      invariant forall k :: 0 <= k < top ==> mem[k] == old(mem[k])
      invariant pointers == EnvPointers(base + GUEST_STACK_SIZE, env[..i])
    {
      EnvStep(base + GUEST_STACK_SIZE, env, i);
      var len := |Stored(env[i])|;
      if base + GUEST_STACK_SIZE - (base + top - len) > GUEST_ARG_MAX {
        EnvGrows(env, i + 1);
        return false, top, pointers;
      }
      top := Push(mem, top, Stored(env[i]), EnvBytes(env[..i]));
      pointers := pointers + [base + top];
      i := i + 1;
    }
    ok := true;
  }

  method PushArgs(mem: array<int>, base: int, argv: seq<Bytes>, high: nat, ghost c: Bytes)
    returns (ok: bool, top: nat, pointers: seq<int>)
    requires mem.Length == GUEST_STACK_SIZE && mem.Length - GUEST_ARG_MAX - 8 <= high <= mem.Length && mem[high..] == c
    modifies mem
    ensures ok <==> argv == [] || mem.Length - high + |ArgBytes(argv)| <= GUEST_ARG_MAX
    ensures ok ==> top == high - |ArgBytes(argv)| && mem[top..] == ArgBytes(argv) + c
    ensures ok ==> pointers == ArgPointers(base + high, argv) && forall k :: 0 <= k < top ==> mem[k] == old(mem[k])
  {
    hide ArgBytes, ArgPointers, Stored;
    NoStrings(base + high, argv);
    top, pointers := high, [];
    var i := |argv|;
    while i > 0
      invariant 0 <= i <= |argv| && high - top == |ArgBytes(argv[i..])|
      invariant i < |argv| ==> mem.Length - top <= GUEST_ARG_MAX
      invariant mem[top..] == ArgBytes(argv[i..]) + c && forall k :: 0 <= k < top ==> mem[k] == old(mem[k])
      invariant pointers == ArgPointers(base + high, argv[i..])
    {
      i := i - 1;
      ArgStep(base + high, argv, i);
      var len := |Stored(argv[i])|;
      if base + GUEST_STACK_SIZE - (base + top - len) > GUEST_ARG_MAX {
        ArgGrows(argv, i);
        return false, top, pointers;
      }
      top := Push(mem, top, Stored(argv[i]), ArgBytes(argv[i + 1..]) + c);
      Joined(Stored(argv[i]), ArgBytes(argv[i + 1..]), c);
      pointers := [base + top] + pointers;
    }
    ok := true;
  }

  // ---- auxiliary vector -------------------------------------------------------------------------

  function Optional(present: bool, key: int, v: int): seq<(int, int)> {
    if present then [(key, v)] else []
  }

  // AT_MINSIGSTKSZ up to AT_PHNUM
  function LowEntries(p: Program): seq<(int, int)>
    requires p.Ok()
  {
    [(51, p.signalStack), (6, PAGE_SIZE), (17, p.clockTicks), (3, p.PhdrAddress()), (4, p.phentsize), (5, |p.phdrs|)]
  }

  // AT_FLAGS up to AT_SECURE
  function MidEntries(p: Program): seq<(int, int)> {
    [(8, 0), (9, Wrap(p.entry + p.adjust)), (11, 0), (12, 0), (13, 0), (14, 0), (23, 0)]
  }

  /** Entries from low to high addresses; `random` is 0 when there are no random bytes. */
  function AuxEntries(p: Program, platform: int, execfn: int, random: int): seq<(int, int)>
    requires p.Ok()
  {
    Optional(p.vdso != 0, 33, p.vdso) + LowEntries(p) + Optional(p.interp, 7, p.interpAdjust) + MidEntries(p)
    + Optional(random != 0, 25, random) + [(31, execfn), (15, platform)]
  }

  lemma AuxEntriesOk(p: Program, platform: int, execfn: int, random: int)
    requires p.Ok() && Word64(platform) && Word64(execfn) && Word64(random)
    ensures AuxOk(AuxEntries(p, platform, execfn, random)) && |AuxEntries(p, platform, execfn, random)| <= 18
  {
    LowOk(p);
    hide LowEntries, MidEntries, Program.Ok;
  }

  lemma LowOk(p: Program)
    requires p.Ok()
    ensures AuxOk(LowEntries(p)) && |LowEntries(p)| == 6 && AuxOk(MidEntries(p)) && |MidEntries(p)| == 7
    ensures Word64(p.vdso) && Word64(p.interpAdjust)
  {
    hide Wrap;
  }

  lemma AuxNone()
    ensures Words64([0, 0]) && AuxWords([]) == [0, 0]
  {
  }

  lemma AuxSuffix(es: seq<(int, int)>, i: nat)
    requires i < |es| && AuxOk(es)
    ensures es[i..] == [(es[i].0, es[i].1)] + es[i + 1..] && AuxOk(es[i + 1..])
    ensures Word64(es[i].0) && es[i].0 != 0 && Word64(es[i].1)
  {
  }

  // NEW_AUXV_ENT
  method PushEntry(mem: array<int>, top: nat, key: int, val: int, ghost es: seq<(int, int)>, ghost c: Bytes)
    returns (low: nat)
    requires 16 <= top <= mem.Length && AuxOk(es) && Word64(key) && key != 0 && Word64(val)
    requires Words64(AuxWords(es)) && mem[top..] == Words(AuxWords(es)) + c
    modifies mem
    ensures low == top - 16 && forall k :: 0 <= k < low ==> mem[k] == old(mem[k])
    ensures AuxOk([(key, val)] + es) && Words64(AuxWords([(key, val)] + es))
    ensures mem[low..] == Words(AuxWords([(key, val)] + es)) + c
  {
    ghost var ds := [(key, val)] + es;
    assert ds[1..] == es;
    AuxWords64(ds);
    WordsJoin([key, val], AuxWords(es));
    low := Push(mem, top, Words([key, val]), Words(AuxWords(es)) + c);
    Joined(Words([key, val]), Words(AuxWords(es)), c);
  }

  // the two searches for the program headers
  method FindPhdr(p: Program, t: int) returns (k: nat)
    ensures k == p.First(t)
  {
    k := 0;
    while k < |p.phdrs| && p.phdrs[k].ptype != t
      invariant k <= |p.phdrs| && forall j :: 0 <= j < k ==> p.phdrs[j].ptype != t
    {
      k := k + 1;
    }
  }

  method PhdrAddress(p: Program) returns (a: int)
    requires p.Ok()
    ensures a == p.PhdrAddress() && Word64(a)
  {
    var k := FindPhdr(p, PT_PHDR);
    if k < |p.phdrs| {
      return Wrap(p.phdrs[k].vaddr + p.adjust);
    }
    k := FindPhdr(p, PT_LOAD);
    a := Wrap(p.phoff + p.phdrs[k].vaddr + p.adjust);
  }

  method PushAuxv(mem: array<int>, high: nat, es: seq<(int, int)>, ghost c: Bytes) returns (top: nat)
    requires 16 * (|es| + 1) <= high <= mem.Length && AuxOk(es) && mem[high..] == c
    modifies mem
    ensures Words64(AuxWords(es)) && top == high - 16 * (|es| + 1)
    ensures mem[top..] == Words(AuxWords(es)) + c && forall k :: 0 <= k < top ==> mem[k] == old(mem[k])
  {
    hide AuxWords, Words, AuxOk, Words64;
    var i := |es|;
    assert es[i..] == [];
    AuxNone();
    top := Push(mem, high, Words([0, 0]), c);
    while i > 0
      invariant 0 <= i <= |es| && top == high - 16 * (|es| - i + 1)
      invariant Words64(AuxWords(es[i..])) && mem[top..] == Words(AuxWords(es[i..])) + c
      invariant forall k :: 0 <= k < top ==> mem[k] == old(mem[k])
    {
      i := i - 1;
      AuxSuffix(es, i);
      top := PushEntry(mem, top, es[i].0, es[i].1, es[i + 1..], c);
    }
    assert es[0..] == es;
  }

  // ---- the image --------------------------------------------------------------------------------

  /** The parts that depend on the memory and on the host: padding and random bytes. */
  datatype Parts = Parts(pad1: Bytes, random: Bytes, pad2: Bytes)

  function Strings(argv: seq<Bytes>, env: seq<Bytes>, q: Parts): Bytes {
    ArgBytes(argv) + (q.pad1 + EnvBytes(env))
  }

  /** Platform string and random bytes, above the strings. */
  function Info(argv: seq<Bytes>, env: seq<Bytes>, q: Parts): Bytes {
    q.random + (PLATFORM + Strings(argv, env, q))
  }

  function End(base: int): int {
    base + GUEST_STACK_SIZE
  }

  function ArgEnd(base: int, env: seq<Bytes>, q: Parts): int {
    End(base) - |EnvBytes(env)| - |q.pad1|
  }

  function PlatformAt(base: int, argv: seq<Bytes>, env: seq<Bytes>, q: Parts): int {
    End(base) - |Strings(argv, env, q)| - |PLATFORM|
  }

  /** The auxiliary vector of the image. */
  function Auxv(base: int, argv: seq<Bytes>, env: seq<Bytes>, p: Program, q: Parts): seq<(int, int)>
    requires p.Ok()
  {
    var platform := PlatformAt(base, argv, env, q);
    AuxEntries(p, platform, if argv == [] then 0 else ArgPointers(ArgEnd(base, env, q), argv)[0],
               if q.random == [] then 0 else platform - 16)
  }

  /** Padding: strings end on a word, and the stack pointer will be 16-byte aligned. */
  predicate Padded(base: int, argv: seq<Bytes>, env: seq<Bytes>, q: Parts) {
    && |q.pad1| == (End(base) - |EnvBytes(env)|) % 8
    && |q.random| in {0, 16}
    && |q.pad2| == (End(base) - |Info(argv, env, q)|) % 16 + (if (|argv| + |env| + 1) % 2 != 0 then 8 else 0)
  }

  /** Everything from the stack pointer up: argc, argv, envp, auxiliary vector, then the strings. */
  function Image(base: int, argv: seq<Bytes>, env: seq<Bytes>, p: Program, q: Parts): Bytes
    requires p.Ok() && Pointed(base, argv, env, p, q)
  {
    Words([|argv|]) + (Words(ArgPointers(ArgEnd(base, env, q), argv) + [0]) + (Words(EnvPointers(End(base), env) + [0])
    + (Words(AuxWords(Auxv(base, argv, env, p, q))) + (q.pad2 + Info(argv, env, q)))))
  }

  /** All pointers are 64-bit words, and nonzero. */
  predicate Pointed(base: int, argv: seq<Bytes>, env: seq<Bytes>, p: Program, q: Parts)
    requires p.Ok()
  {
    && Words64([|argv|])
    && AuxOk(Auxv(base, argv, env, p, q)) && Words64(AuxWords(Auxv(base, argv, env, p, q)))
    && NonZero(ArgPointers(ArgEnd(base, env, q), argv)) && NonZero(EnvPointers(End(base), env))
  }

  predicate NonZero(ws: seq<int>) {
    Words64(ws + [0]) && forall k :: 0 <= k < |ws| ==> Word64(ws[k]) && ws[k] != 0
  }

  // ---- km_init_main -----------------------------------------------------------------------------

  datatype Outcome = EnvironmentTooLarge | ArgumentsTooLarge | Started(sp: int)

  /** The strings pass both size checks; the second is made once per argument. */
  predicate EnvFits(env: seq<Bytes>) {
    |EnvBytes(env)| <= GUEST_ARG_MAX
  }

  predicate ArgsFit(base: int, argv: seq<Bytes>, env: seq<Bytes>) {
    argv == [] || |ArgBytes(argv)| + (End(base) - |EnvBytes(env)|) % 8 + |EnvBytes(env)| <= GUEST_ARG_MAX
  }

  method PushStrings(mem: array<int>, base: int, argv: seq<Bytes>, env: seq<Bytes>)
    returns (envOk: bool, argsOk: bool, top: nat, envp: seq<int>, argp: seq<int>, ghost pad1: Bytes)
    requires mem.Length == GUEST_STACK_SIZE
    modifies mem
    ensures envOk <==> EnvFits(env)
    ensures envOk ==> (argsOk <==> ArgsFit(base, argv, env))
    ensures envOk && argsOk ==> |pad1| == (End(base) - |EnvBytes(env)|) % 8 && envp == EnvPointers(End(base), env)
    ensures envOk && argsOk ==> argp == ArgPointers(End(base) - |EnvBytes(env)| - |pad1|, argv)
    ensures envOk && argsOk ==> |EnvBytes(env)| + |pad1| <= mem.Length
    ensures envOk && argsOk ==> pad1 == old(mem[mem.Length - |EnvBytes(env)| - |pad1|..mem.Length - |EnvBytes(env)|])
    ensures envOk && argsOk ==> top <= mem.Length && mem[top..] == Strings(argv, env, Parts(pad1, [], []))
    ensures envOk && argsOk ==> forall k :: 0 <= k < top ==> mem[k] == old(mem[k])
  {
    hide EnvBytes, ArgBytes, EnvPointers, ArgPointers;
    argsOk, argp, pad1 := false, [], [];
    envOk, top, envp := PushEnv(mem, base, env);
    if !envOk {
      return;
    }
    var low := top - (base + top) % 8; // rounddown to a word
    pad1 := mem[low..top];
    ghost var c := pad1 + EnvBytes(env);
    assert mem[low..] == c;
    argsOk, top, argp := PushArgs(mem, base, argv, low, c);
  }

  // getrandom writes `data` at `at`; `c` is what stands from `high` up
  method Scribble(mem: array<int>, at: nat, data: Bytes, high: nat, ghost c: Bytes)
    requires at + |data| <= high <= mem.Length && mem[high..] == c
    modifies mem
    ensures mem[at..at + |data|] == data && mem[high..] == c && forall k :: 0 <= k < at ==> mem[k] == old(mem[k])
  {
    var i := 0;
    while i < |data|
      invariant i <= |data| && mem[at..at + i] == data[..i]
      invariant mem[high..] == c && forall k :: 0 <= k < at ==> mem[k] == old(mem[k])
    {
      mem[at + i] := data[i];
      i := i + 1;
    }
  }

  lemma Between(m: Bytes, low: nat, mid: nat, a: Bytes, b: Bytes)
    requires low <= mid <= |m| && m[low..mid] == a && m[mid..] == b
    ensures m[low..] == a + b
  {
    assert m[low..] == m[low..mid] + m[mid..];
  }

  // the alignment before the auxiliary vector
  method Align(mem: array<int>, base: int, high: nat, odd: bool, ghost c: Bytes) returns (top: nat, ghost pad: Bytes)
    requires 24 <= high <= mem.Length && mem[high..] == c
    ensures |pad| == (base + high) % 16 + (if odd then 8 else 0) && top == high - |pad|
    ensures mem[top..] == pad + c
  {
    top := high - (base + high) % 16;
    if odd {
      top := top - 8;
    }
    pad := mem[top..high];
    assert mem[top..] == mem[..][top..] && mem[high..] == mem[..][high..] && pad == mem[..][top..high];
    Between(mem[..], top, high, pad, c);
  }

  // platform string and random bytes
  method PushRandom(mem: array<int>, base: int, high: nat, random: Bytes, ghost c: Bytes)
    returns (top: nat, platform: int, atRandom: int, ghost got: Bytes)
    requires 23 <= high <= mem.Length && |random| <= 16 && mem[high..] == c
    modifies mem
    ensures got == if |random| == 16 then random else []
    ensures platform == base + high - |PLATFORM| && atRandom == if |random| == 16 then platform - 16 else 0
    ensures top == high - |PLATFORM| - |got| && mem[top..] == got + (PLATFORM + c)
    ensures forall k :: 0 <= k < high - 23 ==> mem[k] == old(mem[k])
  {
    top := Push(mem, high, PLATFORM, c);
    platform, atRandom := base + top, 0;
    ghost var d := PLATFORM + c;
    Scribble(mem, top - 16, random, top, d);
    got := [];
    assert [] + d == d;
    if |random| == 16 {
      got := random;
      assert mem[top - 16..] == mem[..][top - 16..] && mem[top..] == mem[..][top..] && random == mem[..][top - 16..top];
      Between(mem[..], top - 16, top, random, d);
      top := top - 16;
      atRandom := base + top;
    }
  }

  // platform string, random bytes and the alignment before the auxiliary vector
  method PushInfo(mem: array<int>, base: int, high: nat, random: Bytes, odd: bool, ghost c: Bytes)
    returns (top: nat, platform: int, atRandom: int, ghost got: Bytes, ghost pad2: Bytes)
    requires 100 <= high <= mem.Length && |random| <= 16 && 0 < base && mem[high..] == c
    modifies mem
    ensures got == if |random| == 16 then random else []
    ensures platform == base + high - |PLATFORM| && atRandom == if |random| == 16 then platform - 16 else 0
    ensures |pad2| == (platform - |got|) % 16 + (if odd then 8 else 0)
    ensures top == high - |PLATFORM| - |got| - |pad2| && mem[top..] == pad2 + (got + (PLATFORM + c))
    ensures forall k :: 0 <= k < top - 16 ==> mem[k] == old(mem[k])
  {
    top, platform, atRandom, got := PushRandom(mem, base, high, random, c);
    top, pad2 := Align(mem, base, top, odd, got + (PLATFORM + c));
  }

  // envp, argv and argc
  method PushTables(mem: array<int>, high: nat, argc: int, argp: seq<int>, envp: seq<int>, ghost c: Bytes)
    returns (top: nat)
    requires 8 * (|argp| + |envp| + 3) <= high <= mem.Length && mem[high..] == c
    requires Words64([argc]) && NonZero(argp) && NonZero(envp)
    modifies mem
    ensures top == high - 8 * (|argp| + |envp| + 3)
    ensures mem[top..] == Words([argc]) + (Words(argp + [0]) + (Words(envp + [0]) + c))
    ensures forall k :: 0 <= k < top ==> mem[k] == old(mem[k])
  {
    top := Push(mem, high, Words(envp + [0]), c);
    top := Push(mem, top, Words(argp + [0]), Words(envp + [0]) + c);
    top := Push(mem, top, Words([argc]), Words(argp + [0]) + (Words(envp + [0]) + c));
  }

  lemma Sizes(base: int, argv: seq<Bytes>, env: seq<Bytes>, q: Parts)
    requires EnvFits(env) && ArgsFit(base, argv, env) && |q.pad1| == (End(base) - |EnvBytes(env)|) % 8
    ensures |argv| + |env| <= GUEST_ARG_MAX && |Strings(argv, env, q)| <= GUEST_ARG_MAX + 7
  {
    EnvGrows(env, 0);
    ArgGrows(argv, |argv|);
    NoStrings(0, env);
    NoStrings(0, argv);
  }

  lemma PointersOk(base: int, argv: seq<Bytes>, env: seq<Bytes>, q: Parts)
    requires 0 < base && Word64(End(base)) && |Strings(argv, env, q)| <= GUEST_ARG_MAX + 7
    ensures NonZero(ArgPointers(ArgEnd(base, env, q), argv)) && NonZero(EnvPointers(End(base), env))
  {
    forall i | 0 <= i < |argv|
      ensures 0 < ArgPointers(ArgEnd(base, env, q), argv)[i] < End(base)
    {
      ArgGrows(argv, i);
      ArgStep(0, argv, i);
    }
    forall i | 0 <= i < |env|
      ensures 0 < EnvPointers(End(base), env)[i] < End(base)
    {
      EnvGrows(env, i + 1);
      EnvStep(0, env, i);
    }
  }

  lemma PlatformOk(base: int, argv: seq<Bytes>, env: seq<Bytes>, q: Parts)
    requires 0 < base && Word64(End(base)) && |Strings(argv, env, q)| <= GUEST_ARG_MAX + 7
    ensures Word64(PlatformAt(base, argv, env, q)) && Word64(PlatformAt(base, argv, env, q) - 16)
  {
    hide Strings;
  }

  lemma FirstPointer(ws: seq<int>)
    requires NonZero(ws) && ws != []
    ensures Word64(ws[0])
  {
  }

  lemma AuxvOk(base: int, argv: seq<Bytes>, env: seq<Bytes>, p: Program, q: Parts)
    requires p.Ok() && 0 < base && Word64(End(base)) && |Strings(argv, env, q)| <= GUEST_ARG_MAX + 7
    ensures var es := Auxv(base, argv, env, p, q); AuxOk(es) && Words64(AuxWords(es)) && |es| <= 18
  {
    hide Strings, PlatformAt, ArgPointers, EnvPointers, ArgEnd, NonZero, AuxEntries, AuxOk, Words64, AuxWords,
         Program.Ok;
    PointersOk(base, argv, env, q);
    PlatformOk(base, argv, env, q);
    var platform := PlatformAt(base, argv, env, q);
    var execfn := if argv == [] then 0 else ArgPointers(ArgEnd(base, env, q), argv)[0];
    if argv != [] {
      FirstPointer(ArgPointers(ArgEnd(base, env, q), argv));
    }
    AuxEntriesOk(p, platform, execfn, if q.random == [] then 0 else platform - 16);
    AuxWords64(Auxv(base, argv, env, p, q));
  }

  /** The finished stack: its image from the stack pointer up. */
  ghost predicate Finished(m: Bytes, sp: int, base: int, argv: seq<Bytes>, env: seq<Bytes>, p: Program, q: Parts)
    requires p.Ok()
  {
    && Padded(base, argv, env, q) && Pointed(base, argv, env, p, q)
    && base <= sp == End(base) - |m| && m == Image(base, argv, env, p, q)
  }

  // everything below the strings, down to argc
  method PushRest(mem: array<int>, base: int, high: nat, argv: seq<Bytes>, env: seq<Bytes>, p: Program, random: Bytes,
                  argp: seq<int>, envp: seq<int>, ghost pad1: Bytes)
    returns (top: nat, auxv: Bytes, ghost q: Parts)
    requires mem.Length == GUEST_STACK_SIZE && 0 < base && Word64(End(base)) && p.Ok() && |random| <= 16
    requires |argv| + |env| <= GUEST_ARG_MAX && |Strings(argv, env, Parts(pad1, [], []))| <= GUEST_ARG_MAX + 7
    requires high <= mem.Length && mem[high..] == Strings(argv, env, Parts(pad1, [], []))
    requires |pad1| == (End(base) - |EnvBytes(env)|) % 8 && envp == EnvPointers(End(base), env)
    requires argp == ArgPointers(End(base) - |EnvBytes(env)| - |pad1|, argv)
    modifies mem
    ensures q.pad1 == pad1 && q.random == (if |random| == 16 then random else [])
    ensures top <= high && Finished(mem[top..], base + top, base, argv, env, p, q)
    ensures auxv == Words(AuxWords(Auxv(base, argv, env, p, q)))
    ensures forall k :: 0 <= k < top ==> mem[k] == old(mem[k])
  {
    hide EnvPointers, ArgPointers, EnvBytes, ArgBytes, AuxWords, Words, AuxEntries, AuxOk, Words64, NonZero;
    ghost var strings := Strings(argv, env, Parts(pad1, [], []));
    var odd := (|argv| + |env| + 1) % 2 != 0;
    var platform, atRandom;
    ghost var got, pad2;
    top, platform, atRandom, got, pad2 := PushInfo(mem, base, high, random, odd, strings);
    q := Parts(pad1, got, pad2);
    assert Strings(argv, env, q) == strings && Info(argv, env, q) == got + (PLATFORM + strings);
    var es := AuxEntries(p, platform, if argv == [] then 0 else argp[0], atRandom);
    assert es == Auxv(base, argv, env, p, q);
    PointersOk(base, argv, env, q);
    AuxvOk(base, argv, env, p, q);
    ArgcOk(|argv|);
    hide Strings, Info, Auxv;
    top, auxv := PushLow(mem, top, |argv|, es, argp, envp, pad2 + Info(argv, env, q));
  }

  // auxiliary vector, envp, argv and argc
  method PushLow(mem: array<int>, high: nat, argc: int, es: seq<(int, int)>, argp: seq<int>, envp: seq<int>,
                 ghost c: Bytes)
    returns (top: nat, auxv: Bytes)
    requires high <= mem.Length && mem[high..] == c && 16 * (|es| + 1) + 8 * (|argp| + |envp| + 3) <= high
    requires Words64([argc]) && NonZero(argp) && NonZero(envp) && AuxOk(es) && Words64(AuxWords(es))
    modifies mem
    ensures top == high - 16 * (|es| + 1) - 8 * (|argp| + |envp| + 3) && auxv == Words(AuxWords(es))
    ensures mem[top..] == Words([argc]) + (Words(argp + [0]) + (Words(envp + [0]) + (Words(AuxWords(es)) + c)))
    ensures forall k :: 0 <= k < top ==> mem[k] == old(mem[k])
  {
    hide AuxWords, Words, AuxOk, Words64, NonZero;
    top := PushAuxv(mem, high, es, c);
    AuxvLength(es);
    assert mem[top..high] == mem[top..][..high - top];
    auxv := mem[top..high];
    top := PushTables(mem, top, argc, argp, envp, Words(AuxWords(es)) + c);
  }

  lemma AuxvLength(es: seq<(int, int)>)
    requires AuxOk(es) && Words64(AuxWords(es))
    ensures |Words(AuxWords(es))| == 16 * (|es| + 1)
  {
    AuxWords64(es);
  }

  // km_init_main; `random` is what getrandom delivers, and a copy of the auxiliary vector is kept
  method InitMain(mem: array<int>, base: int, argv: seq<Bytes>, env: seq<Bytes>, p: Program, random: Bytes)
    returns (out: Outcome, auxv: Bytes, ghost q: Parts)
    requires mem.Length == GUEST_STACK_SIZE && 0 < base && Word64(End(base)) && p.Ok() && |random| <= 16
    modifies mem
    ensures out == EnvironmentTooLarge <==> !EnvFits(env)
    ensures out == ArgumentsTooLarge <==> EnvFits(env) && !ArgsFit(base, argv, env)
    ensures out.Started? ==>
              && q.random == (if |random| == 16 then random else [])
              && |EnvBytes(env)| + |q.pad1| <= mem.Length
              && q.pad1 == old(mem[mem.Length - |EnvBytes(env)| - |q.pad1|..mem.Length - |EnvBytes(env)|])
              && base <= out.sp <= End(base) && Finished(mem[out.sp - base..], out.sp, base, argv, env, p, q)
              && auxv == Words(AuxWords(Auxv(base, argv, env, p, q)))
              && forall k :: 0 <= k < out.sp - base ==> mem[k] == old(mem[k])
    ensures out.Started? && AllStrings(argv) && AllStrings(env) ==>
              var m, aux := mem[out.sp - base..], Auxv(base, argv, env, p, q);
              out.sp % 16 == 0 && |m| >= 8 &&
              ReadStartup(m, out.sp) == Startup(|argv|, ArgsSeen(argv, AfterArgs(env, q)), EnvsSeen(env), aux) &&
              (ReadStartup(m, out.sp) == Startup(|argv|, argv, env, aux) <==> Whole(argv, env, AfterArgs(env, q))) &&
              Tells(m, out.sp, argv, p, if |random| == 16 then random else [])
  {
    hide ReadStartup, AllStrings, ArgsSeen, EnvsSeen, Whole, AfterArgs, EnvFits, ArgsFit, EnvPointers, ArgPointers,
         EnvBytes, ArgBytes, AuxWords, Words, AuxEntries, Finished, Auxv, Strings, Tells;
    auxv, q := [], Parts([], [], []);
    var envOk, argsOk, top, envp, argp, pad1 := PushStrings(mem, base, argv, env);
    if !envOk {
      return EnvironmentTooLarge, auxv, q;
    }
    if !argsOk {
      return ArgumentsTooLarge, auxv, q;
    }
    Sizes(base, argv, env, Parts(pad1, [], []));
    top, auxv, q := PushRest(mem, base, top, argv, env, p, random, argp, envp, pad1);
    out := Started(base + top);
    if AllStrings(argv) && AllStrings(env) {
      ReadsBack(mem[top..], base + top, base, argv, env, p, q);
      VectorTells(mem[top..], base + top, base, argv, env, p, q);
    }
  }

  lemma ArgcOk(argc: nat)
    requires argc <= GUEST_ARG_MAX
    ensures Words64([argc])
  {
  }

  // ---- reading the image back ---------------------------------------------------------------------

  /** `b` stands at the upper end of `m`. */
  predicate Suffix(m: Bytes, b: Bytes) {
    |b| <= |m| && m[|m| - |b|..] == b
  }

  lemma SuffixTrans(m: Bytes, b: Bytes, c: Bytes)
    requires Suffix(m, b) && Suffix(b, c)
    ensures Suffix(m, c)
  {
  }

  lemma SuffixJoin(a: Bytes, b: Bytes)
    ensures Suffix(a + b, b)
  {
  }

  lemma SuffixAppend(m: Bytes, b: Bytes, c: Bytes)
    requires Suffix(m, b)
    ensures Suffix(m + c, b + c)
  {
  }

  /** What starts a suffix stands at its address. */
  lemma SuffixHead(m: Bytes, a: Bytes, rest: Bytes)
    requires Suffix(m, a + rest)
    ensures At(m, |m| - |a + rest|, a)
  {
    assert m[|m| - |a + rest|..][..|a|] == a;
  }

  lemma {:induction false} ArgSuffix(argv: seq<Bytes>, i: nat)
    requires i <= |argv|
    ensures Suffix(ArgBytes(argv), ArgBytes(argv[i..]))
  {
    if i == 0 {
      assert argv[0..] == argv;
    } else {
      ArgSuffix(argv, i - 1);
      ArgStep(0, argv, i - 1);
      SuffixJoin(Stored(argv[i - 1]), ArgBytes(argv[i..]));
      SuffixTrans(ArgBytes(argv), ArgBytes(argv[i - 1..]), ArgBytes(argv[i..]));
    }
  }

  lemma {:induction false} EnvSuffix(env: seq<Bytes>, i: nat)
    requires i <= |env|
    ensures Suffix(EnvBytes(env), EnvBytes(env[..i]))
    decreases |env| - i
  {
    if i == |env| {
      assert env[..i] == env;
    } else {
      EnvSuffix(env, i + 1);
      EnvStep(0, env, i);
      SuffixJoin(Stored(env[i]), EnvBytes(env[..i]));
      SuffixTrans(EnvBytes(env), EnvBytes(env[..i + 1]), EnvBytes(env[..i]));
    }
  }

  /** Every argument string stands where its pointer points, terminated unless it is too long. */
  lemma ArgAt(m: Bytes, sp: int, base: int, argv: seq<Bytes>, env: seq<Bytes>, q: Parts, i: nat)
    requires Suffix(m, Strings(argv, env, q)) && sp == End(base) - |m| && i < |argv|
    ensures var a := ArgPointers(ArgEnd(base, env, q), argv)[i]; a >= sp && At(m, a - sp, Stored(argv[i]))
  {
    hide Suffix, At, Stored, EnvBytes, ArgBytes;
    var low := q.pad1 + EnvBytes(env);
    ArgSuffix(argv, i);
    SuffixAppend(ArgBytes(argv), ArgBytes(argv[i..]), low);
    SuffixTrans(m, Strings(argv, env, q), ArgBytes(argv[i..]) + low);
    ArgStep(0, argv, i);
    Joined(Stored(argv[i]), ArgBytes(argv[i + 1..]), low);
    SuffixHead(m, Stored(argv[i]), ArgBytes(argv[i + 1..]) + low);
    SuffixShorter(m, ArgBytes(argv[i..]) + low);
  }

  lemma EnvAt(m: Bytes, sp: int, base: int, argv: seq<Bytes>, env: seq<Bytes>, q: Parts, i: nat)
    requires Suffix(m, Strings(argv, env, q)) && sp == End(base) - |m| && i < |env|
    ensures var a := EnvPointers(End(base), env)[i]; a >= sp && At(m, a - sp, Stored(env[i]))
  {
    hide Suffix, At, Stored, EnvBytes, ArgBytes;
    EnvSuffix(env, i + 1);
    SuffixJoin(ArgBytes(argv) + q.pad1, EnvBytes(env));
    Joined(ArgBytes(argv), q.pad1, EnvBytes(env));
    SuffixTrans(m, Strings(argv, env, q), EnvBytes(env));
    SuffixTrans(m, EnvBytes(env), EnvBytes(env[..i + 1]));
    EnvStep(0, env, i);
    SuffixHead(m, Stored(env[i]), EnvBytes(env[..i]));
    SuffixShorter(m, EnvBytes(env[..i + 1]));
  }

  lemma SuffixShorter(m: Bytes, b: Bytes)
    requires Suffix(m, b)
    ensures |b| <= |m|
  {
  }

  /** What the new process reads from its stack pointer up. */
  datatype Startup = Startup(argc: int, argv: seq<Bytes>, env: seq<Bytes>, auxv: seq<(int, int)>)

  function ReadAt(m: Bytes, sp: int, a: int): Bytes {
    if a < sp then [] else ReadString(m, a - sp)
  }

  function ReadStrings(m: Bytes, sp: int, pointers: seq<int>): seq<Bytes> {
    seq(|pointers|, i requires 0 <= i < |pointers| => ReadAt(m, sp, pointers[i]))
  }

  function ReadStartup(m: Bytes, sp: int): Startup
    requires |m| >= 8
  {
    var argp := ReadTable(m, 8);
    var envp := ReadTable(m, 8 * (|argp| + 2));
    Startup(WordAt(m, 0), ReadStrings(m, sp, argp), ReadStrings(m, sp, envp), ReadAuxv(m, 8 * (|argp| + |envp| + 3)))
  }

  lemma TablesRead(m: Bytes, base: int, argv: seq<Bytes>, env: seq<Bytes>, p: Program, q: Parts)
    requires p.Ok() && Pointed(base, argv, env, p, q) && m == Image(base, argv, env, p, q)
    ensures |m| >= 8 && WordAt(m, 0) == |argv| && ReadTable(m, 8) == ArgPointers(ArgEnd(base, env, q), argv)
    ensures ReadTable(m, 8 * (|argv| + 2)) == EnvPointers(End(base), env)
    ensures ReadAuxv(m, 8 * (|argv| + |env| + 3)) == Auxv(base, argv, env, p, q)
  {
    hide Auxv, AuxWords, AuxOk, EnvPointers, ArgPointers, Info;
    var argp, envp, es := ArgPointers(ArgEnd(base, env, q), argv), EnvPointers(End(base), env),
                          Auxv(base, argv, env, p, q);
    var c4 := q.pad2 + Info(argv, env, q);
    var c3 := Words(AuxWords(es)) + c4;
    var c2 := Words(envp + [0]) + c3;
    var c1 := Words(argp + [0]) + c2;
    assert Words([|argv|]) == Le(|argv|, 8) by {
      assert [|argv|][1..] == [];
    }
    assert At(m, 0, Le(|argv|, 8) + c1);
    hide Words, Image;
    AtJoin(m, 0, Le(|argv|, 8), c1);
    WordIs(m, 0, |argv|);
    AtJoin(m, 8, Words(argp + [0]), c2);
    TableIs(m, 8, argp);
    AtJoin(m, 8 * (|argv| + 2), Words(envp + [0]), c3);
    TableIs(m, 8 * (|argv| + 2), envp);
    AtJoin(m, 8 * (|argv| + |env| + 3), Words(AuxWords(es)), c4);
    AuxvIs(m, 8 * (|argv| + |env| + 3), es);
  }

  lemma Aligned(m: Bytes, sp: int, base: int, argv: seq<Bytes>, env: seq<Bytes>, p: Program, q: Parts)
    requires p.Ok() && Finished(m, sp, base, argv, env, p, q)
    ensures sp % 16 == 0
  {
    hide Auxv, AuxOk, EnvPointers, ArgPointers, Info;
    var es := Auxv(base, argv, env, p, q);
    AuxvLength(es);
    var low := End(base) - |Info(argv, env, q)|;
    assert |m| == 8 * (|argv| + |env| + 3) + 16 * (|es| + 1) + |q.pad2| + |Info(argv, env, q)| by {
      hide Words;
    }
    AlignedSum(low, |argv| + |env| + 1, |es|, |q.pad2|);
  }

  lemma AlignedSum(low: int, n: int, k: int, pad: int)
    requires pad == low % 16 + if n % 2 != 0 then 8 else 0
    ensures (low - pad - 16 * (k + 1) - 8 * (n + 2)) % 16 == 0
  {
  }

  lemma StringsOnTop(base: int, argv: seq<Bytes>, env: seq<Bytes>, p: Program, q: Parts)
    requires p.Ok() && Pointed(base, argv, env, p, q)
    ensures var m := Image(base, argv, env, p, q);
            Suffix(m, Strings(argv, env, q)) && Suffix(m, PLATFORM + Strings(argv, env, q)) &&
            Suffix(m, Info(argv, env, q))
  {
    hide Suffix, Words, Auxv, Strings, EnvPointers, ArgPointers;
    var argp, envp, es := ArgPointers(ArgEnd(base, env, q), argv), EnvPointers(End(base), env),
                          Auxv(base, argv, env, p, q);
    var info, strings, m := Info(argv, env, q), Strings(argv, env, q), Image(base, argv, env, p, q);
    var c4 := q.pad2 + info;
    var c3 := Words(AuxWords(es)) + c4;
    var c2 := Words(envp + [0]) + c3;
    var c1 := Words(argp + [0]) + c2;
    SuffixJoin(Words([|argv|]), c1);
    SuffixJoin(Words(argp + [0]), c2);
    SuffixJoin(Words(envp + [0]), c3);
    SuffixJoin(Words(AuxWords(es)), c4);
    SuffixJoin(q.pad2, info);
    SuffixJoin(q.random, PLATFORM + strings);
    SuffixJoin(PLATFORM, strings);
    SuffixTrans(m, c1, c2);
    SuffixTrans(m, c2, c3);
    SuffixTrans(m, c3, c4);
    SuffixTrans(m, c4, info);
    SuffixTrans(m, info, PLATFORM + strings);
    SuffixTrans(m, PLATFORM + strings, strings);
  }

  /** Every string is a C string. */
  predicate AllStrings(xs: seq<Bytes>) {
    forall i :: 0 <= i < |xs| ==> CString(xs[i])
  }

  /** What is read where the arguments end: the padding and the environment strings. */
  function AfterArgs(env: seq<Bytes>, q: Parts): Bytes {
    ReadString(q.pad1 + EnvBytes(env), 0)
  }

  /** What is read as argument i: a string longer than PATH_MAX was cut without its terminator, so that
      reading goes on with the next one. */
  function ArgSeen(argv: seq<Bytes>, i: nat, after: Bytes): Bytes
    requires i <= |argv|
    decreases |argv| - i
  {
    if i == |argv| then after
    else if |argv[i]| <= PATH_MAX then argv[i]
    else argv[i][..PATH_MAX + 1] + ArgSeen(argv, i + 1, after)
  }

  /** The environment strings stand in the opposite order, and the first one ends the stack. */
  function EnvSeen(env: seq<Bytes>, n: nat): Bytes
    requires n <= |env|
  {
    if n == 0 then []
    else if |env[n - 1]| <= PATH_MAX then env[n - 1]
    else env[n - 1][..PATH_MAX + 1] + EnvSeen(env, n - 1)
  }

  function ArgsSeen(argv: seq<Bytes>, after: Bytes): (r: seq<Bytes>)
    ensures |r| == |argv|
  {
    seq(|argv|, i requires 0 <= i < |argv| => ArgSeen(argv, i, after))
  }

  function EnvsSeen(env: seq<Bytes>): (r: seq<Bytes>)
    ensures |r| == |env|
  {
    seq(|env|, i requires 0 <= i < |env| => EnvSeen(env, i + 1))
  }

  /** The part of every overlong string that was cut off happens to be what follows it. */
  predicate Whole(argv: seq<Bytes>, env: seq<Bytes>, after: Bytes) {
    && (forall i :: 0 <= i < |argv| && |argv[i]| > PATH_MAX ==> argv[i][PATH_MAX + 1..] == ArgSeen(argv, i + 1, after))
    && (forall i :: 0 <= i < |env| && |env[i]| > PATH_MAX ==> env[i][PATH_MAX + 1..] == EnvSeen(env, i))
  }

  /** The new process finds the auxiliary vector, and as many strings as it was given, each as above, at
      an aligned stack pointer. They are its arguments and environment exactly when `Whole` says so. */
  lemma ReadsBack(m: Bytes, sp: int, base: int, argv: seq<Bytes>, env: seq<Bytes>, p: Program, q: Parts)
    requires p.Ok() && Finished(m, sp, base, argv, env, p, q)
    requires AllStrings(argv) && AllStrings(env)
    ensures sp % 16 == 0 && |m| >= 8
    ensures ReadStartup(m, sp) ==
            Startup(|argv|, ArgsSeen(argv, AfterArgs(env, q)), EnvsSeen(env), Auxv(base, argv, env, p, q))
    ensures ReadStartup(m, sp) == Startup(|argv|, argv, env, Auxv(base, argv, env, p, q)) <==>
            Whole(argv, env, AfterArgs(env, q))
  {
    hide Suffix, Image, Padded, Pointed, Auxv, EnvPointers, ArgPointers, Strings, Info, ReadTable, WordAt, ReadAuxv,
         ReadStrings, AllStrings, Program.Ok, EnvBytes, ArgsSeen, EnvsSeen, Whole, AfterArgs;
    Aligned(m, sp, base, argv, env, p, q);
    TablesRead(m, base, argv, env, p, q);
    StringsOnTop(base, argv, env, p, q);
    ArgsRead(m, sp, base, argv, env, q);
    EnvRead(m, sp, base, argv, env, q);
    WholeSeen(argv, env, AfterArgs(env, q));
  }

  lemma StoredIs(m: Bytes, k: nat, s: Bytes)
    requires CString(s) && At(m, k, Stored(s))
    ensures ReadString(m, k) == if |s| <= PATH_MAX then s else s[..PATH_MAX + 1] + ReadString(m, k + PATH_MAX + 1)
  {
    hide ReadString, At;
    if |s| <= PATH_MAX {
      StringIs(m, k, s);
    } else {
      StringGoesOn(m, k, s[..PATH_MAX + 1]);
    }
  }

  /** For every argument that is too long: it is read cut, followed by what is read at the next byte. */
  lemma LongArg(m: Bytes, sp: int, base: int, argv: seq<Bytes>, env: seq<Bytes>, q: Parts, i: nat)
    requires Suffix(m, Strings(argv, env, q)) && sp == End(base) - |m|
    requires i < |argv| && CString(argv[i]) && |argv[i]| > PATH_MAX
    ensures var a, next := ArgPointers(ArgEnd(base, env, q), argv)[i],
                         ArgPointers(ArgEnd(base, env, q), argv)[i] + PATH_MAX + 1;
            ReadAt(m, sp, a) == argv[i][..PATH_MAX + 1] + ReadAt(m, sp, next) &&
            (ReadAt(m, sp, a) == argv[i] <==> argv[i][PATH_MAX + 1..] == ReadAt(m, sp, next))
  {
    hide Suffix, ArgPointers, Strings, ReadString, Stored, At, ArgEnd;
    ArgAt(m, sp, base, argv, env, q, i);
    StoredIs(m, ArgPointers(ArgEnd(base, env, q), argv)[i] - sp, argv[i]);
    CutJoin(argv[i], ReadAt(m, sp, ArgPointers(ArgEnd(base, env, q), argv)[i] + PATH_MAX + 1));
  }

  lemma LongEnv(m: Bytes, sp: int, base: int, argv: seq<Bytes>, env: seq<Bytes>, q: Parts, i: nat)
    requires Suffix(m, Strings(argv, env, q)) && sp == End(base) - |m|
    requires i < |env| && CString(env[i]) && |env[i]| > PATH_MAX
    ensures var a, next := EnvPointers(End(base), env)[i], EnvPointers(End(base), env)[i] + PATH_MAX + 1;
            ReadAt(m, sp, a) == env[i][..PATH_MAX + 1] + ReadAt(m, sp, next) &&
            (ReadAt(m, sp, a) == env[i] <==> env[i][PATH_MAX + 1..] == ReadAt(m, sp, next))
  {
    hide Suffix, EnvPointers, Strings, ReadString, Stored, At;
    EnvAt(m, sp, base, argv, env, q, i);
    StoredIs(m, EnvPointers(End(base), env)[i] - sp, env[i]);
    CutJoin(env[i], ReadAt(m, sp, EnvPointers(End(base), env)[i] + PATH_MAX + 1));
  }

  lemma CutJoin(s: Bytes, rest: Bytes)
    requires |s| > PATH_MAX
    ensures s[..PATH_MAX + 1] + rest == s <==> s[PATH_MAX + 1..] == rest
  {
    assert s == s[..PATH_MAX + 1] + s[PATH_MAX + 1..];
    assert (s[..PATH_MAX + 1] + rest)[PATH_MAX + 1..] == rest;
  }

  lemma {:induction false} ArgRead(m: Bytes, sp: int, base: int, argv: seq<Bytes>, env: seq<Bytes>, q: Parts, i: nat)
    requires Suffix(m, Strings(argv, env, q)) && sp == End(base) - |m| && i < |argv| && AllStrings(argv)
    ensures ReadAt(m, sp, ArgPointers(ArgEnd(base, env, q), argv)[i]) == ArgSeen(argv, i, AfterArgs(env, q))
    decreases |argv| - i
  {
    hide Suffix, ArgPointers, Strings, ReadString, Stored, At, ArgEnd, AfterArgs;
    var argp := ArgPointers(ArgEnd(base, env, q), argv);
    ArgAt(m, sp, base, argv, env, q, i);
    StoredIs(m, argp[i] - sp, argv[i]);
    if |argv[i]| > PATH_MAX {
      NextArg(m, sp, base, argv, env, q, i);
      if i + 1 < |argv| {
        ArgRead(m, sp, base, argv, env, q, i + 1);
      }
    }
  }

  /** What follows an overlong argument. */
  lemma NextArg(m: Bytes, sp: int, base: int, argv: seq<Bytes>, env: seq<Bytes>, q: Parts, i: nat)
    requires Suffix(m, Strings(argv, env, q)) && sp == End(base) - |m| && i < |argv| && |argv[i]| > PATH_MAX
    ensures var argp, next := ArgPointers(ArgEnd(base, env, q), argv),
                              ArgPointers(ArgEnd(base, env, q), argv)[i] + PATH_MAX + 1;
            if i + 1 < |argv| then next == argp[i + 1] else ReadAt(m, sp, next) == AfterArgs(env, q)
  {
    hide Suffix, ReadString, EnvBytes;
    ArgStep(0, argv, i);
    if i + 1 == |argv| {
      assert argv[i + 1..] == [];
      var rest := q.pad1 + EnvBytes(env);
      SuffixJoin(ArgBytes(argv), rest);
      SuffixTrans(m, Strings(argv, env, q), rest);
      SuffixShorter(m, rest);
      SuffixRead(m, rest);
    }
  }

  lemma {:induction false} EnvReadOne(m: Bytes, sp: int, base: int, argv: seq<Bytes>, env: seq<Bytes>, q: Parts, i: nat)
    requires Suffix(m, Strings(argv, env, q)) && sp == End(base) - |m| && i < |env| && AllStrings(env)
    ensures ReadAt(m, sp, EnvPointers(End(base), env)[i]) == EnvSeen(env, i + 1)
  {
    hide Suffix, EnvPointers, Strings, ReadString, Stored, At;
    var envp := EnvPointers(End(base), env);
    EnvAt(m, sp, base, argv, env, q, i);
    StoredIs(m, envp[i] - sp, env[i]);
    if |env[i]| > PATH_MAX {
      NextEnv(m, sp, base, env, i);
      if i > 0 {
        EnvReadOne(m, sp, base, argv, env, q, i - 1);
      }
    }
  }

  lemma NextEnv(m: Bytes, sp: int, base: int, env: seq<Bytes>, i: nat)
    requires sp == End(base) - |m| && i < |env| && |env[i]| > PATH_MAX
    ensures var envp, next := EnvPointers(End(base), env), EnvPointers(End(base), env)[i] + PATH_MAX + 1;
            if i > 0 then next == envp[i - 1] else ReadAt(m, sp, next) == []
  {
    EnvStep(0, env, i);
    NoStrings(0, env);
  }

  /** Reading at a suffix is reading the suffix. */
  lemma SuffixRead(m: Bytes, b: Bytes)
    requires Suffix(m, b)
    ensures ReadString(m, |m| - |b|) == ReadString(b, 0)
  {
    ReadShifted(m, b, 0);
  }

  lemma {:induction false} ReadShifted(m: Bytes, b: Bytes, k: nat)
    requires Suffix(m, b) && k <= |b|
    ensures ReadString(m, |m| - |b| + k) == ReadString(b, k)
    decreases |b| - k
  {
    if k < |b| {
      assert m[|m| - |b|..][k] == b[k];
      ReadShifted(m, b, k + 1);
    }
  }

  lemma ArgsRead(m: Bytes, sp: int, base: int, argv: seq<Bytes>, env: seq<Bytes>, q: Parts)
    requires Suffix(m, Strings(argv, env, q)) && sp == End(base) - |m| && AllStrings(argv)
    ensures ReadStrings(m, sp, ArgPointers(ArgEnd(base, env, q), argv)) == ArgsSeen(argv, AfterArgs(env, q))
  {
    hide Suffix, ArgPointers, Strings, ArgEnd, AfterArgs, ArgSeen, ReadAt, AllStrings;
    forall i | 0 <= i < |argv|
      ensures ReadAt(m, sp, ArgPointers(ArgEnd(base, env, q), argv)[i]) == ArgSeen(argv, i, AfterArgs(env, q))
    {
      ArgRead(m, sp, base, argv, env, q, i);
    }
  }

  lemma EnvRead(m: Bytes, sp: int, base: int, argv: seq<Bytes>, env: seq<Bytes>, q: Parts)
    requires Suffix(m, Strings(argv, env, q)) && sp == End(base) - |m| && AllStrings(env)
    ensures ReadStrings(m, sp, EnvPointers(End(base), env)) == EnvsSeen(env)
  {
    hide Suffix, EnvPointers, Strings, EnvSeen, ReadAt, AllStrings;
    forall i | 0 <= i < |env|
      ensures ReadAt(m, sp, EnvPointers(End(base), env)[i]) == EnvSeen(env, i + 1)
    {
      EnvReadOne(m, sp, base, argv, env, q, i);
    }
  }

  lemma WholeSeen(argv: seq<Bytes>, env: seq<Bytes>, after: Bytes)
    ensures ArgsSeen(argv, after) == argv && EnvsSeen(env) == env <==> Whole(argv, env, after)
  {
    forall i | 0 <= i < |argv|
      ensures ArgSeen(argv, i, after) == argv[i] <==>
              |argv[i]| <= PATH_MAX || argv[i][PATH_MAX + 1..] == ArgSeen(argv, i + 1, after)
    {
      if |argv[i]| > PATH_MAX {
        CutJoin(argv[i], ArgSeen(argv, i + 1, after));
      }
    }
    forall i | 0 <= i < |env|
      ensures EnvSeen(env, i + 1) == env[i] <==> |env[i]| <= PATH_MAX || env[i][PATH_MAX + 1..] == EnvSeen(env, i)
    {
      if |env[i]| > PATH_MAX {
        CutJoin(env[i], EnvSeen(env, i));
      }
    }
    hide ArgSeen, EnvSeen;
    assert ArgsSeen(argv, after) == argv <==> forall i :: 0 <= i < |argv| ==> ArgsSeen(argv, after)[i] == argv[i];
    assert EnvsSeen(env) == env <==> forall i :: 0 <= i < |env| ==> EnvsSeen(env)[i] == env[i];
  }

  /** On a stack that was zero, what follows the arguments is empty, or the last environment string when
      no padding was needed. */
  lemma AfterArgsIs(env: seq<Bytes>, q: Parts)
    requires AllStrings(env) && forall k :: 0 <= k < |q.pad1| ==> q.pad1[k] == 0
    ensures AfterArgs(env, q) == if q.pad1 != [] then [] else EnvSeen(env, |env|)
  {
    hide ReadString, EnvBytes, EnvSeen, AllStrings;
    if q.pad1 == [] {
      assert q.pad1 + EnvBytes(env) == EnvBytes(env);
      EnvFromStart(env);
    } else {
      PaddingRead(q.pad1, EnvBytes(env));
    }
  }

  lemma PaddingRead(pad: Bytes, rest: Bytes)
    requires pad != [] && pad[0] == 0
    ensures ReadString(pad + rest, 0) == []
  {
    assert (pad + rest)[0] == pad[0];
  }

  lemma EnvAlone(env: seq<Bytes>, t: Parts)
    requires env != [] && t == Parts([], [], [])
    ensures Suffix(EnvBytes(env), Strings([], env, t)) && EnvPointers(|EnvBytes(env)|, env)[|env| - 1] == 0
  {
    hide EnvBytes;
    assert env[..|env|] == env;
    assert ArgBytes([]) == [] && [] + ([] + EnvBytes(env)) == EnvBytes(env);
  }

  lemma EnvFromStart(env: seq<Bytes>)
    requires AllStrings(env)
    ensures ReadString(EnvBytes(env), 0) == EnvSeen(env, |env|)
  {
    if env == [] {
      NoStrings(0, env);
    } else {
      hide EnvSeen, ReadString, Strings, Suffix, EnvPointers, EnvBytes, AllStrings;
      var m, t := EnvBytes(env), Parts([], [], []);
      EnvAlone(env, t);
      EnvReadOne(m, 0, |m| - GUEST_STACK_SIZE, [], env, t, |env| - 1);
    }
  }

  /** Strings that are short enough read back. */
  lemma ShortReadBack(argv: seq<Bytes>, env: seq<Bytes>, after: Bytes)
    requires forall s :: s in argv + env ==> |s| <= PATH_MAX
    ensures Whole(argv, env, after)
  {
    assert forall i :: 0 <= i < |argv| ==> argv[i] in argv + env;
    assert forall i :: 0 <= i < |env| ==> env[i] in argv + env;
  }

  lemma LongSeen(s: Bytes, after: Bytes)
    requires |s| == PATH_MAX + 1
    ensures ArgsSeen([s, [120]], after) == [s + [120], [120]] && EnvsSeen([]) == []
  {
    var argv := [s, [120]];
    assert ArgSeen(argv, 1, after) == [120];
    assert s[..PATH_MAX + 1] == s && ArgSeen(argv, 0, after) == s + [120];
  }

  lemma LongFits(base: int, s: Bytes)
    requires |s| == PATH_MAX + 1
    ensures EnvFits([]) && ArgsFit(base, [s, [120]], [])
  {
    var argv := [s, [120]];
    NoStrings(0, argv);
    ArgStep(0, argv, 0);
    ArgStep(0, argv, 1);
    hide ArgBytes;
    assert |Stored(s)| == PATH_MAX + 1 && |Stored([120])| == 2 && |EnvBytes([])| == 0;
  }

  /** A start with an argument of PATH_MAX + 1 bytes and the argument "x": the first runs on into the
      second. */
  method LongRunsOn(mem: array<int>, base: int, s: Bytes, p: Program, random: Bytes) returns (out: Outcome)
    requires mem.Length == GUEST_STACK_SIZE && 0 < base && Word64(End(base)) && p.Ok() && |random| <= 16
    requires CString(s) && |s| == PATH_MAX + 1
    modifies mem
    ensures out.Started? && base <= out.sp <= End(base) - 8
    ensures var r := ReadStartup(mem[out.sp - base..], out.sp);
            r.argc == 2 && r.argv == [s + [120], [120]] && r.env == []
  {
    hide EnvFits, ArgsFit, ArgsSeen, EnvsSeen, ReadStartup, Finished, Auxv, AfterArgs, Whole, Words, AuxWords, EnvBytes;
    LongFits(base, s);
    assert CString([120]);
    assert AllStrings([s, [120]]) && AllStrings([]);
    var auxv;
    ghost var q;
    out, auxv, q := InitMain(mem, base, [s, [120]], [], p, random);
    LongSeen(s, AfterArgs([], q));
  }

  // ---- the auxiliary vector, key by key -------------------------------------------------------------

  /** `v` is the address of the program headers: the first PT_PHDR says it; without one, it is the file offset
      of the headers from the first PT_LOAD. */
  ghost predicate HeadersAt(p: Program, v: int) {
    && (forall k :: 0 <= k < |p.phdrs| && p.phdrs[k].ptype == 6 && (forall j :: 0 <= j < k ==> p.phdrs[j].ptype != 6)
          ==> v == (p.phdrs[k].vaddr + p.adjust) % 0x1_0000_0000_0000_0000)
    && (forall k :: 0 <= k < |p.phdrs| && p.phdrs[k].ptype == 1 && (forall j :: 0 <= j < k ==> p.phdrs[j].ptype != 1) &&
                    (forall j :: 0 <= j < |p.phdrs| ==> p.phdrs[j].ptype != 6)
          ==> v == (p.phoff + p.phdrs[k].vaddr + p.adjust) % 0x1_0000_0000_0000_0000)
  }

  /** The entries whose values are numbers, by the keys of the psABI and of Linux: AT_PHDR 3, AT_PHENT 4,
      AT_PHNUM 5, AT_PAGESZ 6, AT_BASE 7, AT_FLAGS 8, AT_ENTRY 9, AT_UID to AT_EGID 11 to 14, AT_CLKTCK 17,
      AT_SECURE 23, AT_SYSINFO_EHDR 33 and AT_MINSIGSTKSZ 51. */
  ghost predicate TellsNumbers(es: seq<(int, int)>, p: Program) {
    && (exists v :: Lookup(es, 3) == Some(v) && HeadersAt(p, v))
    && Lookup(es, 4) == Some(p.phentsize) && Lookup(es, 5) == Some(|p.phdrs|) && Lookup(es, 6) == Some(4096)
    && Lookup(es, 7) == (if p.interp then Some(p.interpAdjust) else None)
    && Lookup(es, 9) == Some((p.entry + p.adjust) % 0x1_0000_0000_0000_0000)
    && Lookup(es, 8) == Some(0) && Lookup(es, 23) == Some(0) && (forall k :: 11 <= k <= 14 ==> Lookup(es, k) == Some(0))
    && Lookup(es, 17) == Some(p.clockTicks) && Lookup(es, 51) == Some(p.signalStack)
    && Lookup(es, 33) == (if p.vdso == 0 then None else Some(p.vdso))
  }

  /** What the entries point at, in the memory `m` that starts at `sp`: AT_PLATFORM 15 the string "X86_64",
      AT_RANDOM 25 the random bytes, missing when there are none, AT_EXECFN 31 the string that is the first
      argument. */
  ghost predicate TellsPlaces(m: Bytes, sp: int, es: seq<(int, int)>, argv: seq<Bytes>, random: Bytes) {
    && (exists v :: Lookup(es, 15) == Some(v) && ReadAt(m, sp, v) == [88, 56, 54, 95, 54, 52])
    && (if random == [] then Lookup(es, 25) == None
        else exists v :: Lookup(es, 25) == Some(v) && v >= sp && At(m, v - sp, random))
    && (if argv == [] then Lookup(es, 31) == Some(0)
        else exists v :: Lookup(es, 31) == Some(v) && ReadTable(m, 8) != [] && v == ReadTable(m, 8)[0] &&
                         (|argv[0]| <= PATH_MAX ==> ReadAt(m, sp, v) == argv[0]))
  }

  /** Which part of the vector a key belongs to. */
  function Part(key: int): int {
    if key == 33 then 0 else if 3 <= key <= 6 || key == 17 || key == 51 then 1 else if key == 7 then 2
    else if 8 <= key <= 14 || key == 23 then 3 else if key == 25 then 4 else 5
  }

  ghost predicate Below(es: seq<(int, int)>, n: int) {
    forall e :: e in es ==> Part(e.0) < n
  }

  ghost predicate Within(es: seq<(int, int)>, n: int) {
    forall e :: e in es ==> Part(e.0) == n
  }

  lemma OnceJoin(a: seq<(int, int)>, b: seq<(int, int)>, n: int)
    requires Once(a) && Below(a, n) && Once(b) && Within(b, n)
    ensures Once(a + b) && Below(a + b, n + 1)
  {
    hide Part;
    forall x, y | x in a && y in b
      ensures x.0 != y.0
    {
      assert Part(x.0) < n == Part(y.0);
    }
  }

  ghost predicate Tells(m: Bytes, sp: int, argv: seq<Bytes>, p: Program, random: Bytes)
    requires |m| >= 8
  {
    var es := ReadStartup(m, sp).auxv;
    Once(es) && TellsNumbers(es, p) && TellsPlaces(m, sp, es, argv, random)
  }

  lemma LowOnce(p: Program)
    requires p.Ok()
    ensures Once(LowEntries(p)) && Within(LowEntries(p), 1)
  {
    hide Program.Ok, Program.PhdrAddress;
  }

  lemma MidOnce(p: Program)
    ensures Once(MidEntries(p)) && Within(MidEntries(p), 3)
  {
    hide Wrap;
  }

  lemma FewOnce(p: Program, platform: int, execfn: int, random: int)
    ensures Once(Optional(p.vdso != 0, 33, p.vdso)) && Below(Optional(p.vdso != 0, 33, p.vdso), 1)
    ensures Once(Optional(p.interp, 7, p.interpAdjust)) && Within(Optional(p.interp, 7, p.interpAdjust), 2)
    ensures Once(Optional(random != 0, 25, random)) && Within(Optional(random != 0, 25, random), 4)
    ensures Once([(31, execfn), (15, platform)]) && Within([(31, execfn), (15, platform)], 5)
  {
  }

  lemma EntriesOnce(p: Program, platform: int, execfn: int, random: int)
    requires p.Ok()
    ensures Once(AuxEntries(p, platform, execfn, random))
  {
    var a, c, e := Optional(p.vdso != 0, 33, p.vdso), Optional(p.interp, 7, p.interpAdjust),
                   Optional(random != 0, 25, random);
    var b, d := LowEntries(p), MidEntries(p);
    LowOnce(p);
    MidOnce(p);
    FewOnce(p, platform, execfn, random);
    hide Optional, LowEntries, MidEntries, Program.Ok, Once, Below, Within;
    OnceJoin(a, b, 1);
    OnceJoin(a + b, c, 2);
    OnceJoin(a + b + c, d, 3);
    OnceJoin(a + b + c + d, e, 4);
    OnceJoin(a + b + c + d + e, [(31, execfn), (15, platform)], 5);
  }

  lemma EntriesIn(p: Program, platform: int, execfn: int, random: int, e: (int, int))
    requires p.Ok()
    ensures e in AuxEntries(p, platform, execfn, random) <==>
            || e in LowEntries(p) || e in MidEntries(p) || e == (31, execfn) || e == (15, platform)
            || (p.vdso != 0 && e == (33, p.vdso)) || (p.interp && e == (7, p.interpAdjust))
            || (random != 0 && e == (25, random))
  {
    hide LowEntries, MidEntries, Program.Ok;
  }

  lemma FixedIn(p: Program)
    requires p.Ok()
    ensures (3, p.PhdrAddress()) in LowEntries(p) && (4, p.phentsize) in LowEntries(p)
    ensures (5, |p.phdrs|) in LowEntries(p) && (6, PAGE_SIZE) in LowEntries(p)
    ensures (17, p.clockTicks) in LowEntries(p) && (51, p.signalStack) in LowEntries(p)
    ensures (9, Wrap(p.entry + p.adjust)) in MidEntries(p)
    ensures (8, 0) in MidEntries(p) && (23, 0) in MidEntries(p) && forall k :: 11 <= k <= 14 ==> (k, 0) in MidEntries(p)
  {
    hide Program.Ok, Program.PhdrAddress, Wrap;
  }

  /** An entry found is the value of its key. */
  lemma EntryFound(p: Program, platform: int, execfn: int, random: int, key: int, v: int)
    requires p.Ok()
    ensures (key, v) in AuxEntries(p, platform, execfn, random) ==>
              Lookup(AuxEntries(p, platform, execfn, random), key) == Some(v)
  {
    EntriesOnce(p, platform, execfn, random);
    hide AuxEntries, Once, Lookup, Program.Ok;
    if (key, v) in AuxEntries(p, platform, execfn, random) {
      LookupIs(AuxEntries(p, platform, execfn, random), key, v);
    }
  }

  lemma FixedTell(p: Program, platform: int, execfn: int, random: int, key: int, v: int)
    requires p.Ok() && ((key, v) in LowEntries(p) || (key, v) in MidEntries(p))
    ensures Lookup(AuxEntries(p, platform, execfn, random), key) == Some(v)
  {
    hide AuxEntries, Lookup, LowEntries, MidEntries, Program.Ok;
    EntriesIn(p, platform, execfn, random, (key, v));
    EntryFound(p, platform, execfn, random, key, v);
  }

  lemma OptionalIn(p: Program, platform: int, execfn: int, random: int)
    requires p.Ok()
    ensures var es := AuxEntries(p, platform, execfn, random);
            && (15, platform) in es && (31, execfn) in es && (random != 0 ==> (25, random) in es)
            && (p.interp ==> (7, p.interpAdjust) in es) && (p.vdso != 0 ==> (33, p.vdso) in es)
  {
    hide AuxEntries, LowEntries, MidEntries, Program.Ok;
    EntriesIn(p, platform, execfn, random, (15, platform));
    EntriesIn(p, platform, execfn, random, (31, execfn));
    EntriesIn(p, platform, execfn, random, (25, random));
    EntriesIn(p, platform, execfn, random, (7, p.interpAdjust));
    EntriesIn(p, platform, execfn, random, (33, p.vdso));
  }

  lemma EntriesMissing(p: Program, platform: int, execfn: int, random: int, key: int)
    requires p.Ok() && (key == 33 || key == 7 || key == 25)
    requires !(key == 33 && p.vdso != 0) && !(key == 7 && p.interp) && !(key == 25 && random != 0)
    ensures Lookup(AuxEntries(p, platform, execfn, random), key) == None
  {
    var a, c, e := Optional(p.vdso != 0, 33, p.vdso), Optional(p.interp, 7, p.interpAdjust),
                   Optional(random != 0, 25, random);
    var b, d, f := LowEntries(p), MidEntries(p), [(31, execfn), (15, platform)];
    assert Missing(a, key) && Missing(c, key) && Missing(e, key) && Missing(f, key);
    LowOnce(p);
    MidOnce(p);
    hide LowEntries, MidEntries, Program.Ok, Optional, Lookup, Part, Once;
    assert Missing(b, key) && Missing(d, key);
    hide Missing, Within;
    MissingJoin(a, b, key);
    MissingJoin(a + b, c, key);
    MissingJoin(a + b + c, d, key);
    MissingJoin(a + b + c + d, e, key);
    MissingJoin(a + b + c + d + e, f, key);
    LookupNone(AuxEntries(p, platform, execfn, random), key);
  }

  lemma OptionalNone(p: Program, platform: int, execfn: int, random: int)
    requires p.Ok()
    ensures var es := AuxEntries(p, platform, execfn, random);
            && (random == 0 ==> Lookup(es, 25) == None) && (!p.interp ==> Lookup(es, 7) == None)
            && (p.vdso == 0 ==> Lookup(es, 33) == None)
  {
    hide AuxEntries, Lookup, Program.Ok;
    if random == 0 {
      EntriesMissing(p, platform, execfn, random, 25);
    }
    if !p.interp {
      EntriesMissing(p, platform, execfn, random, 7);
    }
    if p.vdso == 0 {
      EntriesMissing(p, platform, execfn, random, 33);
    }
  }

  lemma OptionalTell(p: Program, platform: int, execfn: int, random: int)
    requires p.Ok()
    ensures var es := AuxEntries(p, platform, execfn, random);
            && Lookup(es, 15) == Some(platform) && Lookup(es, 31) == Some(execfn)
            && Lookup(es, 25) == (if random == 0 then None else Some(random))
            && Lookup(es, 7) == (if p.interp then Some(p.interpAdjust) else None)
            && Lookup(es, 33) == (if p.vdso == 0 then None else Some(p.vdso))
  {
    hide AuxEntries, Lookup, Program.Ok;
    OptionalIn(p, platform, execfn, random);
    OptionalNone(p, platform, execfn, random);
    EntryFound(p, platform, execfn, random, 15, platform);
    EntryFound(p, platform, execfn, random, 31, execfn);
    EntryFound(p, platform, execfn, random, 25, random);
    EntryFound(p, platform, execfn, random, 7, p.interpAdjust);
    EntryFound(p, platform, execfn, random, 33, p.vdso);
  }

  lemma EntriesTell(p: Program, platform: int, execfn: int, random: int)
    requires p.Ok()
    ensures TellsNumbers(AuxEntries(p, platform, execfn, random), p)
  {
    var es := AuxEntries(p, platform, execfn, random);
    HeadersFound(p);
    FixedIn(p);
    OptionalTell(p, platform, execfn, random);
    hide HeadersAt, AuxEntries, Lookup, LowEntries, MidEntries, Program.Ok, Program.PhdrAddress;
    FixedTell(p, platform, execfn, random, 3, p.PhdrAddress());
    FixedTell(p, platform, execfn, random, 4, p.phentsize);
    FixedTell(p, platform, execfn, random, 5, |p.phdrs|);
    FixedTell(p, platform, execfn, random, 6, PAGE_SIZE);
    FixedTell(p, platform, execfn, random, 17, p.clockTicks);
    FixedTell(p, platform, execfn, random, 51, p.signalStack);
    FixedTell(p, platform, execfn, random, 9, Wrap(p.entry + p.adjust));
    FixedTell(p, platform, execfn, random, 8, 0);
    FixedTell(p, platform, execfn, random, 23, 0);
    forall k | 11 <= k <= 14
      ensures Lookup(es, k) == Some(0)
    {
      FixedTell(p, platform, execfn, random, k, 0);
    }
  }

  lemma HeadersFound(p: Program)
    requires p.Ok()
    ensures HeadersAt(p, p.PhdrAddress())
  {
    var i, j := p.First(PT_PHDR), p.First(PT_LOAD);
    hide Program.First;
    forall k | 0 <= k < |p.phdrs| && p.phdrs[k].ptype == 6 && (forall l :: 0 <= l < k ==> p.phdrs[l].ptype != 6)
      ensures k == i
    {
    }
    forall k | 0 <= k < |p.phdrs| && p.phdrs[k].ptype == 1 && (forall l :: 0 <= l < k ==> p.phdrs[l].ptype != 1)
      ensures k == j
    {
    }
  }

  /** AT_PLATFORM and AT_RANDOM point at the platform string and at the random bytes. */
  lemma InfoReadsBack(m: Bytes, sp: int, base: int, argv: seq<Bytes>, env: seq<Bytes>, p: Program, q: Parts)
    requires p.Ok() && Finished(m, sp, base, argv, env, p, q)
    ensures var a := PlatformAt(base, argv, env, q); a >= sp && At(m, a - sp, PLATFORM)
    ensures q.random != [] ==> var a := PlatformAt(base, argv, env, q) - 16; a >= sp && At(m, a - sp, q.random)
  {
    hide Suffix, Image, Pointed, Strings, At, Program.Ok;
    StringsOnTop(base, argv, env, p, q);
    SuffixHead(m, PLATFORM, Strings(argv, env, q));
    SuffixShorter(m, PLATFORM + Strings(argv, env, q));
    SuffixHead(m, q.random, PLATFORM + Strings(argv, env, q));
    SuffixShorter(m, q.random + (PLATFORM + Strings(argv, env, q)));
  }

  /** Address of the first argument string, 0 without arguments. */
  function ExecAt(base: int, argv: seq<Bytes>, env: seq<Bytes>, q: Parts): int {
    if argv == [] then 0 else ArgPointers(ArgEnd(base, env, q), argv)[0]
  }

  lemma AuxvTells(base: int, argv: seq<Bytes>, env: seq<Bytes>, p: Program, q: Parts)
    requires p.Ok()
    ensures var es, platform := Auxv(base, argv, env, p, q), PlatformAt(base, argv, env, q);
            && Once(es) && TellsNumbers(es, p)
            && Lookup(es, 15) == Some(platform) && Lookup(es, 31) == Some(ExecAt(base, argv, env, q))
            && Lookup(es, 25) == (if q.random == [] || platform == 16 then None else Some(platform - 16))
  {
    hide TellsNumbers, PlatformAt, ArgPointers, ArgEnd, AuxEntries, Once, Lookup, Program.Ok;
    var platform, execfn := PlatformAt(base, argv, env, q), ExecAt(base, argv, env, q);
    var random := if q.random == [] then 0 else platform - 16;
    EntriesOnce(p, platform, execfn, random);
    EntriesTell(p, platform, execfn, random);
    OptionalTell(p, platform, execfn, random);
  }

  lemma InfoFound(m: Bytes, sp: int, base: int, argv: seq<Bytes>, env: seq<Bytes>, p: Program, q: Parts)
    requires p.Ok() && Finished(m, sp, base, argv, env, p, q) && 0 < base
    ensures var a := PlatformAt(base, argv, env, q);
            && ReadAt(m, sp, a) == [88, 56, 54, 95, 54, 52]
            && (q.random != [] ==> a != 16 && a - 16 >= sp && At(m, a - 16 - sp, q.random))
  {
    hide Image, Padded, Pointed, PlatformAt, Program.Ok, At, ReadString;
    InfoReadsBack(m, sp, base, argv, env, p, q);
    PlatformRead(m, PlatformAt(base, argv, env, q) - sp);
  }

  lemma ExecFound(m: Bytes, sp: int, base: int, argv: seq<Bytes>, env: seq<Bytes>, p: Program, q: Parts)
    requires p.Ok() && Finished(m, sp, base, argv, env, p, q) && AllStrings(argv) && argv != []
    ensures var a := ExecAt(base, argv, env, q);
            && ReadTable(m, 8) != [] && a == ReadTable(m, 8)[0]
            && (|argv[0]| <= PATH_MAX ==> ReadAt(m, sp, a) == argv[0])
  {
    hide Image, Padded, Pointed, Program.Ok, ArgPointers, ArgEnd, ReadTable, AllStrings, Strings, Suffix, Info, Auxv,
         EnvPointers, ReadAuxv, WordAt, ReadString, AfterArgs;
    StringsOnTop(base, argv, env, p, q);
    TablesRead(m, base, argv, env, p, q);
    ArgRead(m, sp, base, argv, env, q, 0);
  }

  lemma PlacesFound(m: Bytes, sp: int, base: int, argv: seq<Bytes>, env: seq<Bytes>, p: Program, q: Parts)
    requires p.Ok() && Finished(m, sp, base, argv, env, p, q) && 0 < base && AllStrings(argv)
    ensures TellsPlaces(m, sp, Auxv(base, argv, env, p, q), argv, q.random)
  {
    hide Finished, Auxv, Lookup, At, PlatformAt, ExecAt, ReadTable, ReadAt, AllStrings, Program.Ok, TellsNumbers, Once;
    AuxvTells(base, argv, env, p, q);
    InfoFound(m, sp, base, argv, env, p, q);
    if argv != [] {
      ExecFound(m, sp, base, argv, env, p, q);
    } else {
      assert ExecAt(base, argv, env, q) == 0 by {
        NoExec(base, env, q);
      }
    }
  }

  lemma NoExec(base: int, env: seq<Bytes>, q: Parts)
    ensures ExecAt(base, [], env, q) == 0
  {
  }

  lemma PlatformRead(m: Bytes, k: nat)
    requires At(m, k, PLATFORM)
    ensures ReadString(m, k) == [88, 56, 54, 95, 54, 52]
  {
    hide ReadString, At;
    assert PLATFORM == [88, 56, 54, 95, 54, 52] + [0];
    StringIs(m, k, [88, 56, 54, 95, 54, 52]);
  }

  /** The new process finds each key once, with the values of the program it was started from. */
  lemma VectorTells(m: Bytes, sp: int, base: int, argv: seq<Bytes>, env: seq<Bytes>, p: Program, q: Parts)
    requires p.Ok() && Finished(m, sp, base, argv, env, p, q) && 0 < base && AllStrings(argv) && AllStrings(env)
    ensures |m| >= 8 && Tells(m, sp, argv, p, q.random)
  {
    hide ReadStartup, Finished, TellsPlaces, TellsNumbers, AllStrings, Auxv, Once, Program.Ok, Whole, ArgsSeen,
         EnvsSeen, AfterArgs, Lookup;
    ReadsBack(m, sp, base, argv, env, p, q);
    PlacesFound(m, sp, base, argv, env, p, q);
    AuxvTells(base, argv, env, p, q);
  }
}
