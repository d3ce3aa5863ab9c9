/** A core file while it is written, and where its segments go (km/km_coredump.c).

    Every byte of the file records what was written there. Position and length are kept apart: a seek
    past the end moves the position only, and the next write fills the gap with holes.
 */
module CoreFile {
  import opened Wrappers
  import Geometry

  const PAGE_SIZE: nat := Geometry.PAGE
  const MIB: nat := Geometry.MIB
  const EHDR_SIZE: nat := 64
  const PHDR_SIZE: nat := 56

  datatype Phdr = Note(offset: int, size: int) | Load(offset: int, base: int, size: int, flags: int)

  datatype Cell =
    | Hole
    | EhdrByte(phnum: int, k: int)
    | PhdrByte(h: Phdr, k: int)
    | NoteByte(k: int)
    | MemByte(value: int)

  /** A region of guest memory that is dumped. */
  datatype Segment = Segment(base: int, size: nat, flags: int)

  function PageUp(n: nat): (r: nat)
    ensures n <= r < n + PAGE_SIZE && r % PAGE_SIZE == 0
  {
    Geometry.RoundUp(n, PAGE_SIZE)
  }

  lemma PageUpUnique(n: nat, r: nat)
    requires n <= r < n + PAGE_SIZE && r % PAGE_SIZE == 0
    ensures PageUp(n) == r
  {
    var s := PageUp(n);
    assert (r - s) % PAGE_SIZE == 0;
  }

  /** Rounding up before and after adding a length from a page boundary agree. */
  lemma PageUpSum(at: nat, len: nat)
    requires at % PAGE_SIZE == 0
    ensures PageUp(at + PageUp(len)) == PageUp(at + len) == at + PageUp(len)
  {
    hide PageUp;
    PageUpUnique(at + PageUp(len), at + PageUp(len));
    PageUpUnique(at + len, at + PageUp(len));
  }

  /** File offset of segment i: each starts on the first page boundary after the one before. */
  function Offset(start: nat, segs: seq<Segment>, i: nat): nat
    requires i <= |segs|
  {
    if i == 0 then PageUp(start) else PageUp(Offset(start, segs, i - 1) + segs[i - 1].size)
  }

  lemma {:induction false} OffsetPrefix(start: nat, a: seq<Segment>, b: seq<Segment>, i: nat)
    requires i <= |a|
    ensures Offset(start, a + b, i) == Offset(start, a, i)
  {
    hide PageUp;
    if i > 0 {
      OffsetPrefix(start, a, b, i - 1);
    }
  }

  /** Segments are page aligned, in order, and do not overlap. */
  lemma {:induction false} OffsetsApart(start: nat, segs: seq<Segment>, i: nat, j: nat)
    requires i < j <= |segs|
    ensures Offset(start, segs, i) % PAGE_SIZE == 0 && start <= Offset(start, segs, i)
    ensures Offset(start, segs, i) + segs[i].size <= Offset(start, segs, j)
    decreases j
  {
    hide PageUp;
    if i > 0 {
      OffsetsApart(start, segs, i - 1, i);
    }
    if i + 1 < j {
      OffsetsApart(start, segs, i, j - 1);
    }
  }

  /** Where the bytes of the segments end: after the last one that has any. */
  function SegmentsEnd(start: nat, segs: seq<Segment>): nat {
    if segs == [] then 0
    else
      var n, last := |segs| - 1, segs[|segs| - 1];
      if last.size > 0 then Offset(start, segs, n) + last.size else SegmentsEnd(start, segs[..n])
  }

  /** It is an upper bound of the ends of all of them, and one of these ends. */
  lemma {:induction false} SegmentsEndIs(start: nat, segs: seq<Segment>)
    ensures forall i :: 0 <= i < |segs| && segs[i].size > 0 ==>
              Offset(start, segs, i) + segs[i].size <= SegmentsEnd(start, segs)
    ensures SegmentsEnd(start, segs) == 0 ||
            exists i :: 0 <= i < |segs| && segs[i].size > 0 &&
              Offset(start, segs, i) + segs[i].size == SegmentsEnd(start, segs)
  {
    hide PageUp;
    if segs != [] {
      var n := |segs| - 1;
      var init := segs[..n];
      assert segs == init + [segs[n]];
      SegmentsEndIs(start, init);
      forall i | 0 <= i < n
        ensures Offset(start, segs, i) == Offset(start, init, i) && segs[i] == init[i]
        ensures Offset(start, segs, i) + segs[i].size <= Offset(start, segs, n)
      {
        OffsetPrefix(start, init, [segs[n]], i);
        OffsetsApart(start, segs, i, n);
      }
      hide Offset;
      if segs[n].size == 0 && SegmentsEnd(start, init) != 0 {
        var i :| 0 <= i < |init| && init[i].size > 0 &&
          Offset(start, init, i) + init[i].size == SegmentsEnd(start, init);
        assert segs[i].size > 0 && Offset(start, segs, i) + segs[i].size == SegmentsEnd(start, segs);
      }
    }
  }

  // ---- what the host does ----------------------------------------------------------------------------

  /** What the host does with one write: it takes some bytes, faults on the buffer, or fails. */
  datatype Answer = Wrote(n: nat) | Fault | Failed(errno: int)

  /** A write takes at least a byte, and errors are errors. */
  ghost predicate Sane(host: nat -> Answer) {
    forall i :: (host(i).Wrote? ==> host(i).n > 0) && (host(i).Failed? ==> host(i).errno > 0)
  }

  ghost predicate NoFault(host: nat -> Answer) {
    forall i :: host(i) != Fault
  }

  /** Next call, position and file length. */
  datatype Progress = Progress(call: nat, pos: nat, end: nat)

  datatype Result = Done(p: Progress) | Stopped(p: Progress)

  /** Where the host's answers lead when `len` bytes are written from `p` on. */
  ghost function Job(host: nat -> Answer, p: Progress, len: nat, isGuest: bool): Result
    requires Sane(host)
    decreases len
  {
    if len == 0 then Done(p)
    else
      match host(p.call)
      case Wrote(w) =>
        var n := if w < len then w else len;
        Job(host, Progress(p.call + 1, p.pos + n, p.pos + n), len - n, isGuest)
      case Fault =>
        if isGuest then Done(Progress(p.call + 1, p.pos + len, p.end))
        else Stopped(Progress(p.call + 1, p.pos, p.end))
      case Failed(_) => Stopped(Progress(p.call + 1, p.pos, p.end))
  }

  lemma JobDone(host: nat -> Answer, p: Progress, isGuest: bool)
    requires Sane(host)
    ensures Job(host, p, 0, isGuest) == Done(p)
  {
  }

  /** The same for whole pages of guest memory, at most 1MB at a time. */
  ghost function Pages(host: nat -> Answer, p: Progress, size: nat): Option<Progress>
    requires Sane(host)
    decreases size
  {
    if size == 0 then Some(p)
    else
      var n := if size < MIB then size else MIB;
      match Job(host, p, n, true)
      case Stopped(_) => None
      case Done(q) => Pages(host, q, size - n)
  }

  // ---- the file --------------------------------------------------------------------------------------

  type Data = seq<Cell>

  /** `cells` stand at `at`: all of them when `full`, else with holes among them. */
  ghost predicate Holds(data: Data, at: int, cells: Data, full: bool) {
    && 0 <= at && (cells != [] ==> at + |cells| <= |data|)
    && forall k :: 0 <= k < |cells| ==> data[at + k] == cells[k] || (!full && data[at + k] == Hole)
  }

  /** What stands in a file stays when the file grows. */
  lemma HoldsGrown(a: Data, b: Data, at: int, cells: Data, full: bool)
    requires Holds(a, at, cells, full) && a <= b
    ensures Holds(b, at, cells, full)
  {
  }

  /** What stands in a file stands in a part of it that reaches far enough, and in no shorter one. */
  lemma HoldsCut(a: Data, b: Data, at: int, cells: Data, full: bool)
    requires Holds(b, at, cells, full) && a <= b
    ensures Holds(a, at, cells, full) <==> cells == [] || at + |cells| <= |a|
  {
  }

  lemma HoldsJoin(data: Data, at: int, a: Data, b: Data, full: bool)
    requires Holds(data, at, a, full) && Holds(data, at + |a|, b, full)
    ensures Holds(data, at, a + b, full)
  {
    forall k | 0 <= k < |a + b|
      ensures data[at + k] == (a + b)[k] || (!full && data[at + k] == Hole)
    {
      if k >= |a| {
        var j := k - |a|;
        assert data[at + |a| + j] == b[j] || (!full && data[at + |a| + j] == Hole);
      }
    }
  }

  /** What was added are holes and cells of the buffer. */
  ghost predicate OnlyNew(a: Data, b: Data, cells: Data) {
    forall k :: |a| <= k < |b| ==> b[k] == Hole || b[k] in cells
  }

  ghost predicate OnlyMemory(a: Data, b: Data) {
    forall k :: |a| <= k < |b| ==> b[k].Hole? || b[k].MemByte?
  }

  lemma MemoryOnly(a: Data, b: Data, c: Data, mem: int -> int, base: int, n: nat)
    requires a <= b <= c && OnlyMemory(a, b) && OnlyNew(b, c, Memory(mem, base, n))
    ensures OnlyMemory(a, c)
  {
  }

  function Holes(n: nat): (r: Data)
    ensures |r| == n
  {
    seq(n, _ => Hole)
  }

  lemma Skipped(a: Data, rest: Data)
    ensures Holds(a + Holes(|rest|), |a|, rest, false) && OnlyNew(a, a + Holes(|rest|), rest)
  {
  }

  lemma Taken(a: Data, rest: Data, n: nat, full: bool)
    requires n <= |rest|
    ensures Holds(a + rest[..n], |a|, rest[..n], full) && OnlyNew(a, a + rest[..n], rest)
  {
  }

  lemma NoHoles(data: Data)
    ensures data + Holes(0) == data
  {
  }

  lemma MoreHoles(data: Data, a: nat, b: nat)
    ensures data + Holes(a + b) == (data + Holes(a)) + Holes(b)
  {
  }

  class File {
    var data: Data
    var pos: nat
    const host: nat -> Answer // the host's answers to successive writes
    var calls: nat

    constructor (host': nat -> Answer)
      requires Sane(host')
      ensures Valid() && data == [] && pos == calls == 0 && host == host'
    {
      data, pos, host, calls := [], 0, host', 0;
    }

    /** Nothing has been written after the position. */
    ghost predicate Valid()
      reads this
    {
      |data| <= pos && Sane(host)
    }

    /** The file as it will be if anything is written from the position on. */
    ghost function Padded(): (r: Data)
      requires |data| <= pos
      reads this
      ensures |r| == pos && data <= r
    {
      data + Holes(pos - |data|)
    }

    ghost function Now(): Progress
      reads this
    {
      Progress(calls, pos, |data|)
    }

    // km_core_write_mem: partial writes are continued, and a fault in guest memory is skipped over
    method WriteMem(buffer: Data, isGuest: bool) returns (rc: int)
      requires Valid()
      modifies this
      ensures Valid() && old(Padded()) <= Padded() && OnlyNew(old(Padded()), Padded(), buffer)
      ensures rc == 0 ==> pos == old(pos) + |buffer| && Holds(Padded(), old(pos), buffer, !isGuest || NoFault(host))
      ensures rc != 0 ==> pos < old(pos) + |buffer|
      ensures Job(host, old(Now()), |buffer|, isGuest) == if rc == 0 then Done(Now()) else Stopped(Now())
    {
      hide OnlyNew, Holds, NoFault, Job;
      var cur := 0;
      NothingHolds(Padded(), buffer[..0], !isGuest || NoFault(host));
      NothingNew(Padded(), buffer);
      while cur < |buffer|
        invariant cur <= |buffer| && Valid() && pos == old(pos) + cur
        invariant old(Padded()) <= Padded() && OnlyNew(old(Padded()), Padded(), buffer)
        invariant Holds(Padded(), old(pos), buffer[..cur], !isGuest || NoFault(host))
        invariant Job(host, old(Now()), |buffer|, isGuest) == Job(host, Now(), |buffer| - cur, isGuest)
      {
        ghost var before := Padded();
        var n;
        rc, n := Write(buffer[cur..], isGuest);
        NewJoin(old(Padded()), before, Padded(), buffer, cur);
        if rc != 0 {
          return;
        }
        HoldsGrown(before, Padded(), old(pos), buffer[..cur], !isGuest || NoFault(host));
        HoldsJoin(Padded(), old(pos), buffer[..cur], buffer[cur..][..n], !isGuest || NoFault(host));
        assert buffer[..cur + n] == buffer[..cur] + buffer[cur..][..n];
        cur := cur + n;
      }
      assert buffer[..cur] == buffer;
      JobDone(host, Now(), isGuest);
      rc := 0;
    }

    // one turn of its loop
    method Write(rest: Data, isGuest: bool) returns (rc: int, n: nat)
      requires Valid() && |rest| > 0
      modifies this
      ensures Valid() && old(Padded()) <= Padded() && OnlyNew(old(Padded()), Padded(), rest)
      ensures rc != 0 ==> pos == old(pos)
      ensures rc == 0 ==> 0 < n <= |rest| && pos == old(pos) + n
      ensures rc == 0 ==> Holds(Padded(), old(pos), rest[..n], !isGuest || NoFault(host))
      ensures Job(host, old(Now()), |rest|, isGuest) ==
              if rc == 0 then Job(host, Now(), |rest| - n, isGuest) else Stopped(Now())
    {
      ghost var full := !isGuest || NoFault(host);
      assert isGuest && host(calls) == Fault ==> !full;
      hide Holds, OnlyNew, NoFault, Holes;
      ghost var was := Padded();
      NothingNew(was, rest);
      var answer := host(calls);
      calls := calls + 1;
      rc, n := 0, |rest|;
      match answer
      case Wrote(w) =>
        n := if w < |rest| then w else |rest|;
        Taken(was, rest, n, full);
        data := data + Holes(pos - |data|) + rest[..n];
        pos := pos + n;
        NoHoles(data);
      case Fault =>
        if isGuest {
          assert rest[..n] == rest;
          Skipped(was, rest);
          MoreHoles(data, pos - |data|, |rest|);
          pos := pos + |rest|; // lseek over the rest
        } else {
          rc := 14; // EFAULT
        }
      case Failed(errno) =>
        rc := errno;
    }

    // km_guestmem_write: whole pages from a page boundary on, at most 1MB at a time
    method GuestWrite(mem: int -> int, base: int, length: nat) returns (rc: int)
      requires Valid()
      modifies this
      ensures Valid() && old(Padded()) <= Padded() && OnlyMemory(old(Padded()), Padded())
      ensures rc == 0 ==> var off := PageUp(old(pos));
                          pos == off + PageUp(length) && Holds(Padded(), off, Memory(mem, base, length), NoFault(host))
      ensures Pages(host, Progress(old(calls), PageUp(old(pos)), |old(data)|), PageUp(length)) ==
              if rc == 0 then Some(Now()) else None
    {
      hide Holds, Memory, Sane, NoFault, PageUp, Pages;
      var off := PageUp(pos);
      pos := off; // lseek
      MoreHoles(data, old(pos) - |data|, off - old(pos));
      ghost var before := Padded();
      rc := WritePages(mem, base, PageUp(length));
      MemoryAfter(old(Padded()), before, Padded());
      if rc == 0 {
        HoldsFewer(Padded(), off, mem, base, length, PageUp(length), NoFault(host));
      }
    }

    method WritePages(mem: int -> int, base: int, size: nat) returns (rc: int)
      requires Valid()
      modifies this
      ensures Valid() && old(Padded()) <= Padded() && OnlyMemory(old(Padded()), Padded())
      ensures rc == 0 ==> pos == old(pos) + size && Holds(Padded(), old(pos), Memory(mem, base, size), NoFault(host))
      ensures Pages(host, old(Now()), size) == if rc == 0 then Some(Now()) else None
    {
      hide Holds, Memory, NoFault, Job;
      ghost var off := pos;
      var current, remain := base, size;
      NothingHolds(Padded(), Memory(mem, base, 0), NoFault(host));
      while remain > 0
        invariant 0 <= remain <= size && current == base + (size - remain) && pos == off + (size - remain) && Valid()
        invariant old(Padded()) <= Padded() && OnlyMemory(old(Padded()), Padded())
        invariant Holds(Padded(), off, Memory(mem, base, size - remain), NoFault(host))
        invariant Pages(host, old(Now()), size) == Pages(host, Now(), remain)
      {
        var wsz := if remain < MIB then remain else MIB;
        ghost var before, done := Padded(), size - remain;
        rc := WriteMem(Memory(mem, current, wsz), true);
        MemoryOnly(old(Padded()), before, Padded(), mem, current, wsz);
        if rc != 0 {
          return;
        }
        HoldsGrown(before, Padded(), off, Memory(mem, base, done), NoFault(host));
        HoldsJoin(Padded(), off, Memory(mem, base, done), Memory(mem, current, wsz), NoFault(host));
        MemoryJoin(mem, base, done, wsz);
        current := current + wsz;
        remain := remain - wsz;
      }
      rc := 0;
    }
  }

  lemma NothingNew(a: Data, cells: Data)
    ensures OnlyNew(a, a, cells)
  {
  }

  lemma NewJoin(a: Data, b: Data, c: Data, cells: Data, cur: nat)
    requires a <= b <= c && cur <= |cells| && OnlyNew(a, b, cells) && OnlyNew(b, c, cells[cur..])
    ensures OnlyNew(a, c, cells)
  {
  }

  lemma MemoryAfter(a: Data, b: Data, c: Data)
    requires a <= b <= c && OnlyMemory(b, c) && b == a + Holes(|b| - |a|)
    ensures OnlyMemory(a, c)
  {
  }

  lemma NothingHolds(data: Data, none: Data, full: bool)
    requires none == []
    ensures Holds(data, |data|, none, full)
  {
  }

  lemma HoldsFewer(data: Data, at: int, mem: int -> int, base: int, a: nat, b: nat, full: bool)
    requires Holds(data, at, Memory(mem, base, b), full) && a <= b
    ensures Holds(data, at, Memory(mem, base, a), full)
  {
    assert Memory(mem, base, a) == Memory(mem, base, b)[..a];
  }

  /** The bytes of guest memory. */
  function Memory(mem: int -> int, base: int, n: nat): (r: Data)
    ensures |r| == n
  {
    seq(n, k => MemByte(mem(base + k)))
  }

  lemma MemoryJoin(mem: int -> int, base: int, a: nat, b: nat)
    ensures Memory(mem, base, a) + Memory(mem, base + a, b) == Memory(mem, base, a + b)
  {
  }
}
