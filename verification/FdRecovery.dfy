/** Snapshot recovery of regular files and of their sharing (km/km_filesys.c).

    The dup groups are read back first. Then the saved files are recovered in ascending order
    into a table where descriptors 0, 1 and 2 are already open, inherited by the new process.
 */
module FdRecovery {
  import opened Sequences
  import opened DupGroups
  import opened FdState

  /** Saved file record; `pos` is the file offset. */
  datatype Note = Note(fd: int, how: How, flags: int, name: string, pos: int)

  /** A standard stream saved under its terminal name is inherited, not recovered. */
  predicate Inherited(fd: int, name: string) {
    (fd == 0 && name == "[stdin]") || (fd == 1 && name == "[stdout]") || (fd == 2 && name == "[stderr]")
  }

  /** The other members of the group of `fd`, in order. */
  function Others(gs: Groups, fd: int): seq<int> {
    var k := GroupOf(gs, fd);
    if k == |gs| then [] else Except(gs[k], fd)
  }

  function Except(g: seq<int>, x: int): seq<int> {
    if g == [] then [] else if g[0] == x then Except(g[1..], x) else [g[0]] + Except(g[1..], x)
  }

  /** First member of `g` that is in use, or -1. */
  function FirstInUse(s: State, g: seq<int>): int {
    if g == [] then -1 else if s.InUse(g[0]) then g[0] else FirstInUse(s, g[1..])
  }

  /** `flags & O_CLOEXEC` */
  function CloseOnExec(flags: int): int {
    if flags / O_CLOEXEC % 2 == 1 then O_CLOEXEC else 0
  }

  // km_fs_recover_open_file for a regular file, when the host's calls succeed. A descriptor whose
  // group has an open member becomes a dup of it (km_fs_dup3 in recovery mode); otherwise the file is
  // opened afresh. The offset ends up in the partner field, as in the source.
  function RecoverFile(s: State, note: Note): State
    requires 0 <= note.fd < |s.fs| && (forall fd :: 0 <= fd < |s.fs| && s.fs[fd].inuse ==> fd in s.desc)
  {
    if Inherited(note.fd, note.name) then s
    else
      var m := FirstInUse(s, Others(s.gs, note.fd));
      if m >= 0 then
        FirstInUseIs(s, Others(s.gs, note.fd));
        OthersMembers(s.gs, note.fd);
        DuppedOnto(s, m, note.fd, CloseOnExec(note.flags), true)
      else
        s.(fs := s.fs[note.fd := File(true, note.how, note.flags, s.fs[note.fd].error, note.pos, note.name,
                                      s.fs[note.fd].isSocket)],
           desc := s.desc[note.fd := s.next], next := s.next + 1)
  }

  function NoteOf(saved: State, fd: int, pos: int -> int): Note
    requires 0 <= fd < |saved.fs|
  {
    Note(fd, saved.fs[fd].how, saved.fs[fd].flags, saved.fs[fd].name, pos(fd))
  }

  // ---- lists of other members -----------------------------------------------------------------

  lemma {:induction false} ExceptMembers(g: seq<int>, x: int)
    ensures forall a :: a in Except(g, x) <==> a in g && a != x
  {
    if g != [] {
      ExceptMembers(g[1..], x);
      assert g == [g[0]] + g[1..];
    }
  }

  lemma OthersMembers(gs: Groups, fd: int)
    ensures forall a :: a in Others(gs, fd) ==> a != fd && Grouped(gs, a)
  {
    var k := GroupOf(gs, fd);
    if k < |gs| {
      ExceptMembers(gs[k], fd);
    }
  }

  lemma {:induction false} FirstInUseIs(s: State, g: seq<int>)
    ensures FirstInUse(s, g) == -1 ==> forall a :: a in g ==> !s.InUse(a)
    ensures FirstInUse(s, g) != -1 ==> FirstInUse(s, g) in g && s.InUse(FirstInUse(s, g))
  {
    if g != [] {
      FirstInUseIs(s, g[1..]);
      assert g == [g[0]] + g[1..];
    }
  }

  lemma {:induction false} ExceptSwap(g: seq<int>, x: int, y: int)
    ensures Except(Except(g, x), y) == Except(Except(g, y), x)
  {
    if g != [] {
      ExceptSwap(g[1..], x, y);
    }
  }

  lemma {:induction false} ExceptAbsent(g: seq<int>, x: int)
    requires x !in g
    ensures Except(g, x) == g
  {
    if g != [] {
      ExceptAbsent(g[1..], x);
    }
  }

  lemma {:induction false} ExceptOne(g: seq<int>, x: int)
    requires Distinct(g) && x in g
    ensures Without(g, Place(g, x)) == Except(g, x)
  {
    if g[0] == x {
      assert x !in g[1..];
      ExceptAbsent(g[1..], x);
    } else {
      ExceptOne(g[1..], x);
      assert Without(g, Place(g, x)) == [g[0]] + Without(g[1..], Place(g[1..], x));
    }
  }

  lemma ExceptHead(a: int, g: seq<int>, x: int)
    ensures Except([a] + g, x) == if a == x then Except(g, x) else [a] + Except(g, x)
  {
    assert ([a] + g)[1..] == g;
  }

  lemma ExceptSingle(a: int, x: int)
    ensures Except([a], x) == if a == x then [] else [a]
  {
    ExceptHead(a, [], x);
    assert [a] + [] == [a];
  }

  lemma PairExcept(g: seq<int>, f: int, x: int)
    requires |g| == 2 && f in g && x in g && f != x
    ensures Except(Except(g, f), x) == []
  {
    assert g == [g[0]] + [g[1]];
    ExceptHead(g[0], [g[1]], f);
    ExceptSingle(g[1], f);
    ExceptSingle(x, x);
    hide Except;
    if g[0] == f {
      assert g[1] == x;
    } else {
      assert g[0] == x && g[1] == f;
      assert [x] + [] == [x];
    }
  }

  lemma OthersAt(gs: Groups, f: int, k: int)
    requires WellFormed(gs) && 0 <= k < |gs| && f in gs[k]
    ensures Others(gs, f) == Except(gs[k], f)
  {
    TogetherUnique(gs, f, k);
  }

  lemma NoOthers(gs: Groups, f: int)
    requires !Grouped(gs, f)
    ensures Others(gs, f) == []
  {
  }

  lemma OthersKept(gs: Groups, x: int, f: int)
    requires WellFormed(gs) && !Together(gs, f, x)
    ensures Except(Others(gs, f), x) == Others(gs, f)
  {
    var l := GroupOf(gs, f);
    if l < |gs| {
      ExceptMembers(gs[l], f);
      assert x !in gs[l];
    }
    ExceptAbsent(Others(gs, f), x);
  }

  lemma OthersShrunk(gs: Groups, k: nat, x: int, f: int)
    requires WellFormed(gs) && x != f && k < |gs| && x in gs[k] && |gs[k]| > 2
    ensures Others(gs[k := Except(gs[k], x)], f) == Except(Others(gs, f), x)
  {
    var hs, l := gs[k := Except(gs[k], x)], GroupOf(gs, f);
    WithoutMembers(gs[k], x);
    ExceptOne(gs[k], x);
    ShrunkGroup(gs, k, Except(gs[k], x));
    hide WellFormed, Distinct, Others;
    if l == k {
      assert f in hs[k];
      OthersAt(hs, f, k);
      OthersAt(gs, f, k);
      ExceptSwap(gs[k], x, f);
    } else {
      TogetherUnique(gs, x, k);
      assert !Together(gs, f, x) by {
        if Together(gs, f, x) {
          var m :| 0 <= m < |gs| && f in gs[m] && x in gs[m];
          TogetherUnique(gs, f, m);
          TogetherUnique(gs, x, m);
        }
      }
      OthersKept(gs, x, f);
      if l < |gs| {
        OthersAt(hs, f, l);
        OthersAt(gs, f, l);
      } else {
        NoOthers(gs, f);
        assert !Grouped(hs, f);
        NoOthers(hs, f);
      }
    }
  }

  lemma OthersDropped(gs: Groups, k: nat, x: int, f: int)
    requires WellFormed(gs) && x != f && k < |gs| && x in gs[k] && |gs[k]| == 2
    ensures Others(Without(gs, k), f) == Except(Others(gs, f), x)
  {
    var hs, l := Without(gs, k), GroupOf(gs, f);
    DroppedGroup(gs, k);
    if l == k {
      OthersAt(gs, f, k);
      NoOthers(hs, f);
      PairExcept(gs[k], f, x);
    } else {
      assert !Together(gs, f, x) by {
        TogetherUnique(gs, x, k);
        if Together(gs, f, x) {
          var m :| 0 <= m < |gs| && f in gs[m] && x in gs[m];
          TogetherUnique(gs, f, m);
          TogetherUnique(gs, x, m);
        }
      }
      OthersKept(gs, x, f);
      if l < |gs| {
        OthersAt(hs, f, if l < k then l else l - 1);
        OthersAt(gs, f, l);
      } else {
        NoOthers(gs, f);
        NoOthers(hs, f);
      }
    }
  }

  /** When x leaves its group, the others of every other descriptor lose x and keep their order. */
  lemma OthersLeft(gs: Groups, x: int, f: int)
    requires WellFormed(gs) && x != f
    ensures Others(Left(gs, x), f) == Except(Others(gs, f), x)
  {
    var k := GroupOf(gs, x);
    hide Others, Except;
    if k == |gs| {
      OthersKept(gs, x, f);
    } else if |gs[k]| > 2 {
      ExceptOne(gs[k], x);
      OthersShrunk(gs, k, x, f);
    } else {
      OthersDropped(gs, k, x, f);
    }
  }

  // ---- one file --------------------------------------------------------------------------------

  /** Becoming a dup of an open group member: only the descriptor itself changes, and if it was open
      it leaves its group. */
  lemma AttachEffect(s: State, note: Note)
    requires 0 <= note.fd < |s.fs| && Hosted(s) && (s.InUse(note.fd) ==> s.fs[note.fd].ofd == -1)
    requires !Inherited(note.fd, note.name) && FirstInUse(s, Others(s.gs, note.fd)) >= 0
    ensures var t, m := RecoverFile(s, note), FirstInUse(s, Others(s.gs, note.fd));
            s.InUse(m) && m in Others(s.gs, note.fd) && m != note.fd && t.desc == s.desc[note.fd := s.desc[m]] &&
            t.next == s.next &&
            |t.fs| == |s.fs| && t.fs[note.fd].inuse &&
            (forall x :: 0 <= x < |s.fs| && x != note.fd ==> t.fs[x] == s.fs[x]) &&
            (forall x :: t.InUse(x) <==> s.InUse(x) || x == note.fd) &&
            t.gs == (if s.InUse(note.fd) then Left(s.gs, note.fd) else s.gs) &&
            t.fs[note.fd].ofd == -1 && t.fs[note.fd].name == s.fs[m].name &&
            t.fs[note.fd].flags == CloseOnExec(note.flags)
  {
    FirstInUseIs(s, Others(s.gs, note.fd));
    OthersMembers(s.gs, note.fd);
    hide Others, Left, FirstInUse, Grouped, Inherited;
  }

  lemma OpenEffect(s: State, note: Note)
    requires 0 <= note.fd < |s.fs| && Hosted(s)
    requires !Inherited(note.fd, note.name) && FirstInUse(s, Others(s.gs, note.fd)) < 0
    ensures var t := RecoverFile(s, note);
            t.desc == s.desc[note.fd := s.next] && t.next == s.next + 1 && t.gs == s.gs &&
            |t.fs| == |s.fs| && t.fs[note.fd].inuse &&
            (forall x :: 0 <= x < |s.fs| && x != note.fd ==> t.fs[x] == s.fs[x]) &&
            (forall x :: t.InUse(x) <==> s.InUse(x) || x == note.fd) &&
            t.fs[note.fd].ofd == note.pos && t.fs[note.fd].how == note.how && t.fs[note.fd].flags == note.flags &&
            t.fs[note.fd].name == note.name
  {
    hide Others, FirstInUse, Inherited;
  }

  lemma RecoverFileHosted(s: State, note: Note)
    requires 0 <= note.fd < |s.fs| && Hosted(s)
    ensures Hosted(RecoverFile(s, note)) && |RecoverFile(s, note).fs| == |s.fs|
  {
    FirstInUseIs(s, Others(s.gs, note.fd));
    OthersMembers(s.gs, note.fd);
    hide Others, Left, FirstInUse, Grouped, Inherited;
  }

  // ---- descriptors 0, 1 and 2 -------------------------------------------------------------------

  /** The saved descriptor is one the new process inherits. */
  predicate Skip(saved: State, x: int) {
    saved.InUse(x) && Inherited(x, saved.fs[x].name)
  }

  /** First member of `g`, the others of `f`, that is open when `f` is recovered: an inherited
      stream, or a standard descriptor that is still to be recovered. */
  function Candidate(saved: State, f: int, g: seq<int>): int {
    if g == [] then -1
    else if 0 <= g[0] < 3 && (Skip(saved, g[0]) || f < g[0]) then g[0]
    else Candidate(saved, f, g[1..])
  }

  function Cand(saved: State, f: int): int {
    Candidate(saved, f, Others(saved.gs, f))
  }

  /** Standard descriptors that become a dup, and thereby leave their group. */
  predicate Attached(saved: State, x: int) {
    0 <= x < 3 && saved.InUse(x) && !Skip(saved, x) && Cand(saved, x) >= 0
  }

  /** `g` without the attached descriptors below `i`. */
  function Strip(saved: State, g: seq<int>, i: nat): seq<int> {
    if i == 0 then g
    else
      var h := Strip(saved, g, i - 1);
      if Attached(saved, i - 1) then Except(h, i - 1) else h
  }

  lemma {:induction false} StripCons(saved: State, a: int, g: seq<int>, i: nat)
    ensures Strip(saved, [a] + g, i) ==
            if 0 <= a < i && Attached(saved, a) then Strip(saved, g, i) else [a] + Strip(saved, g, i)
    ensures Strip(saved, [], i) == []
  {
    if i > 0 {
      StripCons(saved, a, g, i - 1);
      var h := Strip(saved, g, i - 1);
      assert ([a] + h)[1..] == h;
    }
  }

  lemma {:induction false} CandidateIs(saved: State, f: int, g: seq<int>)
    ensures Candidate(saved, f, g) == -1 ==> forall a :: a in g && 0 <= a < 3 ==> !Skip(saved, a) && a <= f
    ensures Candidate(saved, f, g) != -1 ==>
              var m := Candidate(saved, f, g); m in g && 0 <= m < 3 && (Skip(saved, m) || f < m)
  {
    if g != [] {
      CandidateIs(saved, f, g[1..]);
      assert g == [g[0]] + g[1..];
    }
  }

  /** Two members of one group list each other. */
  lemma OthersSymmetric(gs: Groups, a: int, b: int)
    requires WellFormed(gs)
    ensures b in Others(gs, a) <==> a != b && Together(gs, a, b)
  {
    var k := GroupOf(gs, a);
    if k < |gs| {
      TogetherUnique(gs, a, k);
      ExceptMembers(gs[k], a);
    }
  }

  /** Below i, a member of the group of i is either inherited or attached. */
  lemma EarlierAttached(saved: State, i: int, a: int)
    requires WellFormed(saved.gs) && 0 <= a < i < 3 && saved.InUse(a) && a in Others(saved.gs, i)
    ensures Skip(saved, a) || Attached(saved, a)
  {
    OthersSymmetric(saved.gs, i, a);
    OthersSymmetric(saved.gs, a, i);
    CandidateIs(saved, a, Others(saved.gs, a));
  }

  /** The open member found when i is recovered is the candidate. */
  lemma {:induction false} FoundIsCandidate(saved: State, r: State, i: int, g: seq<int>)
    requires 0 <= i < 3 && |r.fs| >= 3 && forall fd :: r.InUse(fd) <==> 0 <= fd < 3
    requires forall a :: a in g ==> a != i
    requires forall a :: a in g && 0 <= a < i ==> Skip(saved, a) || Attached(saved, a)
    ensures FirstInUse(r, Strip(saved, g, i)) == Candidate(saved, i, g)
  {
    if g == [] {
      StripCons(saved, 0, [], i);
    } else {
      assert g == [g[0]] + g[1..];
      StripCons(saved, g[0], g[1..], i);
      assert forall a :: a in g[1..] ==> a in g;
      FoundIsCandidate(saved, r, i, g[1..]);
      assert ([g[0]] + Strip(saved, g[1..], i))[1..] == Strip(saved, g[1..], i);
    }
  }

  /** The recovering process before the first file: the saved groups, and three inherited streams. */
  ghost predicate Start(saved: State, r0: State) {
    && |r0.fs| == |saved.fs| >= 3 && r0.gs == saved.gs && Hosted(r0)
    && (forall fd :: r0.InUse(fd) <==> 0 <= fd < 3)
    && (forall fd :: 0 <= fd < 3 ==> r0.fs[fd].ofd == -1)
  }

  /** The state after the saved descriptors below `i` have been recovered. */
  ghost function Recover(saved: State, r0: State, pos: int -> int, i: nat): (r: State)
    requires Hosted(r0) && i <= |saved.fs| == |r0.fs|
    ensures Hosted(r) && |r.fs| == |r0.fs|
  {
    if i == 0 then r0
    else
      RecoverOne(saved, Recover(saved, r0, pos, i - 1), pos, i - 1)
  }

  /** Description of x once it has been recovered, for the attached and the inherited. */
  ghost predicate StdDesc(saved: State, r0: State, r: State, x: int)
    requires 0 <= x < 3 && |r0.fs| >= 3 && 0 in r0.desc && 1 in r0.desc && 2 in r0.desc && x in r.desc
  {
    if !saved.InUse(x) || Skip(saved, x) then r.desc[x] == r0.desc[x]
    else if Attached(saved, x) then Cand(saved, x) < 3 && r.desc[x] == r0.desc[Cand(saved, x)]
    else r0.next <= r.desc[x] < r.next
  }

  /** Table and descriptions after the first i of the descriptors 0, 1 and 2. */
  ghost predicate StdFiles(saved: State, r0: State, r: State, i: nat)
    requires Start(saved, r0) && i <= 3
  {
    && |r.fs| == |r0.fs| && Hosted(r) && r0.next <= r.next
    && (forall fd :: r.InUse(fd) <==> 0 <= fd < 3)
    && (forall x :: i <= x < 3 ==> r.fs[x].ofd == -1 && r.desc[x] == r0.desc[x])
    && (forall x :: 0 <= x < i ==> StdDesc(saved, r0, r, x))
    && (forall x, y :: 0 <= x < y < i && r0.next <= r.desc[x] ==> r.desc[x] != r.desc[y])
  }

  /** Dup groups after the first i of them: the attached have left, order is kept. */
  predicate StdGroups(saved: State, gs: Groups, i: nat) {
    && WellFormed(gs)
    && (forall x :: 0 <= x < i && Attached(saved, x) ==> !Grouped(gs, x))
  }

  ghost predicate StdOthers(saved: State, gs: Groups, i: nat) {
    forall f :: !(0 <= f < i && Attached(saved, f)) ==> Others(gs, f) == Strip(saved, Others(saved.gs, f), i)
  }

  lemma StdSkip(saved: State, r0: State, r: State, i: nat)
    requires Start(saved, r0) && i < 3 && StdFiles(saved, r0, r, i) && (!saved.InUse(i) || Skip(saved, i))
    ensures StdFiles(saved, r0, r, i + 1)
  {
    assert StdDesc(saved, r0, r, i);
    hide Attached, Cand, Skip;
  }

  lemma StdGroupsStay(saved: State, gs: Groups, i: nat)
    requires !Attached(saved, i) && StdGroups(saved, gs, i) && StdOthers(saved, gs, i)
    ensures StdGroups(saved, gs, i + 1) && StdOthers(saved, gs, i + 1)
  {
    hide Attached, Others, WellFormed, Grouped;
    forall f | !(0 <= f < i + 1 && Attached(saved, f))
      ensures Others(gs, f) == Strip(saved, Others(saved.gs, f), i + 1)
    {
      assert Strip(saved, Others(saved.gs, f), i + 1) == Strip(saved, Others(saved.gs, f), i);
    }
    hide Strip;
  }

  lemma StdGroupsLeave(saved: State, gs: Groups, i: nat)
    requires Attached(saved, i) && StdGroups(saved, gs, i) && StdOthers(saved, gs, i)
    ensures StdGroups(saved, Left(gs, i), i + 1) && StdOthers(saved, Left(gs, i), i + 1)
  {
    LeftWellFormed(gs, i);
    forall f | !(0 <= f < i + 1 && Attached(saved, f))
      ensures Others(Left(gs, i), f) == Strip(saved, Others(saved.gs, f), i + 1)
    {
      OthersLeft(gs, i, f);
    }
    hide Attached, Others, Strip, WellFormed, Grouped, Left;
  }

  lemma StdFound(saved: State, r0: State, r: State, i: nat)
    requires Start(saved, r0) && GroupsOk(saved) && i < 3 && saved.InUse(i)
    requires StdFiles(saved, r0, r, i) && StdOthers(saved, r.gs, i)
    ensures FirstInUse(r, Others(r.gs, i)) == Cand(saved, i)
  {
    var g := Others(saved.gs, i);
    OthersMembers(saved.gs, i);
    forall a | a in g && 0 <= a < i
      ensures Skip(saved, a) || Attached(saved, a)
    {
      EarlierAttached(saved, i, a);
    }
    FoundIsCandidate(saved, r, i, g);
  }

  lemma StdFilesStep(saved: State, r0: State, r: State, r': State, i: nat)
    requires Start(saved, r0) && i < 3 && StdFiles(saved, r0, r, i)
    requires Hosted(r') && |r'.fs| == |r.fs| && r.next <= r'.next && i in r'.desc && r'.desc == r.desc[i := r'.desc[i]]
    requires forall x :: r'.InUse(x) <==> r.InUse(x) || x == i
    requires forall x :: 0 <= x < |r.fs| && x != i ==> r'.fs[x] == r.fs[x]
    requires StdDesc(saved, r0, r', i) && (r'.desc[i] < r0.next || r.next <= r'.desc[i])
    ensures StdFiles(saved, r0, r', i + 1)
  {
    hide Attached, Cand, Skip;
    forall x | 0 <= x < i
      ensures StdDesc(saved, r0, r', x)
    {
      assert StdDesc(saved, r0, r, x) && r'.desc[x] == r.desc[x];
    }
    forall x, y | 0 <= x < y < i + 1 && r0.next <= r'.desc[x]
      ensures r'.desc[x] != r'.desc[y]
    {
      assert r'.desc[x] == r.desc[x] < r.next;
      assert y < i ==> r'.desc[y] == r.desc[y];
    }
  }

  lemma StdAttach(saved: State, r0: State, r: State, i: nat, note: Note)
    requires Start(saved, r0) && GroupsOk(saved) && i < 3 && Attached(saved, i)
    requires StdFiles(saved, r0, r, i) && StdOthers(saved, r.gs, i)
    requires note.fd == i && note.name == saved.fs[i].name
    ensures StdFiles(saved, r0, RecoverFile(r, note), i + 1) && RecoverFile(r, note).gs == Left(r.gs, i)
  {
    var r' := RecoverFile(r, note);
    var m := Cand(saved, i);
    StdFound(saved, r0, r, i);
    AttachEffect(r, note);
    CandidateIs(saved, i, Others(saved.gs, i));
    RecoverFileHosted(r, note);
    assert r.desc[m] == r0.desc[m] by {
      if m < i {
        assert StdDesc(saved, r0, r, m);
      }
    }
    assert r0.desc[m] < r0.next;
    hide RecoverFile, Others, Cand, Left, Inherited, FirstInUse, GroupsOk, StdFiles, StdOthers;
    StdFilesStep(saved, r0, r, r', i);
  }

  lemma StdOpen(saved: State, r0: State, r: State, i: nat, note: Note)
    requires Start(saved, r0) && GroupsOk(saved) && i < 3 && saved.InUse(i) && !Skip(saved, i) && !Attached(saved, i)
    requires StdFiles(saved, r0, r, i) && StdOthers(saved, r.gs, i)
    requires note.fd == i && note.name == saved.fs[i].name
    ensures StdFiles(saved, r0, RecoverFile(r, note), i + 1) && RecoverFile(r, note).gs == r.gs
  {
    var r' := RecoverFile(r, note);
    StdFound(saved, r0, r, i);
    CandidateIs(saved, i, Others(saved.gs, i));
    OpenEffect(r, note);
    RecoverFileHosted(r, note);
    hide RecoverFile, Others, Cand, Inherited, FirstInUse, GroupsOk, StdOthers;
    StdFilesStep(saved, r0, r, r', i);
  }

  /** What recovering one saved descriptor does to the table. */
  ghost function RecoverOne(saved: State, r: State, pos: int -> int, i: nat): (r': State)
    requires Hosted(r) && i < |saved.fs| == |r.fs|
    ensures Hosted(r') && |r'.fs| == |r.fs|
  {
    RecoverFileHosted(r, NoteOf(saved, i, pos));
    if saved.InUse(i) then RecoverFile(r, NoteOf(saved, i, pos)) else r
  }

  lemma StdStep(saved: State, r0: State, r: State, pos: int -> int, i: nat)
    requires Start(saved, r0) && GroupsOk(saved) && i < 3
    requires StdFiles(saved, r0, r, i) && StdGroups(saved, r.gs, i) && StdOthers(saved, r.gs, i)
    ensures var r' := RecoverOne(saved, r, pos, i);
            StdFiles(saved, r0, r', i + 1) && StdGroups(saved, r'.gs, i + 1) && StdOthers(saved, r'.gs, i + 1)
  {
    var r' := RecoverOne(saved, r, pos, i);
    hide StdFiles, StdGroups, StdOthers, Cand, GroupsOk, Left;
    if !saved.InUse(i) || Skip(saved, i) {
      assert r' == r;
      StdSkip(saved, r0, r, i);
      StdGroupsStay(saved, r.gs, i);
    } else if Attached(saved, i) {
      hide RecoverFile;
      StdAttach(saved, r0, r, i, NoteOf(saved, i, pos));
      StdGroupsLeave(saved, r.gs, i);
    } else {
      hide RecoverFile;
      StdOpen(saved, r0, r, i, NoteOf(saved, i, pos));
      StdGroupsStay(saved, r.gs, i);
    }
  }

  lemma {:induction false} StdRun(saved: State, r0: State, pos: int -> int, i: nat)
    requires Start(saved, r0) && GroupsOk(saved) && i <= 3
    ensures var r := Recover(saved, r0, pos, i);
            StdFiles(saved, r0, r, i) && StdGroups(saved, r.gs, i) && StdOthers(saved, r.gs, i)
  {
    hide RecoverOne, Attached;
    if i > 0 {
      hide GroupsOk;
      StdRun(saved, r0, pos, i - 1);
      StdStep(saved, r0, Recover(saved, r0, pos, i - 1), pos, i - 1);
      hide StdFiles, StdGroups, StdOthers;
    }
  }

  // ---- the other descriptors --------------------------------------------------------------------

  /** Saved, and not one of the standard descriptors that left its group. */
  predicate Kept(saved: State, x: int) {
    saved.InUse(x) && !Attached(saved, x)
  }

  /** Groups and sharing agree on the descriptors recovered so far that kept their group. */
  ghost predicate KeptAgree(saved: State, hs: Groups, r: State, i: nat)
    requires Hosted(r)
  {
    forall a, b :: Kept(saved, a) && Kept(saved, b) && r.InUse(a) && r.InUse(b) && a < i && b < i && a != b ==>
      (Together(hs, a, b) <==> r.desc[a] == r.desc[b])
  }

  /** After the saved descriptors below i, i >= 3, starting from r3. */
  ghost predicate RestFiles(saved: State, r3: State, r: State, i: nat) {
    && Hosted(r) && |r.fs| == |r3.fs| && r.gs == r3.gs
    && (forall fd :: r.InUse(fd) <==> (0 <= fd < 3 || (fd < i && saved.InUse(fd))))
    && (forall x :: 0 <= x < 3 ==> x in r.desc && x in r3.desc && r.desc[x] == r3.desc[x])
  }

  lemma {:induction false} StripMembers(saved: State, g: seq<int>, i: nat)
    ensures forall a :: a in Strip(saved, g, i) <==> a in g && !(0 <= a < i && Attached(saved, a))
  {
    if i > 0 {
      StripMembers(saved, g, i - 1);
      ExceptMembers(Strip(saved, g, i - 1), i - 1);
    }
  }

  /** The descriptors that kept their group are grouped as they were saved. */
  lemma KeptTogether(saved: State, gs: Groups, a: int, b: int)
    requires WellFormed(saved.gs) && WellFormed(gs) && StdOthers(saved, gs, 3)
    requires Kept(saved, a) && Kept(saved, b) && a != b
    ensures Together(gs, a, b) <==> Together(saved.gs, a, b)
  {
    OthersSymmetric(gs, a, b);
    OthersSymmetric(saved.gs, a, b);
    StripMembers(saved, Others(saved.gs, a), 3);
    hide Together, Others, Attached, Strip;
  }

  /** A group holds at most one inherited stream: its members were saved under one name. */
  lemma OneInherited(saved: State, a: int, b: int)
    requires GroupsOk(saved) && Skip(saved, a) && Skip(saved, b) && a != b
    ensures !Together(saved.gs, a, b)
  {
  }

  /** Two standard descriptors of one group cannot both keep it. */
  lemma KeptStdApart(saved: State, a: int, b: int)
    requires GroupsOk(saved) && 0 <= a < b < 3 && Kept(saved, a) && Kept(saved, b)
    ensures !Together(saved.gs, a, b)
  {
    if Together(saved.gs, a, b) {
      OthersSymmetric(saved.gs, a, b);
      OthersSymmetric(saved.gs, b, a);
      assert b in Others(saved.gs, a) && a in Others(saved.gs, b);
      CandidateIs(saved, a, Others(saved.gs, a));
      CandidateIs(saved, b, Others(saved.gs, b));
      hide Candidate, Others, GroupsOk, Together;
      if Skip(saved, a) && Skip(saved, b) {
        OneInherited(saved, a, b);
      }
    }
  }

  /** The streams saved as inherited are inherited on different descriptions. */
  ghost predicate InheritedApart(saved: State, r0: State)
    requires Start(saved, r0)
  {
    forall a, b :: 0 <= a < b < 3 && Skip(saved, a) && Skip(saved, b) ==> r0.desc[a] != r0.desc[b]
  }

  /** Then the standard descriptors that kept their group are on different descriptions. */
  lemma StdApart(saved: State, r0: State, r: State, a: int, b: int)
    requires Start(saved, r0) && InheritedApart(saved, r0) && StdFiles(saved, r0, r, 3) && 0 <= a < b < 3 &&
             Kept(saved, a) && Kept(saved, b)
    ensures r.desc[a] != r.desc[b]
  {
    assert StdDesc(saved, r0, r, a) && StdDesc(saved, r0, r, b);
    hide Attached, Skip;
  }

  lemma RestStart(saved: State, r0: State, r3: State)
    requires Start(saved, r0) && GroupsOk(saved)
    requires StdFiles(saved, r0, r3, 3) && StdGroups(saved, r3.gs, 3) && StdOthers(saved, r3.gs, 3)
    ensures RestFiles(saved, r3, r3, 3) && (InheritedApart(saved, r0) ==> KeptAgree(saved, r3.gs, r3, 3))
  {
    if !InheritedApart(saved, r0) {
      return;
    }
    forall a, b | Kept(saved, a) && Kept(saved, b) && r3.InUse(a) && r3.InUse(b) && a < 3 && b < 3 && a != b
      ensures !Together(r3.gs, a, b) && r3.desc[a] != r3.desc[b]
    {
      var x, y := if a < b then a else b, if a < b then b else a;
      KeptTogether(saved, r3.gs, a, b);
      KeptStdApart(saved, x, y);
      StdApart(saved, r0, r3, x, y);
      hide Attached, StdOthers, StdGroups, StdFiles;
    }
    hide Kept, StdOthers, StdGroups, Together, GroupsOk;
  }

  lemma TogetherVia(gs: Groups, a: int, m: int, b: int)
    requires WellFormed(gs) && Together(gs, a, m)
    ensures Together(gs, a, b) <==> Together(gs, m, b)
  {
    var k :| 0 <= k < |gs| && a in gs[k] && m in gs[k];
    TogetherUnique(gs, a, k);
    TogetherUnique(gs, m, k);
  }

  lemma TogetherSame(gs: Groups, a: int, b: int)
    ensures Together(gs, a, b) <==> Together(gs, b, a)
  {
  }

  /** Adding one descriptor to the agreement, given its description and its group. */
  lemma KeptAgreeStep(saved: State, hs: Groups, r: State, r': State, i: nat)
    requires Hosted(r) && Hosted(r') && KeptAgree(saved, hs, r, i) && i in r'.desc && r'.desc == r.desc[i := r'.desc[i]]
    requires forall x :: x < i ==> (r'.InUse(x) <==> r.InUse(x))
    requires forall b :: Kept(saved, b) && r.InUse(b) && b < i ==> (Together(hs, i, b) <==> r'.desc[i] == r.desc[b])
    ensures KeptAgree(saved, hs, r', i + 1)
  {
    hide Kept;
    forall a, b | Kept(saved, a) && Kept(saved, b) && r'.InUse(a) && r'.InUse(b) && a < i + 1 && b < i + 1 && a != b
      ensures Together(hs, a, b) <==> r'.desc[a] == r'.desc[b]
    {
      TogetherSame(hs, a, b);
      hide Together;
      if a < i && b < i {
        assert r.InUse(a) && r.InUse(b);
      }
    }
    hide Together;
  }

  lemma RestAttach(saved: State, r: State, i: nat, note: Note)
    requires 3 <= i < |r.fs| && Hosted(r) && !r.InUse(i) && note.fd == i && FirstInUse(r, Others(r.gs, i)) >= 0
    requires WellFormed(r.gs) && KeptAgree(saved, r.gs, r, i)
    requires forall x :: Grouped(r.gs, x) ==> Kept(saved, x)
    requires forall x :: r.InUse(x) ==> x < i
    ensures Hosted(RecoverFile(r, note)) && KeptAgree(saved, r.gs, RecoverFile(r, note), i + 1)
  {
    var r', m := RecoverFile(r, note), FirstInUse(r, Others(r.gs, i));
    AttachEffect(r, note);
    RecoverFileHosted(r, note);
    OthersMembers(r.gs, i);
    OthersSymmetric(r.gs, i, m);
    hide RecoverFile, FirstInUse, Others, Grouped, Kept;
    forall b | Kept(saved, b) && r.InUse(b) && b < i
      ensures Together(r.gs, i, b) <==> r'.desc[i] == r.desc[b]
    {
      TogetherVia(r.gs, i, m, b);
    }
    hide Together, KeptAgree, WellFormed;
    KeptAgreeStep(saved, r.gs, r, r', i);
  }

  lemma RestOpen(saved: State, r: State, i: nat, note: Note)
    requires 3 <= i < |r.fs| && Hosted(r) && !r.InUse(i) && note.fd == i && FirstInUse(r, Others(r.gs, i)) < 0
    requires WellFormed(r.gs) && KeptAgree(saved, r.gs, r, i)
    requires forall x :: r.InUse(x) ==> x < i
    ensures Hosted(RecoverFile(r, note)) && KeptAgree(saved, r.gs, RecoverFile(r, note), i + 1)
  {
    var r' := RecoverFile(r, note);
    OpenEffect(r, note);
    RecoverFileHosted(r, note);
    FirstInUseIs(r, Others(r.gs, i));
    hide RecoverFile, FirstInUse, Others, Kept;
    forall b | Kept(saved, b) && r.InUse(b) && b < i
      ensures Together(r.gs, i, b) <==> r'.desc[i] == r.desc[b]
    {
      OthersSymmetric(r.gs, i, b);
    }
    hide Together, KeptAgree, WellFormed;
    KeptAgreeStep(saved, r.gs, r, r', i);
  }

  lemma RestRecovered(saved: State, r3: State, r: State, i: nat, note: Note)
    requires 3 <= i < |r.fs| && RestFiles(saved, r3, r, i) && saved.InUse(i) && note.fd == i
    ensures RestFiles(saved, r3, RecoverFile(r, note), i + 1)
  {
    RecoverFileHosted(r, note);
    if FirstInUse(r, Others(r.gs, i)) >= 0 {
      AttachEffect(r, note);
    } else {
      OpenEffect(r, note);
    }
    hide RecoverFile, FirstInUse, Others;
  }

  lemma RestStep(saved: State, r3: State, r: State, pos: int -> int, i: nat)
    requires 3 <= i < |saved.fs| == |r3.fs| && RestFiles(saved, r3, r, i)
    requires WellFormed(r3.gs) && forall x :: Grouped(r3.gs, x) ==> Kept(saved, x)
    ensures var r' := RecoverOne(saved, r, pos, i);
            RestFiles(saved, r3, r', i + 1) && (KeptAgree(saved, r3.gs, r, i) ==> KeptAgree(saved, r3.gs, r', i + 1))
  {
    var note := NoteOf(saved, i, pos);
    if saved.InUse(i) {
      RestRecovered(saved, r3, r, i, note);
      assert !r.InUse(i) && forall x :: r.InUse(x) ==> x < i;
      hide RecoverFile, Others, KeptAgree, WellFormed, Grouped, Kept, FirstInUse;
      if !KeptAgree(saved, r3.gs, r, i) {
      } else if FirstInUse(r, Others(r.gs, i)) >= 0 {
        RestAttach(saved, r, i, note);
      } else {
        RestOpen(saved, r, i, note);
      }
    } else {
      hide Kept, Together, WellFormed, Grouped;
    }
  }

  lemma {:induction false} RestRun(saved: State, r0: State, pos: int -> int, i: nat)
    requires Start(saved, r0) && GroupsOk(saved) && 3 <= i <= |saved.fs|
    ensures var r3, r := Recover(saved, r0, pos, 3), Recover(saved, r0, pos, i);
            RestFiles(saved, r3, r, i) && (InheritedApart(saved, r0) ==> KeptAgree(saved, r3.gs, r, i))
  {
    StdRun(saved, r0, pos, 3);
    var r3 := Recover(saved, r0, pos, 3);
    if i == 3 {
      RestStart(saved, r0, r3);
    } else {
      RestRun(saved, r0, pos, i - 1);
      KeptGroups(saved, r3.gs);
      hide RestFiles, KeptAgree, Grouped, Kept, StdFiles, StdOthers, WellFormed, GroupsOk, RecoverOne;
      RestStep(saved, r3, Recover(saved, r0, pos, i - 1), pos, i - 1);
    }
  }

  /** Whoever is still grouped after the standard descriptors was saved and kept its group. */
  lemma KeptGroups(saved: State, gs: Groups)
    requires GroupsOk(saved) && StdGroups(saved, gs, 3) && StdOthers(saved, gs, 3)
    ensures forall x :: Grouped(gs, x) ==> Kept(saved, x)
  {
    forall x | Grouped(gs, x)
      ensures Kept(saved, x)
    {
      var k :| 0 <= k < |gs| && x in gs[k];
      assert !Attached(saved, x);
      var y := if gs[k][0] == x then gs[k][1] else gs[k][0];
      OthersSymmetric(gs, x, y);
      StripMembers(saved, Others(saved.gs, x), 3);
      OthersSymmetric(saved.gs, x, y);
    }
  }

  // ---- sharing after recovery -------------------------------------------------------------------

  /** Two saved descriptors share a description after recovery exactly when they did before. */
  ghost predicate SharingRestored(saved: State, r: State)
    requires Hosted(saved)
  {
    forall a, b :: saved.InUse(a) && saved.InUse(b) && a != b ==>
      a in r.desc && b in r.desc && (r.desc[a] == r.desc[b] <==> saved.desc[a] == saved.desc[b])
  }

  /** `s` is an inherited stream of the group of `f`, and what `f` becomes a dup of is the same file. */
  ghost predicate Lands(saved: State, r0: State, f: int, s: int)
    requires Start(saved, r0) && 0 <= s < 3
  {
    var c := Cand(saved, f);
    Skip(saved, s) && Together(saved.gs, f, s) && 0 <= c < 3 && r0.desc[c] == r0.desc[s]
  }

  /** Every standard descriptor recovered as a dup lands on an inherited stream of its group. */
  ghost predicate AllLand(saved: State, r0: State)
    requires Start(saved, r0)
  {
    forall f :: 0 <= f < 3 && Attached(saved, f) ==>
      Lands(saved, r0, f, 0) || Lands(saved, r0, f, 1) || Lands(saved, r0, f, 2)
  }

  /** What recovery makes of the saved descriptors, in one place. */
  ghost predicate Recovered(saved: State, r0: State, r: State)
    requires Start(saved, r0)
  {
    && Hosted(r) && (forall a :: saved.InUse(a) ==> r.InUse(a))
    && (forall x :: 0 <= x < 3 ==> x in r.desc && StdDesc(saved, r0, r, x))
    && (InheritedApart(saved, r0) ==> forall a, b :: Kept(saved, a) && Kept(saved, b) && a != b ==>
          (Together(saved.gs, a, b) <==> r.desc[a] == r.desc[b]))
  }

  lemma StdDescStays(saved: State, r0: State, r3: State, r: State, x: int)
    requires Start(saved, r0) && 0 <= x < 3 && x in r.desc && x in r3.desc && StdDesc(saved, r0, r3, x)
    requires r.desc[x] == r3.desc[x] < r.next
    ensures StdDesc(saved, r0, r, x)
  {
    hide Attached, Skip, Cand;
  }

  lemma KeptRecovered(saved: State, r3: State, r: State, a: int, b: int)
    requires GroupsOk(saved) && StdGroups(saved, r3.gs, 3) && StdOthers(saved, r3.gs, 3)
    requires RestFiles(saved, r3, r, |saved.fs|) && KeptAgree(saved, r3.gs, r, |saved.fs|)
    requires Kept(saved, a) && Kept(saved, b) && a != b
    ensures r.InUse(a) && r.InUse(b) && (Together(saved.gs, a, b) <==> r.desc[a] == r.desc[b])
  {
    KeptTogether(saved, r3.gs, a, b);
    hide StdOthers, StdGroups, GroupsOk, Attached, Together;
  }

  lemma IsRecovered(saved: State, r0: State, pos: int -> int)
    requires Start(saved, r0) && GroupsOk(saved)
    ensures Recovered(saved, r0, Recover(saved, r0, pos, |saved.fs|))
  {
    hide Recover, Attached, Together, StdOthers, StdGroups, GroupsOk, KeptAgree, Kept, StdDesc, InheritedApart;
    var r3, r := Recover(saved, r0, pos, 3), Recover(saved, r0, pos, |saved.fs|);
    StdRun(saved, r0, pos, 3);
    RestRun(saved, r0, pos, |saved.fs|);
    forall x | 0 <= x < 3
      ensures x in r.desc && StdDesc(saved, r0, r, x)
    {
      StdDescStays(saved, r0, r3, r, x);
    }
    forall a, b | InheritedApart(saved, r0) && Kept(saved, a) && Kept(saved, b) && a != b
      ensures r.InUse(a) && r.InUse(b) && (Together(saved.gs, a, b) <==> r.desc[a] == r.desc[b])
    {
      KeptRecovered(saved, r3, r, a, b);
    }
  }

  /** The candidate of an attached descriptor is an open member of its group, not itself. */
  lemma CandIs(saved: State, f: int)
    requires GroupsOk(saved) && Attached(saved, f)
    ensures var c := Cand(saved, f);
            0 <= c < 3 && c != f && saved.InUse(c) && Together(saved.gs, f, c) && (Skip(saved, c) || f < c)
  {
    CandidateIs(saved, f, Others(saved.gs, f));
    OthersSymmetric(saved.gs, f, Cand(saved, f));
    hide Candidate, Others, WellFormed;
  }

  /** A standard descriptor that lands on no inherited stream of its group loses one of its group. */
  lemma StaleDup(saved: State, r0: State, r: State, f: int) returns (b: int)
    requires Start(saved, r0) && GroupsOk(saved) && Recovered(saved, r0, r) && Attached(saved, f)
    requires !Lands(saved, r0, f, 0) && !Lands(saved, r0, f, 1) && !Lands(saved, r0, f, 2)
    ensures saved.InUse(b) && b != f && r.desc[f] != r.desc[b] && Together(saved.gs, f, b)
  {
    var c := Cand(saved, f);
    CandIs(saved, f);
    assert !Skip(saved, c);
    assert StdDesc(saved, r0, r, f) && StdDesc(saved, r0, r, c);
    b := c;
    if Attached(saved, c) {
      CandIs(saved, c);
      b := Cand(saved, c);
      TogetherVia(saved.gs, f, c, b);
      assert !Lands(saved, r0, f, b);
      assert StdDesc(saved, r0, r, b);
      if Attached(saved, b) {
        CandIs(saved, b);
      }
    }
    hide Cand, Together, Kept;
  }

  /** Two inherited streams on one description share it after recovery, but never before. */
  lemma InheritedTogether(saved: State, r0: State, r: State, a: int, b: int)
    requires Start(saved, r0) && GroupsOk(saved) && Recovered(saved, r0, r)
    requires 0 <= a < b < 3 && Skip(saved, a) && Skip(saved, b) && r0.desc[a] == r0.desc[b]
    ensures r.desc[a] == r.desc[b] && !Together(saved.gs, a, b)
  {
    assert StdDesc(saved, r0, r, a) && StdDesc(saved, r0, r, b);
    OneInherited(saved, a, b);
  }

  lemma AttachedPair(saved: State, r0: State, r: State, f: int, c: int, b: int, d: int)
    requires Start(saved, r0) && InheritedApart(saved, r0) && GroupsOk(saved) && Recovered(saved, r0, r)
    requires Attached(saved, f) && 0 <= c < 3 && Lands(saved, r0, f, c)
    requires saved.InUse(b) && b != f && (Attached(saved, b) ==> 0 <= d < 3 && Lands(saved, r0, b, d))
    ensures r.desc[f] == r.desc[b] <==> Together(saved.gs, f, b)
  {
    TogetherVia(saved.gs, f, c, b);
    assert StdDesc(saved, r0, r, f) && StdDesc(saved, r0, r, c);
    if Attached(saved, b) {
      assert StdDesc(saved, r0, r, b);
      TogetherSame(saved.gs, b, d);
      TogetherVia(saved.gs, b, d, c);
      TogetherSame(saved.gs, c, b);
      TogetherSame(saved.gs, c, d);
      if c != d {
        OneInherited(saved, c, d);
      }
    } else if b != c {
      assert Kept(saved, c) && Kept(saved, b);
    }
    hide Cand, Together, GroupsOk;
  }

  function WhereLands(l0: bool, l1: bool): int {
    if l0 then 0 else if l1 then 1 else 2
  }

  lemma PairRestored(saved: State, r0: State, r: State, a: int, b: int)
    requires Start(saved, r0) && GroupsOk(saved) && Recovered(saved, r0, r) && InheritedApart(saved, r0) &&
             AllLand(saved, r0)
    requires saved.InUse(a) && saved.InUse(b) && a != b
    ensures r.desc[a] == r.desc[b] <==> Together(saved.gs, a, b)
  {
    hide GroupsOk, Cand, Skip, Together, StdDesc, Lands;
    TogetherSame(saved.gs, a, b);
    var c := WhereLands(Lands(saved, r0, a, 0), Lands(saved, r0, a, 1));
    var d := WhereLands(Lands(saved, r0, b, 0), Lands(saved, r0, b, 1));
    if Attached(saved, a) {
      AttachedPair(saved, r0, r, a, c, b, d);
    } else if Attached(saved, b) {
      AttachedPair(saved, r0, r, b, d, a, c);
    }
  }

  /** Snapshot and recovery restore the sharing of descriptions exactly when the new process inherits
      different files for the streams saved as inherited, and every standard descriptor recovered as a
      dup lands on an inherited stream of its group. */
  lemma SharingSurvives(saved: State, r0: State, pos: int -> int)
    requires Start(saved, r0) && Hosted(saved) && GroupsOk(saved) && Agrees(saved)
    ensures SharingRestored(saved, Recover(saved, r0, pos, |saved.fs|)) <==>
            InheritedApart(saved, r0) && AllLand(saved, r0)
  {
    hide Recover, GroupsOk, Attached, Cand, Together, StdDesc, Lands;
    var r := Recover(saved, r0, pos, |saved.fs|);
    IsRecovered(saved, r0, pos);
    if !InheritedApart(saved, r0) {
      var a, b :| 0 <= a < b < 3 && Skip(saved, a) && Skip(saved, b) && r0.desc[a] == r0.desc[b];
      InheritedTogether(saved, r0, r, a, b);
    } else if AllLand(saved, r0) {
      hide Skip;
      forall a, b | saved.InUse(a) && saved.InUse(b) && a != b
        ensures r.desc[a] == r.desc[b] <==> saved.desc[a] == saved.desc[b]
      {
        PairRestored(saved, r0, r, a, b);
      }
    } else {
      hide Skip;
      var f :| 0 <= f < 3 && Attached(saved, f) &&
        !(Lands(saved, r0, f, 0) || Lands(saved, r0, f, 1) || Lands(saved, r0, f, 2));
      var b := StaleDup(saved, r0, r, f);
      AttachedInUse(saved, f);
    }
  }

  lemma AttachedInUse(saved: State, f: int)
    requires Attached(saved, f)
    ensures 0 <= f < 3 && saved.InUse(f)
  {
  }

  /** Descriptor 2 is a dup of descriptor 1, both on one file. */
  function OutAndErr(): State {
    var f := File(true, Open, 1, 0, -1, "out", false);
    State([f.(inuse := false), f, f], [[1, 2]], map[1 := 0, 2 := 0], 1)
  }

  /** Recovery separates them, whatever the new process inherited. */
  lemma SharingLost(r0: State, pos: int -> int)
    requires Start(OutAndErr(), r0)
    ensures Hosted(OutAndErr()) && GroupsOk(OutAndErr()) && Agrees(OutAndErr())
    ensures !SharingRestored(OutAndErr(), Recover(OutAndErr(), r0, pos, 3))
  {
    var saved := OutAndErr();
    assert saved.gs[0] == [1, 2];
    assert [1, 2][1..] == [2];
    assert Others(saved.gs, 1) == [2];
    assert Cand(saved, 1) == 2;
    assert Attached(saved, 1);
    SharingSurvives(saved, r0, pos);
  }
}
