/** The guest file descriptor table as a state machine (km/km_filesys.c).

    Guest and host descriptor numbers are equal. Besides the table and the dup groups, a state
    carries what the host kernel knows: `desc` names the open file description behind each open
    host descriptor, and `next` is the next fresh name.
 */
module FdState {
  import opened DupGroups

  const O_CLOEXEC: int := 0x80000

  datatype How =
    | Open | Pipe0 | Pipe1 | EpollFd | Socket | Accept | SocketPair0 | SocketPair1 | RecvMsg | EventFd | TimerFd

  // km_file_t; isSocket says whether sockinfo is set
  datatype File = File(inuse: bool, how: How, flags: int, error: int, ofd: int, name: string, isSocket: bool)

  datatype State = State(fs: seq<File>, gs: Groups, desc: map<int, nat>, next: nat) {
    predicate InUse(fd: int) {
      0 <= fd < |fs| && fs[fd].inuse
    }

    /** A number the host may hand out: not open, and within the table. */
    predicate Free(fd: int) {
      0 <= fd < |fs| && fd !in desc
    }
  }

  // ---- steps ------------------------------------------------------------------------------

  // km_add_guest_fd_internal; the error field of the slot is left as it was
  function Add(s: State, fd: int, how: How, flags: int, name: string, isSocket: bool): State
    requires 0 <= fd < |s.fs|
  {
    s.(fs := s.fs[fd := File(true, how, flags, s.fs[fd].error, -1, name, isSocket)])
  }

  /** The host opens `fd` on a fresh description and the table records it. */
  function Opened(s: State, fd: int, how: How, flags: int, name: string, isSocket: bool): State
    requires 0 <= fd < |s.fs|
  {
    Add(s, fd, how, flags, name, isSocket).(desc := s.desc[fd := s.next], next := s.next + 1)
  }

  /** The host makes `newFd` a dup of `fd`; outside recovery the dup groups record it. */
  function Dupped(s: State, fd: int, newFd: int, how: How, flags: int, recovery: bool): State
    requires s.InUse(fd) && fd in s.desc && 0 <= newFd < |s.fs|
  {
    var t := Add(s, newFd, how, flags, s.fs[fd].name, s.fs[fd].isSocket);
    t.(desc := s.desc[newFd := s.desc[fd]], gs := if recovery then s.gs else Joined(s.gs, newFd, fd))
  }

  // del_guest_fd: frees the slot, leaves the dup group and unlinks the partner
  function Unlinked(fs: seq<File>, fd: int): seq<File>
    requires 0 <= fd < |fs|
  {
    var other := fs[fd].ofd;
    var fs1 := fs[fd := fs[fd].(inuse := false, name := "", isSocket := false, ofd := -1)];
    if 0 <= other < |fs| && fs1[other].ofd == fd then fs1[other := fs1[other].(ofd := -1)] else fs1
  }

  function Deleted(s: State, fd: int): State
    requires 0 <= fd < |s.fs|
  {
    s.(fs := Unlinked(s.fs, fd), gs := Left(s.gs, fd))
  }

  // km_fs_close; a descriptor in error state is not closed on the host
  function Closed(s: State, fd: int): State
    requires s.InUse(fd)
  {
    var t := Deleted(s, fd);
    if s.fs[fd].error != 0 then t else t.(desc := s.desc - {fd})
  }

  // km_fs_dup3 past its checks
  function DuppedOnto(s: State, fd: int, newFd: int, flags: int, recovery: bool): State
    requires s.InUse(fd) && fd in s.desc && 0 <= newFd < |s.fs| && newFd != fd
  {
    var t := if s.InUse(newFd) then Deleted(s, newFd) else s;
    Dupped(t, fd, newFd, if s.fs[fd].isSocket then s.fs[fd].how else Open, flags, recovery)
  }

  // km_connect_files
  function Connected(s: State, a: int, b: int): State
    requires 0 <= a < |s.fs| && 0 <= b < |s.fs|
  {
    var fs1 := s.fs[a := s.fs[a].(ofd := b)];
    s.(fs := fs1[b := fs1[b].(ofd := a)])
  }

  /** pipe, pipe2 and socketpair: two fresh descriptions, linked as partners. */
  function Paired(s: State, a: int, b: int, how: (How, How), flags: (int, int), names: (string, string),
                  isSocket: bool): State
    requires 0 <= a < |s.fs| && 0 <= b < |s.fs|
  {
    var t := Opened(Opened(s, a, how.0, flags.0, names.0, isSocket), b, how.1, flags.1, names.1, isSocket);
    Connected(t, a, b)
  }

  // ---- what every step keeps ----------------------------------------------------------------

  /** The table and the host agree, and descriptions are named below `next`. */
  ghost predicate Hosted(s: State) {
    && (forall fd :: s.InUse(fd) ==> fd in s.desc)
    && (forall fd :: fd in s.desc ==> s.desc[fd] < s.next)
  }

  /** Dup groups are well formed and list only descriptors in use, all under one name. */
  ghost predicate GroupsOk(s: State) {
    && WellFormed(s.gs)
    && (forall a :: Grouped(s.gs, a) ==> s.InUse(a))
    && (forall a, b :: s.InUse(a) && s.InUse(b) && Together(s.gs, a, b) ==> s.fs[a].name == s.fs[b].name)
  }

  /** Partner links are symmetric and join two distinct descriptors in use. */
  ghost predicate PartnersOk(s: State) {
    forall a :: s.InUse(a) && s.fs[a].ofd != -1 ==>
      s.InUse(s.fs[a].ofd) && s.fs[a].ofd != a && s.fs[s.fs[a].ofd].ofd == a
  }

  /** Partner links stay within the table. */
  ghost predicate LinksInside(s: State) {
    forall a :: s.InUse(a) && s.fs[a].ofd != -1 ==> 0 <= s.fs[a].ofd < |s.fs|
  }

  ghost predicate Ok(s: State) {
    Hosted(s) && GroupsOk(s)
  }

  /** A step keeps the invariant, and each of the properties that need not hold after a recovery. */
  ghost predicate Keeps(s: State, t: State)
    requires Ok(s)
  {
    Ok(t) && (Agrees(s) ==> Agrees(t)) && (PartnersOk(s) ==> PartnersOk(t)) && (LinksInside(s) ==> LinksInside(t))
  }

  /** Two descriptors in use are in one dup group exactly when they share a description. */
  ghost predicate Agrees(s: State)
    requires Hosted(s)
  {
    forall a, b :: s.InUse(a) && s.InUse(b) && a != b ==> (Together(s.gs, a, b) <==> s.desc[a] == s.desc[b])
  }

  lemma OpenedKeeps(s: State, fd: int, how: How, flags: int, name: string, isSocket: bool)
    requires Ok(s) && s.Free(fd)
    ensures Keeps(s, Opened(s, fd, how, flags, name, isSocket))
  {
    assert !s.InUse(fd) && !Grouped(s.gs, fd);
    hide WellFormed, Grouped;
    forall a
      ensures Together(s.gs, a, fd) ==> Grouped(s.gs, fd)
      ensures Together(s.gs, fd, a) ==> Grouped(s.gs, fd)
    {
      TogetherGrouped(s.gs, a, fd);
    }
    hide Together;
  }

  lemma TogetherGrouped(gs: Groups, a: int, b: int)
    ensures Together(gs, a, b) ==> Grouped(gs, b)
    ensures Together(gs, b, a) ==> Grouped(gs, b)
  {
  }

  /** Freeing a slot clears the link of the partner, if it links back, and no other. */
  lemma UnlinkedSlots(s: State, fd: int)
    requires s.InUse(fd)
    ensures |Unlinked(s.fs, fd)| == |s.fs|
    ensures forall a :: 0 <= a < |s.fs| ==>
              var f := Unlinked(s.fs, fd)[a];
              f == if a == fd then s.fs[fd].(inuse := false, name := "", isSocket := false, ofd := -1)
                   else if a == s.fs[fd].ofd && s.fs[a].ofd == fd then s.fs[a].(ofd := -1) else s.fs[a]
  {
  }

  lemma DeletedPartners(s: State, fd: int)
    requires s.InUse(fd)
    ensures PartnersOk(s) ==> PartnersOk(Deleted(s, fd))
    ensures LinksInside(s) ==> LinksInside(Deleted(s, fd))
  {
    UnlinkedSlots(s, fd);
    hide Unlinked;
  }

  lemma DeletedGroups(s: State, fd: int)
    requires Ok(s) && s.InUse(fd)
    ensures Ok(Deleted(s, fd))
    ensures Agrees(s) ==> Agrees(Deleted(s, fd))
    ensures !Grouped(Deleted(s, fd).gs, fd)
  {
    hide Unlinked, Left, Together, Grouped, WellFormed;
    UnlinkedSlots(s, fd);
    LeftWellFormed(s.gs, fd);
    forall a, b | a != fd && b != fd && a != b
      ensures Together(Left(s.gs, fd), a, b) <==> Together(s.gs, a, b)
    {
      LeftPair(s.gs, fd, a, b);
    }
  }

  lemma DeletedKeeps(s: State, fd: int)
    requires Ok(s) && s.InUse(fd)
    ensures Keeps(s, Deleted(s, fd))
    ensures !Grouped(Deleted(s, fd).gs, fd) && !Deleted(s, fd).InUse(fd)
  {
    UnlinkedSlots(s, fd);
    DeletedPartners(s, fd);
    DeletedGroups(s, fd);
    hide Agrees, GroupsOk, PartnersOk, LinksInside, Hosted;
  }

  lemma ClosedKeeps(s: State, fd: int)
    requires Ok(s) && s.InUse(fd)
    ensures Keeps(s, Closed(s, fd))
  {
    DeletedKeeps(s, fd);
    hide Deleted, WellFormed, Grouped, Together;
  }

  lemma DuppedGroups(s: State, fd: int, newFd: int)
    requires Ok(s) && s.InUse(fd) && !s.InUse(newFd)
    ensures var hs := Joined(s.gs, newFd, fd);
            WellFormed(hs) && (forall a :: Grouped(hs, a) ==> Grouped(s.gs, a) || a == newFd || a == fd) &&
            (forall a, b :: a != newFd && b != newFd && a != b ==> (Together(hs, a, b) <==> Together(s.gs, a, b))) &&
            (forall b :: b != newFd ==> (Together(hs, newFd, b) <==> b == fd || Together(s.gs, fd, b))) &&
            (forall a :: Together(hs, a, newFd) <==> Together(hs, newFd, a))
  {
    var hs := Joined(s.gs, newFd, fd);
    JoinedWellFormed(s.gs, newFd, fd);
    forall a, b | a != b && b != newFd
      ensures Together(hs, a, b) <==> if a == newFd then b == fd || Together(s.gs, fd, b) else Together(s.gs, a, b)
    {
      JoinedPair(s.gs, newFd, fd, a, b);
    }
    forall a
      ensures Together(hs, a, newFd) <==> Together(hs, newFd, a)
    {
    }
    hide Joined, WellFormed, Grouped, Together;
  }

  lemma DuppedOk(s: State, fd: int, newFd: int, how: How, flags: int)
    requires Ok(s) && s.InUse(fd) && 0 <= newFd < |s.fs| && !s.InUse(newFd)
    ensures Ok(Dupped(s, fd, newFd, how, flags, false))
  {
    var t := Dupped(s, fd, newFd, how, flags, false);
    DuppedGroups(s, fd, newFd);
    hide Joined, WellFormed, Grouped, Together;
    assert forall x :: t.InUse(x) <==> s.InUse(x) || x == newFd;
    assert t.fs[newFd].name == t.fs[fd].name;
    forall a, b | t.InUse(a) && t.InUse(b) && Together(t.gs, a, b)
      ensures t.fs[a].name == t.fs[b].name
    {
      if a != newFd && b != newFd {
        assert s.InUse(a) && s.InUse(b);
      } else if a != newFd {
        assert Together(t.gs, newFd, a);
        assert a == fd || Together(s.gs, fd, a);
      } else if b != newFd {
        assert b == fd || Together(s.gs, fd, b);
      }
    }
  }

  lemma DuppedAgrees(s: State, fd: int, newFd: int, how: How, flags: int)
    requires Ok(s) && Agrees(s) && s.InUse(fd) && 0 <= newFd < |s.fs| && !s.InUse(newFd)
    ensures Hosted(Dupped(s, fd, newFd, how, flags, false)) && Agrees(Dupped(s, fd, newFd, how, flags, false))
  {
    var t := Dupped(s, fd, newFd, how, flags, false);
    DuppedGroups(s, fd, newFd);
    hide Joined, GroupsOk, Together;
    forall a, b | t.InUse(a) && t.InUse(b) && a != b
      ensures Together(t.gs, a, b) <==> t.desc[a] == t.desc[b]
    {
      if a != newFd && b != newFd {
        assert s.InUse(a) && s.InUse(b);
      } else if a != newFd {
        assert Together(t.gs, a, newFd) <==> Together(t.gs, newFd, a);
        assert s.InUse(a) && (a != fd ==> (Together(s.gs, fd, a) <==> s.desc[fd] == s.desc[a]));
      } else {
        assert s.InUse(b) && (b != fd ==> (Together(s.gs, fd, b) <==> s.desc[fd] == s.desc[b]));
      }
    }
  }

  lemma DuppedKeeps(s: State, fd: int, newFd: int, how: How, flags: int)
    requires Ok(s) && s.InUse(fd) && 0 <= newFd < |s.fs| && !s.InUse(newFd)
    ensures Keeps(s, Dupped(s, fd, newFd, how, flags, false))
  {
    DuppedOk(s, fd, newFd, how, flags);
    hide Joined, GroupsOk, Agrees;
    if Agrees(s) {
      DuppedAgrees(s, fd, newFd, how, flags);
    }
  }

  lemma DuppedOntoKeeps(s: State, fd: int, newFd: int, flags: int)
    requires Ok(s) && s.InUse(fd) && 0 <= newFd < |s.fs| && newFd != fd
    ensures Keeps(s, DuppedOnto(s, fd, newFd, flags, false))
  {
    var how := if s.fs[fd].isSocket then s.fs[fd].how else Open;
    if s.InUse(newFd) {
      DeletedKeeps(s, newFd);
      UnlinkedSlots(s, newFd);
      hide Ok, Agrees, PartnersOk, LinksInside, Dupped, Unlinked;
      DuppedKeeps(Deleted(s, newFd), fd, newFd, how, flags);
    } else {
      hide Ok, Agrees, PartnersOk, LinksInside, Dupped, Deleted;
      DuppedKeeps(s, fd, newFd, how, flags);
    }
  }

  lemma PairedKeeps(s: State, a: int, b: int, how: (How, How), flags: (int, int), names: (string, string),
                    isSocket: bool)
    requires Ok(s) && s.Free(a) && s.Free(b) && a != b
    ensures Keeps(s, Paired(s, a, b, how, flags, names, isSocket))
  {
    hide Ok, Agrees, PartnersOk, LinksInside, Connected;
    var t1 := Opened(s, a, how.0, flags.0, names.0, isSocket);
    OpenedKeeps(s, a, how.0, flags.0, names.0, isSocket);
    OpenedKeeps(t1, b, how.1, flags.1, names.1, isSocket);
    ConnectedKeeps(Opened(t1, b, how.1, flags.1, names.1, isSocket), a, b);
  }

  lemma ConnectedKeeps(s: State, a: int, b: int)
    requires Ok(s) && s.InUse(a) && s.InUse(b) && a != b && s.fs[a].ofd == s.fs[b].ofd == -1
    ensures Keeps(s, Connected(s, a, b))
  {
    hide Together, Grouped, WellFormed;
  }

  // ---- runs -----------------------------------------------------------------------------------

  /** A system call together with the host's answer: `ret` is what the host returned. */
  datatype Call =
    | OpenCall(ret: int, how: How, flags: int, name: string, isSocket: bool)
    | DupCall(fd: int, ret: int, flags: int)
    | Dup3Call(fd: int, newFd: int, ret: int, flags: int)
    | CloseCall(fd: int)
    | PairCall(ret: int, a: int, b: int, hows: (How, How), modes: (int, int), names: (string, string), isSocket: bool)

  /** What the host guarantees about its answers. */
  predicate HostAnswers(s: State, c: Call) {
    match c
    case OpenCall(ret, _, _, _, _) => ret < 0 || s.Free(ret)
    case DupCall(_, ret, _) => ret < 0 || s.Free(ret)
    case Dup3Call(_, newFd, ret, _) => ret < 0 || ret == newFd
    case CloseCall(_) => true
    case PairCall(ret, a, b, _, _, _, _) => ret != 0 || (s.Free(a) && s.Free(b) && a != b)
  }

  /** One call: km_fs_open, km_fs_dup and F_DUPFD, km_fs_dup3, km_fs_close, km_fs_pipe and km_fs_socketpair.
      Calls on a descriptor that is not in use, or in error state, change nothing, except close. */
  function Step(s: State, c: Call): State
    requires HostAnswers(s, c)
    requires forall fd :: 0 <= fd < |s.fs| && s.fs[fd].inuse ==> fd in s.desc
  {
    match c
    case OpenCall(ret, how, flags, name, isSocket) =>
      if ret < 0 then s else Opened(s, ret, how, flags, name, isSocket)
    case DupCall(fd, ret, flags) =>
      if !s.InUse(fd) || s.fs[fd].error != 0 || ret < 0 then s
      else Dupped(s, fd, ret, s.fs[fd].how, flags, false)
    case Dup3Call(fd, newFd, ret, flags) =>
      if fd == newFd || !(0 <= newFd < |s.fs|) || !s.InUse(fd) || s.fs[fd].error != 0 || ret < 0 then s
      else DuppedOnto(s, fd, newFd, flags, false)
    case CloseCall(fd) => if s.InUse(fd) then Closed(s, fd) else s
    case PairCall(ret, a, b, how, flags, names, isSocket) =>
      if ret != 0 then s else Paired(s, a, b, how, flags, names, isSocket)
  }

  lemma StepKeeps(s: State, c: Call)
    requires Ok(s) && HostAnswers(s, c)
    ensures Keeps(s, Step(s, c))
  {
    hide Agrees, PartnersOk, LinksInside, GroupsOk, Opened, Dupped, DuppedOnto, Closed, Paired;
    match c
    case OpenCall(ret, how, flags, name, isSocket) =>
      if ret >= 0 {
        OpenedKeeps(s, ret, how, flags, name, isSocket);
      }
    case DupCall(fd, ret, flags) =>
      if s.InUse(fd) && ret >= 0 {
        DuppedKeeps(s, fd, ret, s.fs[fd].how, flags);
      }
    case Dup3Call(fd, newFd, ret, flags) =>
      if s.InUse(fd) && fd != newFd && 0 <= newFd < |s.fs| {
        DuppedOntoKeeps(s, fd, newFd, flags);
      }
    case CloseCall(fd) =>
      if s.InUse(fd) {
        ClosedKeeps(s, fd);
      }
    case PairCall(ret, a, b, how, flags, names, isSocket) =>
      if ret == 0 {
        PairedKeeps(s, a, b, how, flags, names, isSocket);
      }
  }

  /** States a run of calls can reach. */
  ghost predicate Reaches(s: State, calls: seq<Call>, t: State)
    decreases |calls|
  {
    if calls == [] then s == t
    else Hosted(s) && HostAnswers(s, calls[0]) && Reaches(Step(s, calls[0]), calls[1..], t)
  }

  /** Over every run, dup groups and sharing keep agreeing, and partner links stay symmetric and within
      the table; each of these does so whether or not the others hold. */
  lemma {:induction false} RunKeeps(s: State, calls: seq<Call>, t: State)
    requires Ok(s) && Reaches(s, calls, t)
    ensures Keeps(s, t)
    decreases |calls|
  {
    hide Agrees, Step, GroupsOk, PartnersOk, LinksInside;
    if calls != [] {
      StepKeeps(s, calls[0]);
      RunKeeps(Step(s, calls[0]), calls[1..], t);
    }
  }

  /** The table km_fs_init sets up: descriptors 0, 1 and 2 on the given descriptions. */
  predicate Initial(s: State) {
    && |s.fs| >= 3 && s.gs == [] && s.desc.Keys == {0, 1, 2}
    && (forall fd :: 0 <= fd < 3 ==> s.fs[fd].inuse && s.fs[fd].ofd == -1 && s.desc[fd] < s.next)
    && (forall fd :: 3 <= fd < |s.fs| ==> !s.fs[fd].inuse)
  }

  /** The groups agree with sharing from the start exactly when the three inherited descriptors
      are three different open files. */
  lemma InitialAgrees(s: State)
    requires Initial(s)
    ensures Ok(s) && PartnersOk(s) && LinksInside(s)
    ensures Agrees(s) <==> s.desc[0] != s.desc[1] && s.desc[0] != s.desc[2] && s.desc[1] != s.desc[2]
  {
    if Agrees(s) {
      assert s.InUse(0) && s.InUse(1) && s.InUse(2);
      assert !Together(s.gs, 0, 1) && !Together(s.gs, 0, 2) && !Together(s.gs, 1, 2);
    }
  }
}
