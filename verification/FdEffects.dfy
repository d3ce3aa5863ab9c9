/** What each call on descriptors does, said of the states before and after it: which descriptors are in use,
    which open file description is behind each, and who is grouped with whom (km/km_filesys.c). */
module FdEffects {
  import opened DupGroups
  import opened FdState

  /** Every slot outside `changed` is as it was. */
  ghost predicate SlotsKept(s: State, t: State, changed: set<int>) {
    |t.fs| == |s.fs| && forall a :: 0 <= a < |s.fs| && a !in changed ==> t.fs[a] == s.fs[a]
  }

  /** Every slot but that of `fd` is as it was, except that the partner of `fd`, if it links back, has lost
      its link. */
  ghost predicate OnlyUnlinked(s: State, t: State, fd: int)
    requires 0 <= fd < |s.fs|
  {
    && |t.fs| == |s.fs|
    && forall a :: 0 <= a < |s.fs| && a != fd ==>
         t.fs[a] == if a == s.fs[fd].ofd && s.fs[a].ofd == fd then s.fs[a].(ofd := -1) else s.fs[a]
  }

  /** Outside `changed`, descriptions are as they were, and so is who is grouped with whom. */
  ghost predicate SharingKept(s: State, t: State, changed: set<int>) {
    && (forall a :: a !in changed ==> (a in t.desc <==> a in s.desc))
    && (forall a :: a in s.desc && a in t.desc && a !in changed ==> t.desc[a] == s.desc[a])
    && (forall a, b :: a !in changed && b !in changed && a != b ==> (Together(t.gs, a, b) <==> Together(s.gs, a, b)))
  }

  /** A new file record; the error field of the slot is left alone. */
  ghost predicate Records(s: State, t: State, fd: int, how: How, flags: int, name: string, isSocket: bool, ofd: int) {
    && t.InUse(fd) && 0 <= fd < |s.fs| && t.fs[fd].how == how && t.fs[fd].flags == flags && t.fs[fd].name == name
    && t.fs[fd].isSocket == isSocket && t.fs[fd].ofd == ofd && t.fs[fd].error == s.fs[fd].error
  }

  /** Open on a description that no other descriptor has, and in no group. */
  ghost predicate Alone(t: State, fd: int) {
    fd in t.desc && (forall b :: b in t.desc && b != fd ==> t.desc[b] != t.desc[fd]) && !Grouped(t.gs, fd)
  }

  /** On the description of `fd`, and grouped with it and with those it was grouped with. */
  ghost predicate Shares(s: State, t: State, fd: int, newFd: int) {
    && fd in t.desc && newFd in t.desc && t.desc[newFd] == t.desc[fd]
    && forall b :: b != newFd ==> (Together(t.gs, newFd, b) <==> b == fd || Together(s.gs, fd, b))
  }

  ghost predicate Opens(s: State, t: State, fd: int, how: How, flags: int, name: string, isSocket: bool) {
    && Records(s, t, fd, how, flags, name, isSocket, -1) && Alone(t, fd)
    && SlotsKept(s, t, {fd}) && SharingKept(s, t, {fd})
  }

  ghost predicate Dups(s: State, t: State, fd: int, newFd: int, flags: int)
    requires s.InUse(fd)
  {
    && Records(s, t, newFd, s.fs[fd].how, flags, s.fs[fd].name, s.fs[fd].isSocket, -1) && Shares(s, t, fd, newFd)
    && SlotsKept(s, t, {newFd}) && SharingKept(s, t, {newFd})
  }

  /** The kind of a socket is kept, anything else counts as opened. */
  ghost predicate DupsOnto(s: State, t: State, fd: int, newFd: int, flags: int)
    requires s.InUse(fd) && 0 <= newFd < |s.fs|
  {
    && Records(s, t, newFd, if s.fs[fd].isSocket then s.fs[fd].how else Open, flags, s.fs[fd].name, s.fs[fd].isSocket,
               -1)
    && Shares(s, t, fd, newFd) && SharingKept(s, t, {newFd})
    && if s.InUse(newFd) then OnlyUnlinked(s, t, newFd) else SlotsKept(s, t, {newFd})
  }

  /** Not in use and in no group; still open on the host exactly when it was in error state. */
  ghost predicate Closes(s: State, t: State, fd: int)
    requires s.InUse(fd)
  {
    && |t.fs| == |s.fs| && t.fs[fd] == File(false, s.fs[fd].how, s.fs[fd].flags, s.fs[fd].error, -1, "", false)
    && !Grouped(t.gs, fd) && (fd in t.desc <==> s.fs[fd].error != 0)
    && OnlyUnlinked(s, t, fd) && SharingKept(s, t, {fd})
  }

  ghost predicate Pairs(s: State, t: State, a: int, b: int, hows: (How, How), modes: (int, int),
                        names: (string, string), isSocket: bool)
  {
    && Records(s, t, a, hows.0, modes.0, names.0, isSocket, b)
    && Records(s, t, b, hows.1, modes.1, names.1, isSocket, a)
    && Alone(t, a) && Alone(t, b) && SlotsKept(s, t, {a, b}) && SharingKept(s, t, {a, b})
  }

  /** What a call does, by the host's answer; a call that is refused changes nothing. */
  ghost predicate Effect(s: State, c: Call, t: State) {
    match c
    case OpenCall(ret, how, flags, name, isSocket) =>
      if ret >= 0 then Opens(s, t, ret, how, flags, name, isSocket) else t == s
    case DupCall(fd, ret, flags) =>
      if s.InUse(fd) && s.fs[fd].error == 0 && ret >= 0 then Dups(s, t, fd, ret, flags) else t == s
    case Dup3Call(fd, newFd, ret, flags) =>
      if s.InUse(fd) && s.fs[fd].error == 0 && ret >= 0 && fd != newFd && 0 <= newFd < |s.fs| then
        DupsOnto(s, t, fd, newFd, flags)
      else t == s
    case CloseCall(fd) => if s.InUse(fd) then Closes(s, t, fd) else t == s
    case PairCall(ret, a, b, hows, modes, names, isSocket) =>
      if ret == 0 then Pairs(s, t, a, b, hows, modes, names, isSocket) else t == s
  }

  // ---- proofs ------------------------------------------------------------------------------------------

  lemma NotGrouped(s: State, fd: int)
    requires GroupsOk(s) && !s.InUse(fd)
    ensures !Grouped(s.gs, fd)
  {
  }

  lemma OpenedDoes(s: State, fd: int, how: How, flags: int, name: string, isSocket: bool)
    requires Ok(s) && s.Free(fd)
    ensures Opens(s, Opened(s, fd, how, flags, name, isSocket), fd, how, flags, name, isSocket)
  {
    NotGrouped(s, fd);
    hide Grouped, Together, GroupsOk;
  }

  lemma DuppedShares(s: State, fd: int, newFd: int, how: How, flags: int)
    requires Ok(s) && s.InUse(fd) && 0 <= newFd < |s.fs| && !s.InUse(newFd)
    ensures var t := Dupped(s, fd, newFd, how, flags, false);
            && Records(s, t, newFd, how, flags, s.fs[fd].name, s.fs[fd].isSocket, -1) && Shares(s, t, fd, newFd)
            && SlotsKept(s, t, {newFd}) && SharingKept(s, t, {newFd})
  {
    DuppedGroups(s, fd, newFd);
    hide Joined, Together, Grouped, GroupsOk;
  }

  lemma DeletedDoes(s: State, fd: int)
    requires Ok(s) && s.InUse(fd)
    ensures var t := Deleted(s, fd);
            && |t.fs| == |s.fs| && t.fs[fd] == File(false, s.fs[fd].how, s.fs[fd].flags, s.fs[fd].error, -1, "", false)
            && OnlyUnlinked(s, t, fd) && SharingKept(s, t, {fd}) && t.desc == s.desc && !Grouped(t.gs, fd)
  {
    UnlinkedSlots(s, fd);
    LeftWellFormed(s.gs, fd);
    hide Left, Unlinked, Together, Grouped, WellFormed;
    forall a, b | a != fd && b != fd && a != b
      ensures Together(Left(s.gs, fd), a, b) <==> Together(s.gs, a, b)
    {
      LeftPair(s.gs, fd, a, b);
    }
  }

  lemma ClosedDoes(s: State, fd: int)
    requires Ok(s) && s.InUse(fd)
    ensures Closes(s, Closed(s, fd), fd)
  {
    DeletedDoes(s, fd);
    hide Deleted, Together, Grouped, GroupsOk;
  }

  lemma OntoFree(s: State, fd: int, newFd: int, flags: int)
    requires Ok(s) && s.InUse(fd) && 0 <= newFd < |s.fs| && newFd != fd && !s.InUse(newFd)
    ensures DupsOnto(s, DuppedOnto(s, fd, newFd, flags, false), fd, newFd, flags)
  {
    DuppedShares(s, fd, newFd, if s.fs[fd].isSocket then s.fs[fd].how else Open, flags);
    hide Dupped, GroupsOk, Together;
  }

  lemma OntoUsed(s: State, fd: int, newFd: int, flags: int)
    requires Ok(s) && s.InUse(fd) && newFd != fd && s.InUse(newFd)
    ensures DupsOnto(s, DuppedOnto(s, fd, newFd, flags, false), fd, newFd, flags)
  {
    var how := if s.fs[fd].isSocket then s.fs[fd].how else Open;
    var u := Deleted(s, newFd);
    DeletedDoes(s, newFd);
    DeletedKeeps(s, newFd);
    hide Deleted, Dupped, GroupsOk, Together, Agrees, PartnersOk, LinksInside, Hosted, Records, Shares, SlotsKept,
         SharingKept;
    assert u.InUse(fd) && u.fs[fd].how == s.fs[fd].how && u.fs[fd].name == s.fs[fd].name &&
           u.fs[fd].isSocket == s.fs[fd].isSocket;
    DuppedShares(u, fd, newFd, how, flags);
    FreedFirst(s, u, Dupped(u, fd, newFd, how, flags, false), fd, newFd, how, flags);
  }

  /** Freeing a descriptor and then making it a dup. */
  lemma FreedFirst(s: State, u: State, t: State, fd: int, newFd: int, how: How, flags: int)
    requires s.InUse(newFd) && s.InUse(fd) && u.InUse(fd) && newFd != fd && OnlyUnlinked(s, u, newFd)
    requires SharingKept(s, u, {newFd}) && u.fs[newFd].error == s.fs[newFd].error
    requires Records(u, t, newFd, how, flags, s.fs[fd].name, s.fs[fd].isSocket, -1) && Shares(u, t, fd, newFd)
    requires SlotsKept(u, t, {newFd}) && SharingKept(u, t, {newFd})
    ensures Records(s, t, newFd, how, flags, s.fs[fd].name, s.fs[fd].isSocket, -1) && Shares(s, t, fd, newFd)
    ensures SharingKept(s, t, {newFd}) && OnlyUnlinked(s, t, newFd)
  {
    hide Together;
    assert forall b :: b != newFd && b != fd ==> (Together(u.gs, fd, b) <==> Together(s.gs, fd, b));
    assert Shares(s, t, fd, newFd) by {
      forall b | b != newFd
        ensures Together(t.gs, newFd, b) <==> b == fd || Together(s.gs, fd, b)
      {
        assert Together(t.gs, newFd, b) <==> b == fd || Together(u.gs, fd, b);
      }
    }
  }

  lemma PairedDoes(s: State, a: int, b: int, hows: (How, How), modes: (int, int), names: (string, string),
                   isSocket: bool)
    requires Ok(s) && s.Free(a) && s.Free(b) && a != b
    ensures Pairs(s, Paired(s, a, b, hows, modes, names, isSocket), a, b, hows, modes, names, isSocket)
  {
    NotGrouped(s, a);
    NotGrouped(s, b);
    hide Grouped, Together, GroupsOk;
  }

  /** Every call does what `Effect` says. */
  lemma StepDoes(s: State, c: Call)
    requires Ok(s) && HostAnswers(s, c)
    ensures Effect(s, c, Step(s, c))
  {
    hide Opened, Dupped, DuppedOnto, Closed, Paired, GroupsOk, Opens, DupsOnto, Closes, Pairs, Records, Shares,
         SlotsKept, SharingKept;
    match c
    case OpenCall(ret, how, flags, name, isSocket) =>
      if ret >= 0 {
        OpenedDoes(s, ret, how, flags, name, isSocket);
      }
    case DupCall(fd, ret, flags) =>
      if s.InUse(fd) && ret >= 0 {
        DuppedShares(s, fd, ret, s.fs[fd].how, flags);
      }
    case Dup3Call(fd, newFd, ret, flags) =>
      if s.InUse(fd) && fd != newFd && 0 <= newFd < |s.fs| {
        if s.InUse(newFd) {
          OntoUsed(s, fd, newFd, flags);
        } else {
          OntoFree(s, fd, newFd, flags);
        }
      }
    case CloseCall(fd) =>
      if s.InUse(fd) {
        ClosedDoes(s, fd);
      }
    case PairCall(ret, a, b, hows, modes, names, isSocket) =>
      if ret == 0 {
        PairedDoes(s, a, b, hows, modes, names, isSocket);
      }
  }

  /** Every run goes through states in which each call has had its effect. */
  lemma {:induction false} RunDoes(s: State, calls: seq<Call>, t: State) returns (states: seq<State>)
    requires Ok(s) && Reaches(s, calls, t)
    ensures |states| == |calls| + 1 && states[0] == s && states[|calls|] == t
    ensures forall k :: 0 <= k < |calls| ==> Ok(states[k]) && Effect(states[k], calls[k], states[k + 1])
    decreases |calls|
  {
    hide Effect, Step, GroupsOk, Agrees, PartnersOk, LinksInside;
    if calls == [] {
      states := [s];
    } else {
      StepDoes(s, calls[0]);
      StepKeeps(s, calls[0]);
      var rest := RunDoes(Step(s, calls[0]), calls[1..], t);
      states := [s] + rest;
    }
  }
}
