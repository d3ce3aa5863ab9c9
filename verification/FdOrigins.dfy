/** What a dup group means when the inherited streams may share descriptions, as they do on a terminal
    (km/km_filesys.c).

    A run is compared with the same run in which descriptors 0, 1 and 2 started on three different
    files. The description a descriptor has there is its origin: the stream it was duplicated from, or
    the open call that made it.
 */
module FdOrigins {
  import opened DupGroups
  import opened FdState

  /** The initial table with three different streams. */
  function Apart(s: State): State {
    s.(desc := map[0 := 0, 1 := 1, 2 := 2], next := 3)
  }

  /** Description of an origin in a run from `s0`. */
  function DescriptionOf(s0: State, origin: nat): nat
    requires Initial(s0)
  {
    if origin < 3 then s0.desc[origin as int] else s0.next + (origin - 3)
  }

  /** `o` is `s` with origins instead of descriptions. */
  ghost predicate Mirrors(s0: State, s: State, o: State)
    requires Initial(s0)
  {
    && s.fs == o.fs && s.gs == o.gs && s.desc.Keys == o.desc.Keys && o.next >= 3 && s.next == DescriptionOf(s0, o.next)
    && forall fd :: fd in o.desc ==> s.desc[fd] == DescriptionOf(s0, o.desc[fd])
  }

  lemma AddMirrors(s0: State, s: State, o: State, fd: int, how: How, flags: int, name: string, isSocket: bool)
    requires Initial(s0) && Mirrors(s0, s, o) && 0 <= fd < |s.fs|
    ensures Mirrors(s0, Opened(s, fd, how, flags, name, isSocket), Opened(o, fd, how, flags, name, isSocket))
  {
  }

  lemma DupMirrors(s0: State, s: State, o: State, fd: int, newFd: int, how: How, flags: int)
    requires Initial(s0) && Mirrors(s0, s, o) && s.InUse(fd) && fd in s.desc && 0 <= newFd < |s.fs|
    ensures Mirrors(s0, Dupped(s, fd, newFd, how, flags, false), Dupped(o, fd, newFd, how, flags, false))
  {
    hide Joined;
  }

  lemma StepMirrors(s0: State, s: State, o: State, c: Call)
    requires Initial(s0) && Mirrors(s0, s, o) && Hosted(s) && Hosted(o) && HostAnswers(s, c)
    ensures HostAnswers(o, c) && Mirrors(s0, Step(s, c), Step(o, c))
  {
    assert forall fd :: s.Free(fd) <==> o.Free(fd);
    assert forall fd :: s.InUse(fd) <==> o.InUse(fd);
    hide Joined, Left, Unlinked, Opened, Dupped, Initial;
    match c
    case OpenCall(ret, how, flags, name, isSocket) =>
      if ret >= 0 {
        AddMirrors(s0, s, o, ret, how, flags, name, isSocket);
      }
    case DupCall(fd, ret, flags) =>
      if s.InUse(fd) && ret >= 0 {
        DupMirrors(s0, s, o, fd, ret, s.fs[fd].how, flags);
      }
    case Dup3Call(fd, newFd, ret, flags) =>
      OntoMirrors(s0, s, o, fd, newFd, flags);
    case CloseCall(_) =>
    case PairCall(ret, a, b, hows, modes, names, isSocket) =>
      if ret == 0 {
        PairMirrors(s0, s, o, a, b, hows, modes, names, isSocket);
      }
  }

  lemma OntoMirrors(s0: State, s: State, o: State, fd: int, newFd: int, flags: int)
    requires Initial(s0) && Mirrors(s0, s, o) && Hosted(s) && Hosted(o)
    ensures s.InUse(fd) && 0 <= newFd < |s.fs| && newFd != fd ==>
              Mirrors(s0, DuppedOnto(s, fd, newFd, flags, false), DuppedOnto(o, fd, newFd, flags, false))
  {
    hide Left, Dupped, Initial;
    if s.InUse(fd) && 0 <= newFd < |s.fs| && newFd != fd {
      assert s.InUse(newFd) <==> o.InUse(newFd);
      var how := if s.fs[fd].isSocket then s.fs[fd].how else Open;
      if s.InUse(newFd) {
        UnlinkedSlots(s, newFd);
        hide Unlinked;
        DupMirrors(s0, Deleted(s, newFd), Deleted(o, newFd), fd, newFd, how, flags);
      } else {
        DupMirrors(s0, s, o, fd, newFd, how, flags);
      }
    }
  }

  lemma PairMirrors(s0: State, s: State, o: State, a: int, b: int, hows: (How, How), modes: (int, int),
                    names: (string, string), isSocket: bool)
    requires Initial(s0) && Mirrors(s0, s, o) && 0 <= a < |s.fs| && 0 <= b < |s.fs|
    ensures Mirrors(s0, Paired(s, a, b, hows, modes, names, isSocket), Paired(o, a, b, hows, modes, names, isSocket))
  {
    AddMirrors(s0, s, o, a, hows.0, modes.0, names.0, isSocket);
    var s1, o1 := Opened(s, a, hows.0, modes.0, names.0, isSocket), Opened(o, a, hows.0, modes.0, names.0, isSocket);
    AddMirrors(s0, s1, o1, b, hows.1, modes.1, names.1, isSocket);
    hide Opened, Initial;
  }

  lemma {:induction false} RunMirrors(s0: State, s: State, o: State, calls: seq<Call>, t: State) returns (u: State)
    requires Initial(s0) && Mirrors(s0, s, o) && Ok(s) && Ok(o) && Reaches(s, calls, t)
    ensures Reaches(o, calls, u) && Mirrors(s0, t, u)
    decreases |calls|
  {
    hide Mirrors, Step, GroupsOk, Agrees, PartnersOk, LinksInside;
    if calls == [] {
      u := o;
    } else {
      StepMirrors(s0, s, o, calls[0]);
      StepKeeps(s, calls[0]);
      StepKeeps(o, calls[0]);
      u := RunMirrors(s0, Step(s, calls[0]), Step(o, calls[0]), calls[1..], t);
    }
  }

  /** Two descriptors in use whose origins are different streams on one description. */
  ghost predicate StreamsShared(s0: State, t: State, o: State)
    requires Initial(s0) && Hosted(o) && o.fs == t.fs
  {
    exists a, b :: t.InUse(a) && t.InUse(b) && o.InUse(a) && o.InUse(b) &&
      o.desc[a] < o.desc[b] < 3 && DescriptionOf(s0, o.desc[a]) == DescriptionOf(s0, o.desc[b])
  }

  lemma SameDescription(s0: State, t: State, o: State, a: int, b: int)
    requires Initial(s0) && Mirrors(s0, t, o) && Hosted(o) && t.InUse(a) && t.InUse(b) && o.InUse(a) && o.InUse(b)
    requires t.desc[a] == t.desc[b] && o.desc[a] != o.desc[b]
    ensures StreamsShared(s0, t, o)
  {
    assert o.desc[a] < 3 && o.desc[b] < 3;
    if o.desc[a] < o.desc[b] {
      assert DescriptionOf(s0, o.desc[a]) == DescriptionOf(s0, o.desc[b]);
    } else {
      assert DescriptionOf(s0, o.desc[b]) == DescriptionOf(s0, o.desc[a]);
    }
  }

  lemma SharedDisagree(s0: State, t: State, o: State)
    requires Initial(s0) && Mirrors(s0, t, o) && Hosted(t) && Hosted(o) && Agrees(o) && StreamsShared(s0, t, o)
    ensures !Agrees(t)
  {
    var a, b :| t.InUse(a) && t.InUse(b) && o.InUse(a) && o.InUse(b) &&
      o.desc[a] < o.desc[b] < 3 && DescriptionOf(s0, o.desc[a]) == DescriptionOf(s0, o.desc[b]);
    assert !Together(t.gs, a, b) && t.desc[a] == t.desc[b];
  }

  lemma AgreeUnshared(s0: State, t: State, o: State)
    requires Initial(s0) && Mirrors(s0, t, o) && Hosted(t) && Hosted(o) && Agrees(o) && !StreamsShared(s0, t, o)
    ensures Agrees(t)
  {
    forall a, b | t.InUse(a) && t.InUse(b) && a != b
      ensures Together(t.gs, a, b) <==> t.desc[a] == t.desc[b]
    {
      assert o.InUse(a) && o.InUse(b);
      hide Together, Initial, StreamsShared;
      if t.desc[a] == t.desc[b] && o.desc[a] != o.desc[b] {
        SameDescription(s0, t, o, a, b);
      }
    }
  }

  /** Two descriptors are in one group exactly when they have one origin. */
  ghost predicate GroupedByOrigin(t: State, o: State)
    requires Hosted(o)
  {
    forall a, b :: t.InUse(a) && t.InUse(b) && o.InUse(a) && o.InUse(b) && a != b ==>
      (Together(t.gs, a, b) <==> o.desc[a] == o.desc[b])
  }

  lemma OriginsDecide(s0: State, t: State, o: State)
    requires Initial(s0) && Mirrors(s0, t, o) && Hosted(t) && Hosted(o) && Agrees(o)
    ensures GroupedByOrigin(t, o) && (Agrees(t) <==> !StreamsShared(s0, t, o))
  {
    assert GroupedByOrigin(t, o) by {
      hide Together, Initial;
    }
    hide Initial, Mirrors, StreamsShared, Agrees;
    if StreamsShared(s0, t, o) {
      SharedDisagree(s0, t, o);
    } else {
      AgreeUnshared(s0, t, o);
    }
  }

  lemma StartMirrors(s: State)
    requires Initial(s)
    ensures Mirrors(s, s, Apart(s)) && Initial(Apart(s))
  {
  }

  /** Over every run, whatever the inherited streams share: groups are common origin. So they agree with
      sharing exactly while no two descriptors in use come from different streams on one description. */
  lemma RunOrigins(s: State, calls: seq<Call>, t: State) returns (o: State)
    requires Initial(s) && Reaches(s, calls, t)
    ensures Reaches(Apart(s), calls, o) && Mirrors(s, t, o) && Ok(t) && Ok(o) && GroupedByOrigin(t, o)
    ensures Agrees(t) <==> !StreamsShared(s, t, o)
  {
    StartMirrors(s);
    InitialAgrees(s);
    InitialAgrees(Apart(s));
    hide Reaches, GroupsOk, PartnersOk, LinksInside, Initial, StreamsShared, Mirrors, GroupedByOrigin, Agrees;
    o := RunMirrors(s, s, Apart(s), calls, t);
    RunKeeps(s, calls, t);
    RunKeeps(Apart(s), calls, o);
    MirrorFiles(s, t, o);
    OriginsDecide(s, t, o);
  }

  lemma MirrorFiles(s0: State, t: State, o: State)
    requires Initial(s0) && Mirrors(s0, t, o)
    ensures t.fs == o.fs
  {
  }
}
