/** The table after snapshot recovery: which invariants of a running table hold in it again
    (km/km_filesys.c). */
module FdAfter {
  import opened DupGroups
  import opened FdState
  import opened FdRecovery

  // ---- which descriptors are opened afresh --------------------------------------------------------

  /** The saved descriptor is opened again, not inherited and not made a dup: it kept its group, and is
      the lowest one there that did. */
  ghost predicate Afresh(saved: State, x: int) {
    Kept(saved, x) && !Skip(saved, x) && forall y :: y != x && Kept(saved, y) && Together(saved.gs, x, y) ==> x < y
  }

  lemma AfreshStd(saved: State, r0: State, r: State, i: nat)
    requires Start(saved, r0) && GroupsOk(saved) && i < 3 && saved.InUse(i) && !Skip(saved, i)
    requires StdFiles(saved, r0, r, i) && StdOthers(saved, r.gs, i)
    ensures FirstInUse(r, Others(r.gs, i)) < 0 <==> Afresh(saved, i)
  {
    StdFound(saved, r0, r, i);
    if !Attached(saved, i) {
      forall y | y != i && Kept(saved, y) && Together(saved.gs, i, y)
        ensures i < y
      {
        if y < i {
          TogetherSame(saved.gs, i, y);
          KeptStdApart(saved, y, i);
        }
      }
    }
    hide FirstInUse, Others, Together, GroupsOk, StdFiles, StdOthers;
  }

  lemma AfreshRest(saved: State, r3: State, r: State, i: nat)
    requires GroupsOk(saved) && StdGroups(saved, r3.gs, 3) && StdOthers(saved, r3.gs, 3)
    requires 3 <= i < |saved.fs| && saved.InUse(i) && RestFiles(saved, r3, r, i)
    ensures FirstInUse(r, Others(r.gs, i)) < 0 <==> Afresh(saved, i)
  {
    var m := FirstInUse(r, Others(r.gs, i));
    FirstInUseIs(r, Others(r.gs, i));
    OthersMembers(r.gs, i);
    KeptGroups(saved, r3.gs);
    assert !Skip(saved, i) && Kept(saved, i);
    hide StdGroups, StdOthers, FirstInUse, Others, Grouped;
    if m >= 0 {
      OthersSymmetric(r.gs, i, m);
      KeptTogether(saved, r3.gs, i, m);
    } else {
      forall y | y != i && Kept(saved, y) && Together(saved.gs, i, y)
        ensures i < y
      {
        KeptTogether(saved, r3.gs, i, y);
        OthersSymmetric(r.gs, i, y);
      }
    }
  }

  /** No member of the group is open when a descriptor's turn comes exactly when it is opened afresh. */
  lemma AfreshFound(saved: State, r0: State, pos: int -> int, i: nat)
    requires Start(saved, r0) && GroupsOk(saved) && i < |saved.fs| && saved.InUse(i) && !Skip(saved, i)
    ensures var r := Recover(saved, r0, pos, i); FirstInUse(r, Others(r.gs, i)) < 0 <==> Afresh(saved, i)
  {
    hide Recover, Afresh, FirstInUse, Others, GroupsOk, StdGroups, StdOthers, StdFiles, RestFiles, KeptAgree,
         InheritedApart;
    if i < 3 {
      StdRun(saved, r0, pos, i);
      AfreshStd(saved, r0, Recover(saved, r0, pos, i), i);
    } else {
      StdRun(saved, r0, pos, 3);
      RestRun(saved, r0, pos, i);
      AfreshRest(saved, Recover(saved, r0, pos, 3), Recover(saved, r0, pos, i), i);
    }
  }

  /** A descriptor that is open when its turn comes is an inherited stream, without a partner. */
  lemma NoPartner(saved: State, r0: State, pos: int -> int, i: nat)
    requires Start(saved, r0) && GroupsOk(saved) && i < |saved.fs|
    ensures var r := Recover(saved, r0, pos, i); r.fs[i].inuse ==> r.fs[i].ofd == -1
  {
    hide Recover, KeptAgree, InheritedApart, StdOthers, StdGroups, StdDesc, GroupsOk;
    if i < 3 {
      StdRun(saved, r0, pos, i);
    } else {
      RestRun(saved, r0, pos, i);
      assert !Recover(saved, r0, pos, i).InUse(i);
    }
  }

  // ---- partner fields -----------------------------------------------------------------------------

  /** Partner fields after the descriptors below `i`: the position of a file opened afresh, else none. */
  ghost predicate LinksAt(saved: State, r: State, pos: int -> int, i: nat) {
    forall x :: r.InUse(x) ==> r.fs[x].ofd == if x < i && Afresh(saved, x) then pos(x) else -1
  }

  lemma LinksStep(saved: State, r0: State, pos: int -> int, i: nat)
    requires Start(saved, r0) && GroupsOk(saved) && i < |saved.fs|
    requires LinksAt(saved, Recover(saved, r0, pos, i), pos, i)
    ensures LinksAt(saved, Recover(saved, r0, pos, i + 1), pos, i + 1)
  {
    var r, note := Recover(saved, r0, pos, i), NoteOf(saved, i, pos);
    hide Start, GroupsOk, Others, FirstInUse, Left, Hosted;
    if saved.InUse(i) && !Skip(saved, i) {
      AfreshFound(saved, r0, pos, i);
      if Afresh(saved, i) {
        OpenEffect(r, note);
      } else {
        AttachEffect(r, note);
      }
      hide RecoverFile, Afresh, Attached;
    } else {
      assert !Afresh(saved, i);
      hide Afresh, Attached;
    }
  }

  lemma {:induction false} LinksRun(saved: State, r0: State, pos: int -> int, i: nat)
    requires Start(saved, r0) && GroupsOk(saved) && i <= |saved.fs|
    ensures LinksAt(saved, Recover(saved, r0, pos, i), pos, i)
  {
    if i == 0 {
      assert Recover(saved, r0, pos, 0) == r0;
      hide Afresh, GroupsOk;
    } else {
      hide LinksAt, Start, GroupsOk, Recover;
      LinksRun(saved, r0, pos, i - 1);
      LinksStep(saved, r0, pos, i - 1);
    }
  }

  // ---- file records ---------------------------------------------------------------------------------

  /** A file opened afresh has the saved kind, flags and name; of the flags of a dup, only close-on-exec
      is kept. */
  ghost predicate RecordAt(saved: State, r: State, x: int)
    requires saved.InUse(x)
  {
    && r.InUse(x)
    && if Afresh(saved, x)
       then r.fs[x].how == saved.fs[x].how && r.fs[x].flags == saved.fs[x].flags && r.fs[x].name == saved.fs[x].name
       else r.fs[x].flags == if (saved.fs[x].flags / 0x80000) % 2 == 1 then 0x80000 else 0
  }

  ghost predicate RecordsAt(saved: State, r: State, i: nat) {
    forall x :: 0 <= x < i && saved.InUse(x) && !Skip(saved, x) ==> RecordAt(saved, r, x)
  }

  lemma RecordsKept(saved: State, r: State, t: State, i: nat)
    requires RecordsAt(saved, r, i) && |t.fs| == |r.fs|
    requires forall x :: 0 <= x < |r.fs| && x != i ==> t.fs[x] == r.fs[x]
    requires saved.InUse(i) && !Skip(saved, i) ==> RecordAt(saved, t, i)
    ensures RecordsAt(saved, t, i + 1)
  {
    hide Afresh, Skip;
  }

  lemma RecordsStep(saved: State, r0: State, pos: int -> int, i: nat)
    requires Start(saved, r0) && GroupsOk(saved) && i < |saved.fs|
    requires RecordsAt(saved, Recover(saved, r0, pos, i), i)
    ensures RecordsAt(saved, Recover(saved, r0, pos, i + 1), i + 1)
  {
    var r, note := Recover(saved, r0, pos, i), NoteOf(saved, i, pos);
    hide Start, GroupsOk, Others, FirstInUse, Left, Hosted, Afresh, RecordsAt, Attached;
    if saved.InUse(i) && !Skip(saved, i) {
      AfreshFound(saved, r0, pos, i);
      NoPartner(saved, r0, pos, i);
      if Afresh(saved, i) {
        OpenEffect(r, note);
      } else {
        AttachEffect(r, note);
      }
      hide RecoverFile;
    }
    RecordsKept(saved, r, Recover(saved, r0, pos, i + 1), i);
  }

  lemma {:induction false} RecordsRun(saved: State, r0: State, pos: int -> int, i: nat)
    requires Start(saved, r0) && GroupsOk(saved) && i <= |saved.fs|
    ensures RecordsAt(saved, Recover(saved, r0, pos, i), i)
  {
    hide RecordAt, GroupsOk, Recover;
    if i > 0 {
      hide RecordsAt, Start;
      RecordsRun(saved, r0, pos, i - 1);
      RecordsStep(saved, r0, pos, i - 1);
    }
  }

  /** Files opened afresh come in pairs, each at the position that is the number of the other. */
  ghost predicate PositionsPair(saved: State, pos: int -> int) {
    forall a :: Afresh(saved, a) && pos(a) != -1 ==> Afresh(saved, pos(a)) && pos(a) != a && pos(pos(a)) == a
  }

  ghost predicate PositionsInside(saved: State, pos: int -> int) {
    forall a :: Afresh(saved, a) && pos(a) != -1 ==> 0 <= pos(a) < |saved.fs|
  }

  lemma AfreshInUse(saved: State, r0: State, pos: int -> int, x: int)
    requires Start(saved, r0) && GroupsOk(saved) && Afresh(saved, x)
    ensures Recover(saved, r0, pos, |saved.fs|).InUse(x) && 0 <= x < |saved.fs|
  {
    hide Recover, Together, GroupsOk, KeptAgree, InheritedApart, Attached;
    RestRun(saved, r0, pos, |saved.fs|);
  }

  lemma {:induction false} RecoverLength(saved: State, r0: State, pos: int -> int, i: nat)
    requires Start(saved, r0) && i <= |saved.fs|
    ensures |Recover(saved, r0, pos, i).fs| == |saved.fs|
  {
  }

  /** Partner links hold after recovery exactly when the file positions happen to pair up, and stay within
      the table exactly when the positions do. */
  lemma AfterPartners(saved: State, r0: State, pos: int -> int)
    requires Start(saved, r0) && GroupsOk(saved)
    ensures PartnersOk(Recover(saved, r0, pos, |saved.fs|)) <==> PositionsPair(saved, pos)
    ensures LinksInside(Recover(saved, r0, pos, |saved.fs|)) <==> PositionsInside(saved, pos)
  {
    var r := Recover(saved, r0, pos, |saved.fs|);
    LinksRun(saved, r0, pos, |saved.fs|);
    RecoverLength(saved, r0, pos, |saved.fs|);
    forall x | Afresh(saved, x)
      ensures r.InUse(x)
    {
      AfreshInUse(saved, r0, pos, x);
    }
    hide Recover, Afresh, Start, GroupsOk;
    FieldsDecide(saved, r, pos);
  }

  lemma FieldsDecide(saved: State, r: State, pos: int -> int)
    requires |r.fs| == |saved.fs| && LinksAt(saved, r, pos, |saved.fs|)
    requires forall x :: Afresh(saved, x) ==> r.InUse(x)
    ensures PartnersOk(r) <==> PositionsPair(saved, pos)
    ensures LinksInside(r) <==> PositionsInside(saved, pos)
  {
    hide Afresh;
    forall a | r.InUse(a)
      ensures r.fs[a].ofd != -1 <==> Afresh(saved, a) && pos(a) != -1
      ensures Afresh(saved, a) ==> r.fs[a].ofd == pos(a)
    {
    }
    if PartnersOk(r) {
      forall a | Afresh(saved, a) && pos(a) != -1
        ensures Afresh(saved, pos(a)) && pos(a) != a && pos(pos(a)) == a
      {
        assert r.InUse(a) && r.fs[a].ofd == pos(a);
        assert r.InUse(pos(a)) && r.fs[pos(a)].ofd == a;
      }
    }
    if PositionsPair(saved, pos) {
      forall a | r.InUse(a) && r.fs[a].ofd != -1
        ensures r.InUse(r.fs[a].ofd) && r.fs[a].ofd != a && r.fs[r.fs[a].ofd].ofd == a
      {
        assert Afresh(saved, a) && r.fs[a].ofd == pos(a);
        assert r.InUse(pos(a));
      }
    }
    if LinksInside(r) {
      assert forall a :: Afresh(saved, a) ==> r.InUse(a);
    }
  }

  // ---- dup groups ----------------------------------------------------------------------------------

  /** Group members below i are under one name. */
  ghost predicate NamesAt(r: State, i: nat) {
    forall a, b :: r.InUse(a) && r.InUse(b) && a < i && b < i && Together(r.gs, a, b) ==> r.fs[a].name == r.fs[b].name
  }

  lemma NamesStart(saved: State, r3: State)
    requires GroupsOk(saved) && StdGroups(saved, r3.gs, 3) && StdOthers(saved, r3.gs, 3)
    ensures NamesAt(r3, 3)
  {
    KeptGroups(saved, r3.gs);
    forall a, b | r3.InUse(a) && r3.InUse(b) && a < 3 && b < 3 && Together(r3.gs, a, b)
      ensures a == b
    {
      TogetherGrouped(r3.gs, a, b);
      TogetherGrouped(r3.gs, b, a);
      if a != b {
        KeptTogether(saved, r3.gs, a, b);
        TogetherSame(saved.gs, a, b);
        KeptStdApart(saved, if a < b then a else b, if a < b then b else a);
      }
    }
    hide Together, Grouped, StdGroups, StdOthers, GroupsOk;
  }

  lemma NamesStep(saved: State, r: State, pos: int -> int, i: nat)
    requires Hosted(r) && 3 <= i < |saved.fs| == |r.fs| && !r.InUse(i) && (forall x :: r.InUse(x) ==> x < i)
    requires WellFormed(r.gs) && NamesAt(r, i)
    ensures NamesAt(RecoverOne(saved, r, pos, i), i + 1)
  {
    var r', note := RecoverOne(saved, r, pos, i), NoteOf(saved, i, pos);
    if !saved.InUse(i) {
      return;
    }
    assert !Inherited(i, note.name);
    FirstInUseIs(r, Others(r.gs, i));
    var m := FirstInUse(r, Others(r.gs, i));
    if m >= 0 {
      AttachEffect(r, note);
    } else {
      OpenEffect(r, note);
    }
    hide RecoverFile, FirstInUse, Inherited, Hosted;
    forall b | r.InUse(b) && b < i && Together(r.gs, i, b)
      ensures m >= 0 && r'.fs[i].name == r.fs[b].name
    {
      OthersSymmetric(r.gs, i, b);
      OthersSymmetric(r.gs, i, m);
      TogetherVia(r.gs, i, m, b);
    }
    hide Others, WellFormed;
    forall a, b | r'.InUse(a) && r'.InUse(b) && a < i + 1 && b < i + 1 && Together(r'.gs, a, b)
      ensures r'.fs[a].name == r'.fs[b].name
    {
      TogetherSame(r.gs, a, b);
      hide Together;
      if a < i && b < i {
        assert r.InUse(a) && r.InUse(b);
      }
    }
  }

  lemma {:induction false} NamesRun(saved: State, r0: State, pos: int -> int, i: nat)
    requires Start(saved, r0) && GroupsOk(saved) && 3 <= i <= |saved.fs|
    ensures NamesAt(Recover(saved, r0, pos, i), i)
  {
    hide GroupsOk, StdGroups, StdOthers, NamesAt, RecoverOne, KeptAgree, InheritedApart, StdFiles;
    StdRun(saved, r0, pos, 3);
    var r3 := Recover(saved, r0, pos, 3);
    if i == 3 {
      NamesStart(saved, r3);
    } else {
      NamesRun(saved, r0, pos, i - 1);
      RestRun(saved, r0, pos, i - 1);
      StdWellFormed(saved, r3.gs);
      var r := Recover(saved, r0, pos, i - 1);
      NamesStep(saved, r, pos, i - 1);
    }
  }

  lemma StdWellFormed(saved: State, gs: Groups)
    requires StdGroups(saved, gs, 3)
    ensures WellFormed(gs)
  {
  }

  /** The invariant of a running table holds after recovery. */
  lemma AfterOk(saved: State, r0: State, pos: int -> int)
    requires Start(saved, r0) && GroupsOk(saved)
    ensures Ok(Recover(saved, r0, pos, |saved.fs|))
  {
    var r3, r := Recover(saved, r0, pos, 3), Recover(saved, r0, pos, |saved.fs|);
    StdRun(saved, r0, pos, 3);
    RestRun(saved, r0, pos, |saved.fs|);
    NamesRun(saved, r0, pos, |saved.fs|);
    KeptGroups(saved, r3.gs);
    StdWellFormed(saved, r3.gs);
    hide Recover, StdGroups, StdOthers, StdFiles, KeptAgree, InheritedApart, WellFormed, Together, Grouped, Attached;
  }

  // ---- groups and sharing ----------------------------------------------------------------------------

  /** The standard descriptor is on an inherited stream after recovery. */
  predicate OnInherited(saved: State, x: int) {
    !saved.InUse(x) || Skip(saved, x) || Attached(saved, x)
  }

  /** Which one. */
  function Source(saved: State, x: int): int {
    if Attached(saved, x) then Cand(saved, x) else x
  }

  /** No two of the standard descriptors end up on one inherited description. */
  ghost predicate SourcesApart(saved: State, r0: State)
    requires Start(saved, r0) && GroupsOk(saved)
  {
    forall x, y :: 0 <= x < y < 3 && OnInherited(saved, x) && OnInherited(saved, y) ==>
      SourceDesc(saved, r0, x) != SourceDesc(saved, r0, y)
  }

  ghost function SourceDesc(saved: State, r0: State, x: int): nat
    requires Start(saved, r0) && GroupsOk(saved) && 0 <= x < 3
  {
    assert 0 <= Source(saved, x) < 3 by {
      if Attached(saved, x) {
        CandIs(saved, x);
      }
    }
    assert r0.InUse(Source(saved, x));
    r0.desc[Source(saved, x)]
  }

  /** A descriptor from 3 on is on a description opened since, or on that of the inherited stream of its group. */
  ghost predicate OriginAt(saved: State, r0: State, r: State, b: int)
    requires Hosted(r) && Hosted(r0) && r.InUse(b)
  {
    r0.next <= r.desc[b] ||
    exists y :: 0 <= y < 3 && Skip(saved, y) && Together(r.gs, b, y) && r0.InUse(y) && r.desc[b] == r0.desc[y]
  }

  ghost predicate OriginsAt(saved: State, r0: State, r: State, i: nat)
    requires Hosted(r) && Hosted(r0)
  {
    forall b :: 3 <= b < i && r.InUse(b) ==> OriginAt(saved, r0, r, b)
  }

  /** What a new dup is attached to passes its origin on. */
  lemma OriginPasses(saved: State, r0: State, r: State, m: int, i: int)
    requires Start(saved, r0) && Hosted(r) && WellFormed(r.gs) && r.InUse(m) && Together(r.gs, i, m)
    requires m < 3 ==> 0 <= m && Kept(saved, m) && StdDesc(saved, r0, r, m)
    requires m >= 3 ==> OriginAt(saved, r0, r, m)
    ensures r0.next <= r.desc[m] ||
            exists y :: 0 <= y < 3 && Skip(saved, y) && Together(r.gs, i, y) && r0.InUse(y) && r.desc[m] == r0.desc[y]
  {
    if r.desc[m] < r0.next {
      if m < 3 {
        assert Skip(saved, m) && r0.InUse(m);
      } else {
        var y :| 0 <= y < 3 && Skip(saved, y) && Together(r.gs, m, y) && r0.InUse(y) && r.desc[m] == r0.desc[y];
        TogetherVia(r.gs, i, m, y);
      }
    }
  }

  lemma OriginsStep(saved: State, r0: State, r: State, pos: int -> int, i: nat)
    requires Start(saved, r0) && Hosted(r) && 3 <= i < |saved.fs| == |r.fs| && !r.InUse(i) && r0.next <= r.next
    requires WellFormed(r.gs) && (forall x :: r.InUse(x) ==> x < i) && (forall x :: Grouped(r.gs, x) ==> Kept(saved, x))
    requires (forall x :: 0 <= x < 3 ==> x in r.desc && StdDesc(saved, r0, r, x)) && OriginsAt(saved, r0, r, i)
    ensures var r' := RecoverOne(saved, r, pos, i); OriginsAt(saved, r0, r', i + 1) && r0.next <= r'.next
  {
    var r', note := RecoverOne(saved, r, pos, i), NoteOf(saved, i, pos);
    if !saved.InUse(i) {
      return;
    }
    assert !Inherited(i, note.name);
    var m := FirstInUse(r, Others(r.gs, i));
    if m >= 0 {
      AttachEffect(r, note);
      OthersSymmetric(r.gs, i, m);
      OthersMembers(r.gs, i);
      hide RecoverFile, FirstInUse, Inherited, Others, StdDesc;
      OriginPasses(saved, r0, r, m, i);
      assert OriginAt(saved, r0, r', i);
    } else {
      OpenEffect(r, note);
    }
    hide RecoverFile, FirstInUse, Inherited, Others, Hosted, Together, Kept, StdDesc, WellFormed;
    forall b | 3 <= b < i + 1 && r'.InUse(b)
      ensures OriginAt(saved, r0, r', b)
    {
      if b < i {
        assert r.InUse(b) && OriginAt(saved, r0, r, b);
      }
    }
  }

  lemma {:induction false} OriginsRun(saved: State, r0: State, pos: int -> int, i: nat)
    requires Start(saved, r0) && GroupsOk(saved) && 3 <= i <= |saved.fs|
    ensures var r := Recover(saved, r0, pos, i);
            OriginsAt(saved, r0, r, i) && r0.next <= r.next &&
            forall x :: 0 <= x < 3 ==> x in r.desc && StdDesc(saved, r0, r, x)
  {
    hide GroupsOk, StdGroups, StdOthers, RecoverOne, KeptAgree, InheritedApart, OriginAt, StdDesc, WellFormed, Kept,
         Grouped;
    StdRun(saved, r0, pos, 3);
    RestRun(saved, r0, pos, i);
    var r3, r := Recover(saved, r0, pos, 3), Recover(saved, r0, pos, i);
    forall x | 0 <= x < 3
      ensures x in r.desc && StdDesc(saved, r0, r, x)
    {
      StdDescStays(saved, r0, r3, r, x);
    }
    if i > 3 {
      OriginsRun(saved, r0, pos, i - 1);
      RestRun(saved, r0, pos, i - 1);
      StdWellFormed(saved, r3.gs);
      KeptGroups(saved, r3.gs);
      hide StdFiles;
      OriginsStep(saved, r0, Recover(saved, r0, pos, i - 1), pos, i - 1);
    }
  }

  /** The standard descriptors are in no common group after recovery. */
  lemma StdUngrouped(saved: State, gs: Groups, x: int, y: int)
    requires GroupsOk(saved) && StdGroups(saved, gs, 3) && StdOthers(saved, gs, 3) && 0 <= x < y < 3
    ensures !Together(gs, x, y)
  {
    KeptGroups(saved, gs);
    if Together(gs, x, y) {
      TogetherGrouped(gs, x, y);
      TogetherGrouped(gs, y, x);
      KeptTogether(saved, gs, x, y);
      KeptStdApart(saved, x, y);
    }
  }

  /** What is known of the recovered table, for deciding whether groups and sharing agree. */
  ghost predicate Settled(saved: State, r0: State, r: State)
    requires Start(saved, r0)
  {
    && Hosted(r) && r0.next <= r.next
    && (forall fd :: r.InUse(fd) <==> 0 <= fd < 3 || saved.InUse(fd))
    && (forall x :: 0 <= x < 3 ==> x in r.desc && StdDesc(saved, r0, r, x))
    && (forall x, y :: 0 <= x < y < 3 ==> !Together(r.gs, x, y))
    && (forall x, y :: 0 <= x < y < 3 && r0.next <= r.desc[x] ==> r.desc[x] != r.desc[y])
    && (forall x :: Grouped(r.gs, x) ==> Kept(saved, x))
    && (forall b :: 3 <= b && r.InUse(b) ==> OriginAt(saved, r0, r, b))
    && (InheritedApart(saved, r0) ==>
       forall a, b :: Kept(saved, a) && Kept(saved, b) && r.InUse(a) && r.InUse(b) && a != b ==>
          (Together(r.gs, a, b) <==> r.desc[a] == r.desc[b]))
  }

  lemma IsSettled(saved: State, r0: State, pos: int -> int)
    requires Start(saved, r0) && GroupsOk(saved)
    ensures Settled(saved, r0, Recover(saved, r0, pos, |saved.fs|))
  {
    hide Recover, GroupsOk, StdGroups, StdOthers, OriginAt, StdDesc, Kept, Grouped, Together, InheritedApart;
    var r3, r := Recover(saved, r0, pos, 3), Recover(saved, r0, pos, |saved.fs|);
    StdRun(saved, r0, pos, 3);
    RestRun(saved, r0, pos, |saved.fs|);
    OriginsRun(saved, r0, pos, |saved.fs|);
    KeptGroups(saved, r3.gs);
    forall x, y | 0 <= x < y < 3
      ensures !Together(r.gs, x, y)
    {
      StdUngrouped(saved, r3.gs, x, y);
    }
  }

  /** Standard descriptors on inherited streams have the descriptions of their sources, the others fresh ones. */
  lemma SourceIs(saved: State, r0: State, r: State, x: int)
    requires Start(saved, r0) && GroupsOk(saved) && 0 <= x < 3 && x in r.desc && StdDesc(saved, r0, r, x)
    ensures if OnInherited(saved, x) then r.desc[x] == SourceDesc(saved, r0, x) < r0.next else r0.next <= r.desc[x]
  {
    assert r0.InUse(Source(saved, x)) ==> r0.desc[Source(saved, x)] < r0.next;
    hide GroupsOk, Skip, Cand;
  }

  lemma StdDescsApart(saved: State, r0: State, r: State)
    requires Start(saved, r0) && GroupsOk(saved) && Settled(saved, r0, r)
    ensures SourcesApart(saved, r0) <==> forall x, y :: 0 <= x < y < 3 ==> r.desc[x] != r.desc[y]
  {
    forall x | 0 <= x < 3
      ensures if OnInherited(saved, x) then r.desc[x] == SourceDesc(saved, r0, x) < r0.next else r0.next <= r.desc[x]
    {
      SourceIs(saved, r0, r, x);
    }
    hide GroupsOk, OnInherited, SourceDesc, Start, StdDesc, OriginAt, Together, Kept, InheritedApart;
  }

  lemma ApartInherited(saved: State, r0: State)
    requires Start(saved, r0) && GroupsOk(saved) && SourcesApart(saved, r0)
    ensures InheritedApart(saved, r0)
  {
    forall a, b | 0 <= a < b < 3 && Skip(saved, a) && Skip(saved, b)
      ensures r0.desc[a] != r0.desc[b]
    {
      assert OnInherited(saved, a) && OnInherited(saved, b);
      assert SourceDesc(saved, r0, a) == r0.desc[a] && SourceDesc(saved, r0, b) == r0.desc[b];
    }
  }

  /** A descriptor from 3 on and a standard one that has no group. */
  lemma UngroupedApart(saved: State, r0: State, r: State, b: int, x: int)
    requires Start(saved, r0) && GroupsOk(saved) && Settled(saved, r0, r) && 3 <= b && r.InUse(b) && 0 <= x < 3 &&
             !Kept(saved, x)
    requires forall u, v :: 0 <= u < v < 3 ==> r.desc[u] != r.desc[v]
    ensures !Together(r.gs, b, x) && !Together(r.gs, x, b) && r.desc[b] != r.desc[x]
  {
    TogetherGrouped(r.gs, b, x);
    SourceIs(saved, r0, r, x);
    assert OnInherited(saved, x);
    assert OriginAt(saved, r0, r, b);
    hide GroupsOk, SourceDesc, Together, Grouped;
    if r.desc[b] < r0.next {
      var y :| 0 <= y < 3 && Skip(saved, y) && Together(r.gs, b, y) && r0.InUse(y) && r.desc[b] == r0.desc[y];
      assert StdDesc(saved, r0, r, y);
      assert y != x;
    }
  }

  lemma PairAgrees(saved: State, r0: State, r: State, a: int, b: int)
    requires Start(saved, r0) && GroupsOk(saved) && Settled(saved, r0, r) && InheritedApart(saved, r0)
    requires r.InUse(a) && r.InUse(b) && a < b && forall u, v :: 0 <= u < v < 3 ==> r.desc[u] != r.desc[v]
    ensures Together(r.gs, a, b) <==> r.desc[a] == r.desc[b]
  {
    if b < 3 {
    } else if Kept(saved, a) {
      assert Kept(saved, b);
    } else {
      assert a < 3;
      hide Settled, InheritedApart;
      UngroupedApart(saved, r0, r, b, a);
    }
  }

  /** After recovery groups and sharing agree exactly when no two standard descriptors end up on one
      inherited description. */
  lemma AfterAgrees(saved: State, r0: State, pos: int -> int)
    requires Start(saved, r0) && GroupsOk(saved)
    ensures Agrees(Recover(saved, r0, pos, |saved.fs|)) <==> SourcesApart(saved, r0)
  {
    var r := Recover(saved, r0, pos, |saved.fs|);
    hide Recover, GroupsOk, SourcesApart, Start;
    IsSettled(saved, r0, pos);
    StdDescsApart(saved, r0, r);
    if SourcesApart(saved, r0) {
      ApartInherited(saved, r0);
      hide Settled;
      forall a, b | r.InUse(a) && r.InUse(b) && a != b
        ensures Together(r.gs, a, b) <==> r.desc[a] == r.desc[b]
      {
        PairAgrees(saved, r0, r, if a < b then a else b, if a < b then b else a);
        TogetherSame(r.gs, a, b);
      }
    } else {
      var x, y :| 0 <= x < y < 3 && r.desc[x] == r.desc[y];
      assert r.InUse(x) && r.InUse(y) && !Together(r.gs, x, y);
    }
  }

  // ---- two recoveries --------------------------------------------------------------------------------

  /** A table of eight slots with the named files open, and nothing else set. */
  function Table(names: seq<string>, gs: Groups, desc: map<int, nat>): State {
    State(seq(8, i requires 0 <= i => if i < |names| then File(true, Open, 0, 0, -1, names[i], false)
                                      else File(false, Open, 0, 0, -1, "", false)), gs, desc, |names|)
  }

  lemma TableIs(names: seq<string>, gs: Groups, desc: map<int, nat>)
    requires |names| <= 8
    ensures var s := Table(names, gs, desc);
            s.gs == gs && s.desc == desc && s.next == |names| && |s.fs| == 8 &&
            (forall x :: s.InUse(x) <==> 0 <= x < |names|) &&
            (forall x :: 0 <= x < |names| ==> s.fs[x].name == names[x] && s.fs[x].ofd == -1)
  {
  }

  const STREAMS: seq<string> := ["[stdin]", "[stdout]", "[stderr]"]

  /** The recovering process: the streams are three different files. */
  function Recovering(gs: Groups): State {
    Table(STREAMS, gs, map[0 := 0, 1 := 1, 2 := 2])
  }

  lemma RecoveringStarts(saved: State)
    requires |saved.fs| == 8
    ensures Start(saved, Recovering(saved.gs)) && Recovering(saved.gs).desc == map[0 := 0, 1 := 1, 2 := 2]
  {
    TableIs(STREAMS, saved.gs, map[0 := 0, 1 := 1, 2 := 2]);
    hide Table;
  }

  /** One more file. */
  function OneFile(): State {
    Table(STREAMS + ["/f"], [], map[0 := 0, 1 := 1, 2 := 2, 3 := 3])
  }

  lemma OneFileIs()
    ensures var s := OneFile();
            |s.fs| == 8 && s.gs == [] && Ok(s) && Agrees(s) && PartnersOk(s) && s.InUse(3) && !s.InUse(7)
  {
    TableIs(STREAMS + ["/f"], [], map[0 := 0, 1 := 1, 2 := 2, 3 := 3]);
    hide Table;
  }

  /** A file read up to position 7 has descriptor 7 for its partner after recovery. */
  lemma PositionBecomesPartner()
    ensures var saved, r0 := OneFile(), Recovering([]);
            Ok(saved) && Agrees(saved) && PartnersOk(saved) && Start(saved, r0) && |saved.fs| == 8 &&
            !PartnersOk(Recover(saved, r0, _ => 7, 8))
  {
    var saved := OneFile();
    OneFileIs();
    RecoveringStarts(saved);
    hide OneFile, Recovering, Recover, Start, Agrees, PartnersOk, GroupsOk;
    assert Afresh(saved, 3) && !Afresh(saved, 7);
    AfterPartners(saved, Recovering([]), _ => 7);
  }

  /** Standard error was redirected to standard output on a terminal. */
  function Redirected(): State {
    Table(["[stdin]", "[stdout]", "[stdout]"], [[1, 2]], map[0 := 0, 1 := 1, 2 := 1])
  }

  lemma PairGroup()
    ensures WellFormed([[1, 2]]) && Others([[1, 2]], 2) == [1] && Others([[1, 2]], 1) == [2] &&
            Others([[1, 2]], 0) == []
    ensures forall a, b :: Together([[1, 2]], a, b) <==> a in [1, 2] && b in [1, 2]
    ensures forall a :: Grouped([[1, 2]], a) <==> a in [1, 2]
  {
    var gs := [[1, 2]];
    assert gs[0] == [1, 2];
    assert GroupOf(gs, 0) == 1 && GroupOf(gs, 1) == 0 && GroupOf(gs, 2) == 0 by {
      assert gs[1..] == [];
    }
    ExceptHead(1, [2], 2);
    ExceptHead(1, [2], 1);
    ExceptSingle(2, 2);
    ExceptSingle(2, 1);
    assert [1, 2] == [1] + [2] && [1] + [] == [1];
  }

  lemma RedirectedIs()
    ensures var s := Redirected();
            |s.fs| == 8 && s.gs == [[1, 2]] && Ok(s) && Agrees(s) && (forall x :: s.InUse(x) <==> 0 <= x < 3) &&
            s.fs[1].name == s.fs[2].name == "[stdout]"
  {
    TableIs(["[stdin]", "[stdout]", "[stdout]"], [[1, 2]], map[0 := 0, 1 := 1, 2 := 1]);
    PairGroup();
    hide Table, Together, Grouped, WellFormed;
  }

  lemma RedirectedRecovers()
    ensures var s := Redirected(); Skip(s, 1) && !Skip(s, 2) && Attached(s, 2) && Cand(s, 2) == 1
  {
    RedirectedIs();
    PairGroup();
    hide Redirected, Ok, Agrees;
    assert "[stdout]" != "[stderr]" by {
      assert "[stdout]"[4] != "[stderr]"[4];
    }
  }

  /** Its sharing is restored, but not its group: the next snapshot will not know of the sharing. */
  lemma GroupIsLost()
    ensures var saved, r0 := Redirected(), Recovering([[1, 2]]);
            Hosted(saved) && Start(saved, r0) && GroupsOk(saved) && Agrees(saved) && |saved.fs| == 8 &&
            SharingRestored(saved, Recover(saved, r0, _ => 0, 8)) && !Agrees(Recover(saved, r0, _ => 0, 8)) &&
            !Together(Recover(saved, r0, _ => 0, 8).gs, 1, 2)
  {
    var saved, r0 := Redirected(), Recovering([[1, 2]]);
    RedirectedIs();
    RedirectedRecovers();
    RecoveringStarts(saved);
    PairGroup();
    hide Redirected, Recovering, Recover, GroupsOk, Attached, Cand, Together, Agrees, SharingRestored;
    assert OnInherited(saved, 1) && OnInherited(saved, 2);
    assert SourceDesc(saved, r0, 1) == 1 && SourceDesc(saved, r0, 2) == 1;
    AfterAgrees(saved, r0, _ => 0);
    IsSettled(saved, r0, _ => 0);
    SharingSurvives(saved, r0, _ => 0);
    NoOneAstray(saved, r0);
  }

  /** One redirected stream, attached to the stream it was redirected to. */
  lemma NoOneAstray(saved: State, r0: State)
    requires Start(saved, r0) && GroupsOk(saved) && Skip(saved, 1) && Cand(saved, 2) == 1 && Together(saved.gs, 2, 1)
    requires !Attached(saved, 0) && r0.desc == map[0 := 0, 1 := 1, 2 := 2]
    ensures InheritedApart(saved, r0) && AllLand(saved, r0)
  {
    assert Lands(saved, r0, 2, 1);
  }
}
