/** Snapshot recovery as the source runs it: the dup note is read back, then one file note after
    another is installed into the table (km/km_filesys.c). */
module FdRestore {
  import opened DupGroups
  import opened FdState
  import opened FdTable
  import opened FdRecovery
  import opened FdAfter
  import DupNotes

  // km_fs_check_for_dups_nolock
  method CheckForDups(t: Table, fd: int) returns (r: int)
    requires forall a :: Grouped(t.groups, a) ==> 0 <= a < t.files.Length
    ensures r == if !Grouped(t.groups, fd) then -1
                 else if FirstInUse(t.Abs(), Others(t.groups, fd)) >= 0 then FirstInUse(t.Abs(), Others(t.groups, fd))
                 else -2
  {
    var grp := 0;
    while grp < |t.groups|
      invariant grp <= |t.groups| && forall k :: 0 <= k < grp ==> fd !in t.groups[k]
    {
      var group := t.groups[grp];
      var i := 0;
      while i < |group| && group[i] != fd
        invariant i <= |group| && forall j :: 0 <= j < i ==> group[j] != fd
      {
        i := i + 1;
      }
      if i < |group| {
        assert forall a :: a in group ==> Grouped(t.groups, a);
        r := FirstReady(t, group, fd);
        assert GroupOf(t.groups, fd) == grp;
        FirstInUseIs(t.Abs(), Except(group, fd));
        ExceptMembers(group, fd);
        return;
      }
      grp := grp + 1;
    }
    r := -1;
  }

  // its second loop: the first other member of the group that is open
  method FirstReady(t: Table, group: seq<int>, fd: int) returns (r: int)
    requires forall a :: a in group ==> 0 <= a < t.files.Length
    ensures var m := FirstInUse(t.Abs(), Except(group, fd)); r == if m >= 0 then m else -2
  {
    var j := 0;
    while j < |group|
      invariant j <= |group|
      invariant FirstInUse(t.Abs(), Except(group[j..], fd)) == FirstInUse(t.Abs(), Except(group, fd))
    {
      assert group[j..] == [group[j]] + group[j + 1..];
      assert group[j] in group;
      if group[j] != fd && t.files[group[j]].inuse {
        return group[j];
      }
      j := j + 1;
    }
    r := -2;
  }

  // km_fs_recover_open_file for a regular file, when the host's calls succeed
  method RecoverOpenFile(t: Table, note: Note)
    requires Hosted(t.Abs()) && 0 <= note.fd < t.files.Length
    requires forall a :: Grouped(t.groups, a) ==> 0 <= a < t.files.Length
    requires t.files[note.fd].inuse ==> t.files[note.fd].ofd == -1
    modifies t, t.files
    ensures t.Abs() == RecoverFile(old(t.Abs()), note)
  {
    if Inherited(note.fd, note.name) {
      return;
    }
    FirstInUseIs(t.Abs(), Others(t.groups, note.fd));
    OthersMembers(t.groups, note.fd);
    var dupFd := CheckForDups(t, note.fd);
    assert !Grouped(t.groups, note.fd) ==> Others(t.groups, note.fd) == [];
    if dupFd >= 0 {
      t.InstallDup(dupFd, note.fd, CloseOnExec(note.flags), true);
      return;
    }
    t.files[note.fd] := t.files[note.fd].(inuse := true, how := note.how, flags := note.flags, name := note.name,
                                                  ofd := note.pos);
    t.desc, t.next := t.desc[note.fd := t.next], t.next + 1;
  }

  lemma {:induction false} RecoverGroups(saved: State, r0: State, pos: int -> int, i: nat)
    requires Start(saved, r0) && WellFormed(saved.gs) && i <= |saved.fs|
    ensures var r := Recover(saved, r0, pos, i);
            WellFormed(r.gs) && forall a :: Grouped(r.gs, a) ==> Grouped(saved.gs, a)
  {
    hide WellFormed, Grouped, Others, FirstInUse, Left;
    if i > 0 {
      RecoverGroups(saved, r0, pos, i - 1);
      LeftWellFormed(Recover(saved, r0, pos, i - 1).gs, i - 1);
    }
  }

  /** What recovery makes of the saved table, `r0` being the table it started from: the invariant of a
      running table, the records of the files, and exactly when sharing, partner links and the agreement of
      groups with sharing. */
  ghost predicate Restored(saved: State, r0: State, r: State, pos: int -> int)
    requires Start(saved, r0) && Ok(saved)
  {
    && Ok(r) && RecordsAt(saved, r, |saved.fs|)
    && (Agrees(saved) ==> (SharingRestored(saved, r) <==> InheritedApart(saved, r0) && AllLand(saved, r0)))
    && (Agrees(r) <==> SourcesApart(saved, r0))
    && (PartnersOk(r) <==> PositionsPair(saved, pos))
    && (LinksInside(r) <==> PositionsInside(saved, pos))
  }

  lemma IsRestored(saved: State, r0: State, pos: int -> int)
    requires Start(saved, r0) && Ok(saved)
    ensures Restored(saved, r0, Recover(saved, r0, pos, |saved.fs|), pos)
  {
    hide SharingRestored, AllLand, InheritedApart, Recover, Start, Agrees, GroupsOk, SourcesApart, PartnersOk,
         PositionsPair, LinksInside, PositionsInside, RecordsAt;
    RecordsRun(saved, r0, pos, |saved.fs|);
    AfterOk(saved, r0, pos);
    AfterAgrees(saved, r0, pos);
    AfterPartners(saved, r0, pos);
    if Agrees(saved) {
      SharingSurvives(saved, r0, pos);
    }
  }

  /** The saved files are recovered in ascending order. */
  method RecoverOpenFiles(t: Table, files: seq<File>, pos: int -> int, ghost saved: State)
    requires saved.fs == files && Ok(saved) && Start(saved, t.Abs())
    modifies t, t.files
    ensures t.Abs() == Recover(saved, old(t.Abs()), pos, |files|)
    ensures t.Valid() && Restored(saved, old(t.Abs()), t.Abs(), pos)
  {
    ghost var r0 := t.Abs();
    IsRestored(saved, r0, pos);
    assert Recover(saved, r0, pos, 0) == r0;
    hide Restored, RecoverFile, Recover, Start, GroupsOk, Grouped;
    var i := 0;
    while i < |files|
      invariant i <= |files| && t.Abs() == Recover(saved, r0, pos, i)
    {
      NoPartner(saved, r0, pos, i);
      GroupedInTable(saved, r0, pos, i);
      RecoverStep(saved, r0, pos, i);
      if files[i].inuse {
        RecoverOpenFile(t, Note(i, files[i].how, files[i].flags, files[i].name, pos(i)));
      }
      i := i + 1;
    }
    IsValid(saved, r0, t.Abs(), pos);
  }

  lemma RecoverStep(saved: State, r0: State, pos: int -> int, i: nat)
    requires Hosted(r0) && i < |saved.fs| == |r0.fs|
    ensures var r := Recover(saved, r0, pos, i);
            Recover(saved, r0, pos, i + 1) == if saved.fs[i].inuse then RecoverFile(r, NoteOf(saved, i, pos)) else r
  {
    hide RecoverFile;
  }

  lemma IsValid(saved: State, r0: State, r: State, pos: int -> int)
    requires Start(saved, r0) && Ok(saved) && Restored(saved, r0, r, pos)
    ensures Ok(r)
  {
  }

  /** Snapshot and restore from end to end: the groups of one table are written as a note, read back into
      the table of the recovering process, and its files are recovered. */
  method SnapshotRestore(s: Table, t: Table, pos: int -> int)
    requires s != t && s.files != t.files && s.Valid() && s.files.Length == t.files.Length >= 3 && Hosted(t.Abs())
    requires forall fd :: t.Abs().InUse(fd) <==> 0 <= fd < 3
    requires forall fd :: 0 <= fd < 3 ==> t.files[fd].ofd == -1
    modifies t, t.files
    ensures t.Valid()
    ensures var r0 := old(t.Abs()).(gs := s.groups);
            Start(s.Abs(), r0) && t.Abs() == Recover(s.Abs(), r0, pos, s.files.Length) &&
            Restored(s.Abs(), r0, t.Abs(), pos)
  {
    ghost var saved, before := s.Abs(), t.Abs();
    Loaded(saved, before);
    hide Restored, Recover, Start, GroupsOk, DupNotes.NoteWords, DupNotes.GroupWords, DupNotes.NotesLength;
    var length := DupNotes.DupNotesLength(s.groups);
    var buf := new int[length / 4];
    var cur := DupNotes.CoreDupWrite(s.groups, buf);
    BodyOfNote(s.groups);
    var words := buf[..cur];
    t.groups := DupNotes.RecoverDupData(words, 4, s.groups);
    assert t.Abs() == before.(gs := saved.gs) && s.Abs() == saved;
    RecoverOpenFiles(t, s.files[..], pos, saved);
  }

  /** The recovering process once it has the saved groups. */
  lemma Loaded(saved: State, r: State)
    requires |saved.fs| == |r.fs| >= 3 && Hosted(r) && (forall fd :: r.InUse(fd) <==> 0 <= fd < 3)
    requires forall fd :: 0 <= fd < 3 ==> r.fs[fd].ofd == -1
    ensures Start(saved, r.(gs := saved.gs))
  {
    var r0 := r.(gs := saved.gs);
    assert forall fd :: r0.InUse(fd) <==> r.InUse(fd);
  }

  /** The groups follow the header of a note. */
  lemma BodyOfNote(gs: Groups)
    ensures |DupNotes.NoteWords(gs)| >= 5 && [|gs|] + DupNotes.GroupWords(gs) == DupNotes.NoteWords(gs)[4..]
  {
  }

  lemma GroupedInTable(saved: State, r0: State, pos: int -> int, i: nat)
    requires Start(saved, r0) && GroupsOk(saved) && i <= |saved.fs|
    ensures forall a :: Grouped(Recover(saved, r0, pos, i).gs, a) ==> 0 <= a < |saved.fs|
  {
    RecoverGroups(saved, r0, pos, i);
    hide Recover, WellFormed, Grouped;
  }
}
