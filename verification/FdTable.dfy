/** The guest file descriptor table as the source keeps it: an array of file records and the
    growable dup_data arrays (km/km_filesys.c). Every call is proved to be one step of FdState, and to have the effect
    FdEffects states. */
module FdTable {
  import opened DupGroups
  import opened FdEffects
  import opened FdState

  const EBADF: int := -9
  const EINVAL: int := -22

  class Table {
    const files: array<File> // guest_files
    var groups: Groups // dup_data
    ghost var desc: map<int, nat> // the host's open file descriptions
    ghost var next: nat

    ghost function Abs(): State
      reads this, files
    {
      State(files[..], groups, desc, next)
    }

    ghost predicate Valid()
      reads this, files
    {
      Ok(Abs())
    }

    // km_fs_init, first invocation
    constructor (nfdmap: nat, names: seq<string>, ghost inherited: map<int, nat>, ghost fresh': nat)
      requires nfdmap >= 3 && |names| == 3
      requires inherited.Keys == {0, 1, 2} && forall fd :: fd in inherited ==> inherited[fd] < fresh'
      ensures Initial(Abs()) && Valid() && PartnersOk(Abs()) && fresh(files) && files.Length == nfdmap &&
              desc == inherited
    {
      files := new File[nfdmap](i requires 0 <= i =>
        if i < 3 then File(true, Open, if i == 0 then 0 else 1, 0, -1, names[i], false)
        else File(false, Open, 0, 0, 0, "", false));
      groups, desc, next := [], inherited, fresh';
      new;
      InitialAgrees(Abs());
    }

    // the search of km_fs_add_to_dup_data and km_fd_close_dup: group and place of a descriptor
    method Find(fd: int) returns (grp: nat, i: nat)
      ensures grp == GroupOf(groups, fd) <= |groups|
      ensures grp < |groups| ==> i == Place(groups[grp], fd) < |groups[grp]|
    {
      grp, i := 0, 0;
      while grp < |groups|
        invariant grp <= |groups| && forall k :: 0 <= k < grp ==> fd !in groups[k]
      {
        i := 0;
        while i < |groups[grp]|
          invariant i <= |groups[grp]| && forall j :: 0 <= j < i ==> groups[grp][j] != fd
        {
          if groups[grp][i] == fd {
            return;
          }
          i := i + 1;
        }
        grp := grp + 1;
      }
    }

    // km_fs_add_to_dup_data
    method AddToDupData(newFd: int, oldFd: int, recovery: bool)
      modifies `groups
      ensures groups == if recovery then old(groups) else Joined(old(groups), newFd, oldFd)
    {
      if recovery {
        return;
      }
      var grp, _ := Find(oldFd);
      if grp < |groups| {
        groups := groups[grp := groups[grp] + [newFd]];
      } else {
        groups := groups + [[oldFd, newFd]];
      }
    }

    // km_fd_close_dup
    method CloseDup(fd: int)
      modifies `groups
      ensures groups == Left(old(groups), fd)
    {
      var grp, i := Find(fd);
      if grp < |groups| {
        var group := groups[grp];
        if |group| > 2 {
          groups := groups[grp := group[..i] + group[i + 1..]];
        } else {
          groups := groups[..grp] + groups[grp + 1..];
        }
      }
    }

    // km_add_guest_fd_internal
    method AddGuestFd(fd: int, how: How, flags: int, name: string, isSocket: bool)
      requires 0 <= fd < files.Length && !files[fd].inuse
      modifies files
      ensures Abs() == Add(old(Abs()), fd, how, flags, name, isSocket)
    {
      files[fd] := File(true, how, flags, files[fd].error, -1, name, isSocket);
    }

    // del_guest_fd; `inside` is false when it reads, and may write, a record outside the table
    method DelGuestFd(fd: int) returns (inside: bool)
      requires 0 <= fd < files.Length && files[fd].inuse
      modifies files, `groups
      ensures Abs() == Deleted(old(Abs()), fd)
      ensures inside <==> old(files[fd].ofd) == -1 || 0 <= old(files[fd].ofd) < files.Length
    {
      inside := true;
      files[fd] := files[fd].(inuse := false, name := "", isSocket := false);
      CloseDup(fd);
      if files[fd].ofd != -1 {
        var other := files[fd].ofd;
        files[fd] := files[fd].(ofd := -1);
        if 0 <= other < files.Length {
          if files[other].ofd == fd {
            files[other] := files[other].(ofd := -1);
          }
        } else {
          inside := false;
        }
      }
    }

    // km_fs_open; `ret` is what the host's open returned
    method FsOpen(ret: int, flags: int, name: string) returns (r: int)
      requires Valid() && HostAnswers(Abs(), OpenCall(ret, Open, flags, name, false))
      modifies this, files
      ensures Valid() && r == ret
      ensures Abs() == Step(old(Abs()), OpenCall(ret, Open, flags, name, false))
      ensures Effect(old(Abs()), OpenCall(ret, Open, flags, name, false), Abs())
    {
      hide Effect;
      StepKeeps(Abs(), OpenCall(ret, Open, flags, name, false));
      StepDoes(Abs(), OpenCall(ret, Open, flags, name, false));
      if ret >= 0 {
        AddGuestFd(ret, Open, flags, name, false);
        desc, next := desc[ret := next], next + 1;
      }
      r := ret;
    }

    // km_fs_dup, and F_DUPFD of km_fs_fcntl (with its own flags)
    method FsDup(fd: int, ret: int, flags: int) returns (r: int)
      requires Valid() && HostAnswers(Abs(), DupCall(fd, ret, flags))
      modifies this, files
      ensures Valid()
      ensures Abs() == Step(old(Abs()), DupCall(fd, ret, flags))
      ensures Effect(old(Abs()), DupCall(fd, ret, flags), Abs())
      ensures r == if !old(Abs()).InUse(fd) then EBADF
                   else if old(files[fd].error) != 0 then old(files[fd].error) else ret
    {
      hide Effect;
      StepKeeps(Abs(), DupCall(fd, ret, flags));
      StepDoes(Abs(), DupCall(fd, ret, flags));
      if fd < 0 || fd >= files.Length || !files[fd].inuse {
        return EBADF;
      }
      if files[fd].error != 0 {
        return files[fd].error;
      }
      if ret >= 0 {
        AddGuestFd(ret, files[fd].how, flags, files[fd].name, files[fd].isSocket);
        desc := desc[ret := desc[fd]];
        AddToDupData(ret, fd, false);
      }
      r := ret;
    }

    // km_fs_dup3 once the host's dup3 has succeeded
    method InstallDup(fd: int, newFd: int, flags: int, recovery: bool)
      requires Abs().InUse(fd) && fd in desc && 0 <= newFd < files.Length && newFd != fd
      modifies this, files
      ensures Abs() == DuppedOnto(old(Abs()), fd, newFd, flags, recovery)
    {
      hide Joined, Left;
      if files[newFd].inuse {
        var _ := DelGuestFd(newFd);
      }
      AddGuestFd(newFd, if files[fd].isSocket then files[fd].how else Open, flags, files[fd].name, files[fd].isSocket);
      desc := desc[newFd := desc[fd]];
      AddToDupData(newFd, fd, recovery);
    }

    // km_fs_dup3
    method FsDup3(fd: int, newFd: int, flags: int, ret: int) returns (r: int)
      requires Valid() && HostAnswers(Abs(), Dup3Call(fd, newFd, ret, flags))
      modifies this, files
      ensures Valid()
      ensures Abs() == if flags != 0 && flags != O_CLOEXEC then old(Abs())
                       else Step(old(Abs()), Dup3Call(fd, newFd, ret, flags))
      ensures if flags != 0 && flags != O_CLOEXEC then Abs() == old(Abs())
              else Effect(old(Abs()), Dup3Call(fd, newFd, ret, flags), Abs())
      ensures r == if fd == newFd || (flags != 0 && flags != O_CLOEXEC) then EINVAL
                   else if !(0 <= newFd < files.Length) || !old(Abs()).InUse(fd) then EBADF
                   else if old(files[fd].error) != 0 then old(files[fd].error) else ret
    {
      hide GroupsOk, WellFormed, Joined, Left, Effect;
      StepKeeps(Abs(), Dup3Call(fd, newFd, ret, flags));
      StepDoes(Abs(), Dup3Call(fd, newFd, ret, flags));
      if fd == newFd {
        return EINVAL;
      }
      if flags != 0 && flags != O_CLOEXEC {
        return EINVAL;
      }
      if newFd < 0 || newFd >= files.Length {
        return EBADF;
      }
      if fd < 0 || fd >= files.Length || !files[fd].inuse {
        return EBADF;
      }
      if files[fd].error != 0 {
        return files[fd].error;
      }
      if ret >= 0 {
        InstallDup(fd, ret, flags, false);
      }
      r := ret;
    }

    // km_fs_dup2
    method FsDup2(fd: int, newFd: int, ret: int) returns (r: int)
      requires Valid() && HostAnswers(Abs(), Dup3Call(fd, newFd, ret, 0))
      modifies this, files
      ensures Valid() && Abs() == Step(old(Abs()), Dup3Call(fd, newFd, ret, 0))
      ensures Effect(old(Abs()), Dup3Call(fd, newFd, ret, 0), Abs())
      ensures r == if fd == newFd then fd
                   else if !(0 <= newFd < files.Length) || !old(Abs()).InUse(fd) then EBADF
                   else if old(files[fd].error) != 0 then old(files[fd].error) else ret
    {
      hide GroupsOk, Effect;
      StepDoes(Abs(), Dup3Call(fd, newFd, ret, 0));
      if fd == newFd {
        return fd;
      }
      r := FsDup3(fd, newFd, 0, ret);
    }

    // km_fs_close; `ret` is what the host's close returned
    method FsClose(fd: int, ret: int) returns (r: int)
      requires Valid()
      modifies this, files
      ensures Valid() && Abs() == Step(old(Abs()), CloseCall(fd)) && Effect(old(Abs()), CloseCall(fd), Abs())
      ensures r == if !old(Abs()).InUse(fd) then EBADF
                   else if old(files[fd].error) != 0 then old(files[fd].error) else ret
    {
      hide Effect;
      StepKeeps(Abs(), CloseCall(fd));
      StepDoes(Abs(), CloseCall(fd));
      if fd < 0 || fd >= files.Length || !files[fd].inuse {
        return EBADF;
      }
      var error := files[fd].error;
      var _ := DelGuestFd(fd);
      if error != 0 {
        return error;
      }
      desc := desc - {fd};
      r := ret;
    }

    // km_connect_files
    method ConnectFiles(a: int, b: int)
      requires 0 <= a < files.Length && 0 <= b < files.Length
      modifies files
      ensures Abs() == Connected(old(Abs()), a, b)
    {
      files[a] := files[a].(ofd := b);
      files[b] := files[b].(ofd := a);
    }

    // km_fs_pipe, km_fs_pipe2 and km_fs_socketpair; `a` and `b` are the two host descriptors
    method FsPair(ret: int, a: int, b: int, hows: (How, How), modes: (int, int), names: (string, string),
                  isSocket: bool) returns (r: int)
      requires Valid() && HostAnswers(Abs(), PairCall(ret, a, b, hows, modes, names, isSocket))
      modifies this, files
      ensures Valid() && r == ret
      ensures Abs() == Step(old(Abs()), PairCall(ret, a, b, hows, modes, names, isSocket))
      ensures Effect(old(Abs()), PairCall(ret, a, b, hows, modes, names, isSocket), Abs())
    {
      hide GroupsOk, PartnersOk, LinksInside, Agrees, Effect, Connected;
      StepKeeps(Abs(), PairCall(ret, a, b, hows, modes, names, isSocket));
      StepDoes(Abs(), PairCall(ret, a, b, hows, modes, names, isSocket));
      if ret == 0 {
        AddGuestFd(a, hows.0, modes.0, names.0, isSocket);
        desc, next := desc[a := next], next + 1;
        AddGuestFd(b, hows.1, modes.1, names.1, isSocket);
        desc, next := desc[b := next], next + 1;
        ConnectFiles(a, b);
      }
      r := ret;
    }
  }
}
