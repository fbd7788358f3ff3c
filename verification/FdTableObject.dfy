/** The descriptor table as sched.c keeps it: two arrays updated in place. */
module FdTableObject {
  import opened FdTable

  class DescriptorTable {
    const ofiles: array<OFile>
    const fdtab: array<FdEnt>

    ghost predicate Valid() {
      ofiles.Length == MAX_FDS && fdtab.Length == MAX_FDS
    }

    ghost function View(): (t: Table)
      requires Valid()
      reads this, ofiles, fdtab
      ensures Sized(t)
    {
      Table(ofiles[..], fdtab[..])
    }

    constructor ()
      ensures Valid() && fresh(ofiles) && fresh(fdtab)
      ensures View() == Zeroed()
    {
      ofiles := new OFile[MAX_FDS](_ => OFile(false, 0, 0, 0));
      fdtab := new FdEnt[MAX_FDS](_ => FdEnt(false, 0, 0));
    }

    method Clear()
      requires Valid()
      modifies ofiles, fdtab
      ensures View() == Cleared()
    {
      for i := 0 to MAX_FDS
        invariant forall k :: 0 <= k < i ==> ofiles[k] == FREE_OFILE && fdtab[k] == FREE_FD
      {
        ofiles[i] := FREE_OFILE;
        fdtab[i] := FREE_FD;
      }
      assert View().ofiles == Cleared().ofiles && View().fdtab == Cleared().fdtab;
    }

    method InitStdio()
      requires Valid()
      modifies ofiles, fdtab
      ensures View() == Stdio()
      ensures Inv(View())
    {
      Clear();
      ofiles[0] := OFile(true, 1, TYPE_STDIN, O_RDONLY);
      fdtab[0] := fdtab[0].(used := true, ofile := 0);
      ofiles[1] := OFile(true, 1, TYPE_STDOUT, O_WRONLY);
      fdtab[1] := fdtab[1].(used := true, ofile := 1);
      ofiles[2] := OFile(true, 1, TYPE_STDERR, O_WRONLY);
      fdtab[2] := fdtab[2].(used := true, ofile := 2);
      assert View().ofiles == Stdio().ofiles;
      assert View().fdtab == Stdio().fdtab;
      StdioInv();
    }

    /** Index of the open file behind fd, or -1. */
    method Lookup(fd: int) returns (o: int)
      requires Valid()
      ensures o == if Resolves(View(), fd) then View().fdtab[fd].ofile else -1
    {
      if fd < 0 || fd >= MAX_FDS { return -1; }
      if !fdtab[fd].used { return -1; }
      var idx := fdtab[fd].ofile;
      if idx >= MAX_FDS { return -1; }
      if !ofiles[idx].used || ofiles[idx].refs == 0 { return -1; }
      o := idx;
    }

    method FindFreeFd(start: nat) returns (fd: int)
      requires Valid()
      ensures fd == -1 || (start <= fd < MAX_FDS && !View().fdtab[fd].used)
      ensures start <= MAX_FDS ==> fd == FreeFdFrom(View().fdtab, start)
    {
      if start >= MAX_FDS { return -1; }
      var i := start;
      while i < MAX_FDS
        invariant start <= i <= MAX_FDS
        invariant FreeFdFrom(View().fdtab, start) == FreeFdFrom(View().fdtab, i)
      {
        if !fdtab[i].used { return i; }
        i := i + 1;
      }
      fd := -1;
    }

    method FindFreeOFile() returns (o: int)
      requires Valid()
      ensures o == FreeOFileFrom(View().ofiles, 0)
    {
      var i := 0;
      while i < MAX_FDS
        invariant 0 <= i <= MAX_FDS
        invariant FreeOFileFrom(View().ofiles, 0) == FreeOFileFrom(View().ofiles, i)
      {
        if !ofiles[i].used { return i; }
        i := i + 1;
      }
      o := -1;
    }

    method CloseFd(fd: int) returns (r: int)
      requires Valid()
      modifies ofiles, fdtab
      ensures (View(), r) == Close(old(View()), fd)
    {
      var o := Lookup(fd);
      if o < 0 { return EBADF; }
      fdtab[fd] := FdEnt(false, OFILE_INVALID, 0);
      if ofiles[o].refs != 0 {
        ofiles[o] := ofiles[o].(refs := ofiles[o].refs - 1);
      }
      if ofiles[o].refs == 0 {
        ofiles[o] := ofiles[o].(used := false, kind := TYPE_NONE, status := 0);
      }
      r := FD_OK;
      assert View().ofiles == Close(old(View()), fd).0.ofiles;
    }

    method CloseAllFds()
      requires Valid()
      modifies ofiles, fdtab
      ensures View() == CloseAll(old(View()))
      ensures old(Inv(View())) ==> View() == Cleared()
    {
      if Inv(View()) {
        CloseAllClears(View());
      }
      var i := 0;
      while i < MAX_FDS
        invariant 0 <= i <= MAX_FDS
        invariant CloseAllFrom(View(), i) == CloseAllFrom(old(View()), 0)
      {
        if fdtab[i].used {
          var _ := CloseFd(i);
        }
        i := i + 1;
      }
    }

    method DupFd(oldfd: int) returns (r: int)
      requires Valid()
      modifies ofiles, fdtab
      ensures (View(), r) == Dup(old(View()), oldfd)
    {
      var o := Lookup(oldfd);
      if o < 0 { return EBADF; }
      var newfd := FindFreeFd(0);
      if newfd < 0 { return EMFILE; }
      fdtab[newfd] := FdEnt(true, fdtab[oldfd].ofile, 0);
      ofiles[o] := ofiles[o].(refs := ofiles[o].refs + 1);
      r := newfd;
    }

    method Dup2Fd(oldfd: int, newfd: int) returns (r: int)
      requires Valid()
      modifies ofiles, fdtab
      ensures (View(), r) == Dup2(old(View()), oldfd, newfd)
    {
      if newfd < 0 || newfd >= MAX_FDS { return EINVAL; }
      var o := Lookup(oldfd);
      if o < 0 { return EBADF; }
      if oldfd == newfd { return newfd; }
      if fdtab[newfd].used {
        var _ := CloseFd(newfd);
      }
      fdtab[newfd] := FdEnt(true, fdtab[oldfd].ofile, 0);
      ofiles[o] := ofiles[o].(refs := ofiles[o].refs + 1);
      r := newfd;
    }

    method OpenSpecialFd(special: nat, flags: bv32) returns (r: int)
      requires Valid()
      modifies ofiles, fdtab
      ensures (View(), r) == OpenSpecial(old(View()), special, flags)
    {
      var kind := SpecialType(special);
      if kind == TYPE_NONE { return EINVAL; }
      var fd := FindFreeFd(0);
      if fd < 0 { return EMFILE; }
      var o := FindFreeOFile();
      if o < 0 { return EMFILE; }
      ofiles[o] := OFile(true, 1, kind, flags & (O_ACCMODE | O_NONBLOCK));
      fdtab[fd] := FdEnt(true, o, 0);
      r := fd;
    }

    method SetStatus(fd: int, flags: bv32) returns (r: int)
      requires Valid()
      modifies ofiles
      ensures (View(), r) == SetFl(old(View()), fd, flags)
    {
      var o := Lookup(fd);
      if o < 0 { return EBADF; }
      ofiles[o] := ofiles[o].(status := Toggled(ofiles[o].status, flags));
      r := FD_OK;
    }

    method SetFdFlags(fd: int, flags: bv32) returns (r: int)
      requires Valid()
      modifies fdtab
      ensures (View(), r) == SetFd(old(View()), fd, flags)
    {
      var o := Lookup(fd);
      if o < 0 { return EBADF; }
      fdtab[fd] := fdtab[fd].(flags := flags & CLOEXEC);
      r := FD_OK;
    }
  }
}
