/**
 The per-task descriptor table of kernel/src/sched.c: an array of open-file entries with
 reference counts and an array of descriptors naming them. The functions below are the
 operations on a table value; FdTableObject.dfy holds the in-place code proved against them.
 */
module FdTable {
  import Search

  const MAX_FDS: nat := 32
  const OFILE_INVALID: nat := 0xFFFF_FFFF

  const FD_OK: int := 0
  const EBADF: int := -1
  const EMFILE: int := -2
  const EINVAL: int := -3

  const TYPE_NONE: nat := 0
  const TYPE_STDIN: nat := 1
  const TYPE_STDOUT: nat := 2
  const TYPE_STDERR: nat := 3
  const TYPE_DEV_NULL: nat := 4
  const TYPE_DEV_ZERO: nat := 5
  const TYPE_DEV_TTY: nat := 6
  const TYPE_SOCKET: nat := 7

  const O_ACCMODE: bv32 := 0x3
  const O_RDONLY: bv32 := 0x0
  const O_WRONLY: bv32 := 0x1
  const O_NONBLOCK: bv32 := 0x800
  const CLOEXEC: bv32 := 0x1

  datatype OFile = OFile(used: bool, refs: nat, kind: nat, status: bv32)
  datatype FdEnt = FdEnt(used: bool, ofile: nat, flags: bv32)
  datatype Table = Table(ofiles: seq<OFile>, fdtab: seq<FdEnt>)

  const FREE_OFILE := OFile(false, 0, TYPE_NONE, 0)
  const FREE_FD := FdEnt(false, OFILE_INVALID, 0)

  /** What sched_fd_table_clear leaves behind. */
  function Cleared(): Table {
    Table(seq(MAX_FDS, _ => FREE_OFILE), seq(MAX_FDS, _ => FREE_FD))
  }

  /** All-zero memory, which is what sched_clear_task leaves in a reaped slot. */
  function Zeroed(): Table {
    Table(seq(MAX_FDS, _ => OFile(false, 0, 0, 0)), seq(MAX_FDS, _ => FdEnt(false, 0, 0)))
  }

  function Stdio(): Table {
    var c := Cleared();
    Table(c.ofiles[0 := OFile(true, 1, TYPE_STDIN, O_RDONLY)]
                  [1 := OFile(true, 1, TYPE_STDOUT, O_WRONLY)]
                  [2 := OFile(true, 1, TYPE_STDERR, O_WRONLY)],
          c.fdtab[0 := FdEnt(true, 0, 0)][1 := FdEnt(true, 1, 0)][2 := FdEnt(true, 2, 0)])
  }

  predicate Sized(t: Table) {
    |t.ofiles| == MAX_FDS && |t.fdtab| == MAX_FDS
  }

  // ---------------------------------------------------------------------------
  // Operations
  // ---------------------------------------------------------------------------

  /** The checks of sched_slot_ofile_by_fd: does fd lead to a live open file? */
  predicate Resolves(t: Table, fd: int)
    requires Sized(t)
  {
    && 0 <= fd < MAX_FDS
    && t.fdtab[fd].used
    && t.fdtab[fd].ofile < MAX_FDS
    && t.ofiles[t.fdtab[fd].ofile].used
    && t.ofiles[t.fdtab[fd].ofile].refs != 0
  }

  /** First free descriptor at or after i, or -1. */
  function FreeFdFrom(fdtab: seq<FdEnt>, i: nat): (r: int)
    requires i <= |fdtab|
    ensures r == -1 || (i <= r < |fdtab| && !fdtab[r].used)
    ensures forall k :: i <= k < (if r == -1 then |fdtab| else r) ==> fdtab[k].used
  {
    Search.FirstFrom(fdtab, (e: FdEnt) => !e.used, i)
  }

  /** First free open-file entry at or after i, or -1. */
  function FreeOFileFrom(ofiles: seq<OFile>, i: nat): (r: int)
    requires i <= |ofiles|
    ensures r == -1 || (i <= r < |ofiles| && !ofiles[r].used)
    ensures forall k :: i <= k < (if r == -1 then |ofiles| else r) ==> ofiles[k].used
  {
    Search.FirstFrom(ofiles, (o: OFile) => !o.used, i)
  }

  /** One reference fewer; the last one frees the entry. */
  function DropRef(of: OFile): OFile {
    if of.refs <= 1 then FREE_OFILE else of.(refs := of.refs - 1)
  }

  function Close(t: Table, fd: int): (Table, int)
    requires Sized(t)
  {
    if !Resolves(t, fd) then (t, EBADF)
    else
      var o := t.fdtab[fd].ofile;
      (Table(t.ofiles[o := DropRef(t.ofiles[o])], t.fdtab[fd := FREE_FD]), FD_OK)
  }

  /** The loop of sched_slot_close_all_fds, from descriptor i on. */
  function CloseAllFrom(t: Table, i: nat): (r: Table)
    requires Sized(t) && i <= MAX_FDS
    ensures Sized(r)
    decreases |t.fdtab| - i
  {
    if i == MAX_FDS then t
    else if t.fdtab[i].used then CloseAllFrom(Close(t, i).0, i + 1)
    else CloseAllFrom(t, i + 1)
  }

  function CloseAll(t: Table): Table
    requires Sized(t)
  {
    CloseAllFrom(t, 0)
  }

  /** Make newfd a second name of the open file behind oldfd. */
  function Alias(t: Table, oldfd: nat, newfd: nat): Table
    requires Sized(t) && Resolves(t, oldfd) && newfd < MAX_FDS
  {
    var o := t.fdtab[oldfd].ofile;
    Table(t.ofiles[o := t.ofiles[o].(refs := t.ofiles[o].refs + 1)],
          t.fdtab[newfd := FdEnt(true, o, 0)])
  }

  function Dup(t: Table, oldfd: int): (Table, int)
    requires Sized(t)
  {
    if !Resolves(t, oldfd) then (t, EBADF)
    else
      var newfd := FreeFdFrom(t.fdtab, 0);
      if newfd < 0 then (t, EMFILE) else (Alias(t, oldfd, newfd), newfd)
  }

  /**
   Closing newfd first may drop a reference on the very file being duplicated; the table
   invariant is what keeps oldfd resolvable afterwards (see CloseKeepsOthers), so here the
   code's unconditional aliasing is written on the table after the close.
   */
  function Dup2(t: Table, oldfd: int, newfd: int): (Table, int)
    requires Sized(t)
  {
    if newfd < 0 || newfd >= MAX_FDS then (t, EINVAL)
    else if !Resolves(t, oldfd) then (t, EBADF)
    else if oldfd == newfd then (t, newfd)
    else
      var t1 := if t.fdtab[newfd].used then Close(t, newfd).0 else t;
      var o := t1.fdtab[oldfd].ofile;
      (Table(t1.ofiles[o := t1.ofiles[o].(refs := t1.ofiles[o].refs + 1)],
             t1.fdtab[newfd := FdEnt(true, o, 0)]), newfd)
  }

  /** Maps SCHED_FD_SPECIAL_* to an open-file type; TYPE_NONE for anything else. */
  function SpecialType(special: nat): nat {
    if special == 1 then TYPE_DEV_NULL
    else if special == 2 then TYPE_DEV_ZERO
    else if special == 3 then TYPE_DEV_TTY
    else if special == 4 then TYPE_SOCKET
    else TYPE_NONE
  }

  function OpenSpecial(t: Table, special: nat, flags: bv32): (Table, int)
    requires Sized(t)
  {
    if SpecialType(special) == TYPE_NONE then (t, EINVAL)
    else
      var fd := FreeFdFrom(t.fdtab, 0);
      if fd < 0 then (t, EMFILE)
      else
        var o := FreeOFileFrom(t.ofiles, 0);
        if o < 0 then (t, EMFILE)
        else
          (Table(t.ofiles[o := OFile(true, 1, SpecialType(special), flags & (O_ACCMODE | O_NONBLOCK))],
                 t.fdtab[fd := FdEnt(true, o, 0)]), fd)
  }

  /** F_SETFL changes O_NONBLOCK and nothing else. */
  function Toggled(status: bv32, flags: bv32): bv32 {
    (status & !O_NONBLOCK) | (flags & O_NONBLOCK)
  }

  function SetFl(t: Table, fd: int, flags: bv32): (Table, int)
    requires Sized(t)
  {
    if !Resolves(t, fd) then (t, EBADF)
    else
      var o := t.fdtab[fd].ofile;
      (t.(ofiles := t.ofiles[o := t.ofiles[o].(status := Toggled(t.ofiles[o].status, flags))]), FD_OK)
  }

  function SetFd(t: Table, fd: int, flags: bv32): (Table, int)
    requires Sized(t)
  {
    if !Resolves(t, fd) then (t, EBADF)
    else (t.(fdtab := t.fdtab[fd := t.fdtab[fd].(flags := flags & CLOEXEC)]), FD_OK)
  }

  predicate IsOpen(t: Table, fd: int)
    requires Sized(t)
  {
    0 <= fd < MAX_FDS && t.fdtab[fd].used
  }

  datatype Op =
    | OpClose(fd: int)
    | OpDup(fd: int)
    | OpDup2(oldfd: int, newfd: int)
    | OpOpen(special: nat, status: bv32)
    | OpSetFl(fd: int, status: bv32)
    | OpSetFd(fd: int, flags: bv32)

  function Apply(t: Table, op: Op): (Table, int)
    requires Sized(t)
  {
    match op
    case OpClose(fd) => Close(t, fd)
    case OpDup(fd) => Dup(t, fd)
    case OpDup2(o, n) => Dup2(t, o, n)
    case OpOpen(sp, st) => OpenSpecial(t, sp, st)
    case OpSetFl(fd, st) => SetFl(t, fd, st)
    case OpSetFd(fd, fl) => SetFd(t, fd, fl)
  }

  // ---------------------------------------------------------------------------
  // The invariant: reference counts are exact
  // ---------------------------------------------------------------------------

  /** The descriptors that name open file o. */
  function Names(fdtab: seq<FdEnt>, o: nat): set<nat> {
    set fd: nat | fd < |fdtab| && fdtab[fd].used && fdtab[fd].ofile == o
  }

  ghost predicate Inv(t: Table) {
    && Sized(t)
    && (forall fd :: 0 <= fd < MAX_FDS && t.fdtab[fd].used ==> t.fdtab[fd].ofile < MAX_FDS)
    && (forall fd :: 0 <= fd < MAX_FDS && !t.fdtab[fd].used ==> t.fdtab[fd] == FREE_FD)
    && (forall o :: 0 <= o < MAX_FDS ==> t.ofiles[o].refs == |Names(t.fdtab, o)|)
    && (forall o :: 0 <= o < MAX_FDS ==> (t.ofiles[o].used <==> t.ofiles[o].refs > 0))
    && (forall o :: 0 <= o < MAX_FDS && !t.ofiles[o].used ==> t.ofiles[o] == FREE_OFILE)
  }

  /** Under the invariant a used descriptor always leads to a live open file, and conversely. */
  lemma OpenAgreesWithLookup(t: Table, fd: int)
    requires Inv(t)
    ensures IsOpen(t, fd) <==> Resolves(t, fd)
  {
    if IsOpen(t, fd) {
      var o := t.fdtab[fd].ofile;
      assert fd in Names(t.fdtab, o);
    }
  }

  lemma ClearedInv()
    ensures Inv(Cleared())
  {
    forall o: nat | o < MAX_FDS
      ensures Names(Cleared().fdtab, o) == {}
    {
    }
  }

  lemma StdioInv()
    ensures Inv(Stdio())
  {
    var t := Stdio();
    forall o: nat | o < MAX_FDS
      ensures t.ofiles[o].refs == |Names(t.fdtab, o)|
    {
      assert Names(t.fdtab, o) == if o < 3 then {o} else {};
    }
  }

  lemma CloseInv(t: Table, fd: int)
    requires Inv(t)
    ensures Inv(Close(t, fd).0)
  {
    if Resolves(t, fd) {
      var t' := Close(t, fd).0;
      var o := t.fdtab[fd].ofile;
      assert fd in Names(t.fdtab, o);
      forall k: nat | k < MAX_FDS
        ensures t'.ofiles[k].refs == |Names(t'.fdtab, k)|
      {
        assert Names(t'.fdtab, k) == Names(t.fdtab, k) - {fd};
      }
    }
  }

  /** Closing one descriptor leaves every other descriptor resolving to what it did. */
  lemma CloseKeepsOthers(t: Table, fd: int, other: int)
    requires Inv(t) && other != fd && Resolves(t, other)
    ensures Resolves(Close(t, fd).0, other)
    ensures Close(t, fd).0.fdtab[other] == t.fdtab[other]
  {
    CloseInv(t, fd);
    OpenAgreesWithLookup(Close(t, fd).0, other);
  }

  lemma AliasInv(t: Table, oldfd: nat, newfd: nat)
    requires Inv(t) && Resolves(t, oldfd) && newfd < MAX_FDS && !t.fdtab[newfd].used
    ensures Inv(Alias(t, oldfd, newfd))
  {
    var t' := Alias(t, oldfd, newfd);
    var o := t.fdtab[oldfd].ofile;
    forall k: nat | k < MAX_FDS
      ensures t'.ofiles[k].refs == |Names(t'.fdtab, k)|
    {
      NewName(t.fdtab, newfd, FdEnt(true, o, 0), k);
    }
  }

  /** Filling a free descriptor adds one name to the open file it points at. */
  lemma NewName(fdtab: seq<FdEnt>, fd: nat, ent: FdEnt, k: nat)
    requires fd < |fdtab| && !fdtab[fd].used && ent.used
    ensures |Names(fdtab[fd := ent], k)| == |Names(fdtab, k)| + (if k == ent.ofile then 1 else 0)
  {
    assert fd !in Names(fdtab, k);
    assert Names(fdtab[fd := ent], k) == Names(fdtab, k) + (if k == ent.ofile then {fd} else {});
  }

  lemma Dup2IsCloseThenAlias(t: Table, oldfd: int, newfd: int)
    requires Inv(t) && Resolves(t, oldfd) && 0 <= newfd < MAX_FDS && oldfd != newfd
    ensures Resolves(Close(t, newfd).0, oldfd)
    ensures !Close(t, newfd).0.fdtab[newfd].used
    ensures Dup2(t, oldfd, newfd) == (Alias(Close(t, newfd).0, oldfd, newfd), newfd)
  {
    OpenAgreesWithLookup(t, newfd);
    CloseKeepsOthers(t, newfd, oldfd);
  }

  lemma Dup2Inv(t: Table, oldfd: int, newfd: int)
    requires Inv(t)
    ensures Inv(Dup2(t, oldfd, newfd).0)
  {
    if 0 <= newfd < MAX_FDS && Resolves(t, oldfd) && oldfd != newfd {
      Dup2IsCloseThenAlias(t, oldfd, newfd);
      CloseInv(t, newfd);
      AliasInv(Close(t, newfd).0, oldfd, newfd);
    }
  }

  lemma OpenInv(t: Table, special: nat, flags: bv32)
    requires Inv(t)
    ensures Inv(OpenSpecial(t, special, flags).0)
  {
    var (t', r) := OpenSpecial(t, special, flags);
    if r >= 0 {
      var o := FreeOFileFrom(t.ofiles, 0);
      forall k: nat | k < MAX_FDS
        ensures t'.ofiles[k].refs == |Names(t'.fdtab, k)|
      {
        NewName(t.fdtab, r, FdEnt(true, o, 0), k);
      }
    }
  }

  lemma SetInv(t: Table, fd: int, v: bv32)
    requires Inv(t)
    ensures Inv(SetFl(t, fd, v).0)
    ensures Inv(SetFd(t, fd, v).0)
  {
    if Resolves(t, fd) {
      var t' := SetFd(t, fd, v).0;
      forall k: nat | k < MAX_FDS
        ensures Names(t'.fdtab, k) == Names(t.fdtab, k)
      {
      }
    }
  }

  /** Every descriptor operation keeps the reference counts exact. */
  lemma ApplyInv(t: Table, op: Op)
    requires Inv(t)
    ensures Inv(Apply(t, op).0)
  {
    match op
    case OpClose(fd) => CloseInv(t, fd);
    case OpDup(fd) =>
      if Resolves(t, fd) && FreeFdFrom(t.fdtab, 0) >= 0 {
        AliasInv(t, fd, FreeFdFrom(t.fdtab, 0));
      }
    case OpDup2(o, n) => Dup2Inv(t, o, n);
    case OpOpen(sp, st) => OpenInv(t, sp, st);
    case OpSetFl(fd, st) => SetInv(t, fd, st);
    case OpSetFd(fd, fl) => SetInv(t, fd, fl);
  }

  /** Runs a whole history of operations. */
  function ApplyAll(t: Table, ops: seq<Op>): (r: Table)
    requires Sized(t)
    ensures Sized(r)
    decreases |ops|
  {
    if ops == [] then t else ApplyAll(Apply(t, ops[0]).0, ops[1..])
  }

  lemma {:induction false} HistoryInv(t: Table, ops: seq<Op>)
    requires Inv(t)
    ensures Inv(ApplyAll(t, ops))
    decreases |ops|
  {
    if ops != [] {
      ApplyInv(t, ops[0]);
      HistoryInv(Apply(t, ops[0]).0, ops[1..]);
    }
  }

  // ---------------------------------------------------------------------------
  // Pigeonhole: a free descriptor implies a free open file
  // ---------------------------------------------------------------------------

  /** Used descriptors that name an open file below k. */
  function UsedBelow(fdtab: seq<FdEnt>, k: nat): set<nat> {
    set fd: nat | fd < |fdtab| && fdtab[fd].used && fdtab[fd].ofile < k
  }

  lemma {:induction false} EachOFileNeedsAName(t: Table, k: nat)
    requires Inv(t) && k <= MAX_FDS
    requires forall o :: 0 <= o < k ==> t.ofiles[o].used
    ensures |UsedBelow(t.fdtab, k)| >= k
  {
    if k > 0 {
      EachOFileNeedsAName(t, k - 1);
      var below, names := UsedBelow(t.fdtab, k - 1), Names(t.fdtab, k - 1);
      assert UsedBelow(t.fdtab, k) == below + names;
      assert below !! names;
    }
  }

  function Below(n: nat): (r: set<nat>)
    ensures |r| == n
    ensures forall i: nat :: i in r <==> i < n
  {
    if n == 0 then {} else Below(n - 1) + {n - 1}
  }

  lemma SubsetSize(a: set<nat>, b: set<nat>)
    requires a <= b
    ensures |a| <= |b|
  {
    assert b == a + (b - a);
  }

  /** The second EMFILE exit of sched_fd_open_special can never be taken. */
  lemma FreeFdImpliesFreeOFile(t: Table)
    requires Inv(t) && FreeFdFrom(t.fdtab, 0) >= 0
    ensures FreeOFileFrom(t.ofiles, 0) >= 0
  {
    if FreeOFileFrom(t.ofiles, 0) < 0 {
      EachOFileNeedsAName(t, MAX_FDS);
      var free := FreeFdFrom(t.fdtab, 0);
      SubsetSize(UsedBelow(t.fdtab, MAX_FDS), Below(MAX_FDS) - {free});
    }
  }

  /** open fails with EMFILE exactly when all 32 descriptors are in use. */
  lemma OpenFailsOnlyWhenFull(t: Table, special: nat, flags: bv32)
    requires Inv(t)
    ensures OpenSpecial(t, special, flags).1 == EMFILE <==>
              SpecialType(special) != TYPE_NONE && forall fd :: 0 <= fd < MAX_FDS ==> t.fdtab[fd].used
  {
    if FreeFdFrom(t.fdtab, 0) >= 0 {
      FreeFdImpliesFreeOFile(t);
    }
  }

  // ---------------------------------------------------------------------------
  // Exit frees everything
  // ---------------------------------------------------------------------------

  lemma {:induction false} CloseAllFromClears(t: Table, i: nat)
    requires Inv(t) && i <= MAX_FDS
    requires forall k :: 0 <= k < i ==> !t.fdtab[k].used
    ensures CloseAllFrom(t, i) == Cleared()
    decreases MAX_FDS - i
  {
    if i == MAX_FDS {
      forall o | 0 <= o < MAX_FDS
        ensures t.ofiles[o] == FREE_OFILE
      {
        assert Names(t.fdtab, o) == {};
      }
      assert t.ofiles == Cleared().ofiles;
      assert t.fdtab == Cleared().fdtab;
    } else if t.fdtab[i].used {
      OpenAgreesWithLookup(t, i);
      CloseInv(t, i);
      CloseAllFromClears(Close(t, i).0, i + 1);
    } else {
      CloseAllFromClears(t, i + 1);
    }
  }

  lemma CloseAllClears(t: Table)
    requires Inv(t)
    ensures CloseAll(t) == Cleared()
  {
    CloseAllFromClears(t, 0);
  }
}
