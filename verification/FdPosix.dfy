/**
 The open-file-description model of section 2.14 of POSIX.1-2017 System Interfaces, and the
 proof that the reference-counted table of FdTable refines it: descriptors name shared
 descriptions, a description disappears with its last name, and no counter is visible.
 */
module FdPosix {
  import opened FdTable

  datatype Description = Description(kind: nat, status: bv32)
  datatype Descriptor = Descriptor(desc: nat, flags: bv32)
  datatype Posix = Posix(fds: map<nat, Descriptor>, descs: map<nat, Description>)

  /** What a table means: its used descriptors and the descriptions they share. */
  ghost function Abs(t: Table): Posix
    requires Sized(t)
  {
    Posix(AbsFds(t.fdtab), AbsDescs(t.ofiles))
  }

  ghost function AbsFds(fdtab: seq<FdEnt>): map<nat, Descriptor> {
    map fd: nat | fd < |fdtab| && fdtab[fd].used :: Descriptor(fdtab[fd].ofile, fdtab[fd].flags)
  }

  ghost function AbsDescs(ofiles: seq<OFile>): map<nat, Description> {
    map o: nat | o < |ofiles| && ofiles[o].used :: Description(ofiles[o].kind, ofiles[o].status)
  }

  ghost predicate LowestFree(p: Posix, fd: int) {
    0 <= fd < MAX_FDS && fd !in p.fds && forall k: nat :: k < fd ==> k in p.fds
  }

  ghost predicate Full(p: Posix) {
    forall k: nat :: k < MAX_FDS ==> k in p.fds
  }

  ghost function Remove(p: Posix, fd: nat): Posix
    requires fd in p.fds
  {
    var d := p.fds[fd].desc;
    var fds := p.fds - {fd};
    if exists k :: k in fds && fds[k].desc == d then Posix(fds, p.descs)
    else Posix(fds, p.descs - {d})
  }

  ghost function Share(p: Posix, oldfd: nat, newfd: nat): Posix
    requires oldfd in p.fds
  {
    p.(fds := p.fds[newfd := Descriptor(p.fds[oldfd].desc, 0)])
  }

  ghost function Toggle(p: Posix, fd: nat, flags: bv32): Posix
    requires fd in p.fds && p.fds[fd].desc in p.descs
  {
    var d := p.fds[fd].desc;
    var was := p.descs[d];
    p.(descs := p.descs[d := was.(status := Toggled(was.status, flags))])
  }

  /** One POSIX call: state before, call, state after, result. The standard wants EBADF for a bad fildes2. */
  ghost predicate Step(p: Posix, op: Op, p': Posix, r: int) {
    match op
    case OpClose(fd) =>
      if fd >= 0 && fd in p.fds then r == FD_OK && p' == Remove(p, fd)
      else r == EBADF && p' == p
    case OpDup(fd) =>
      if fd < 0 || fd !in p.fds then r == EBADF && p' == p
      else if Full(p) then r == EMFILE && p' == p
      else LowestFree(p, r) && p' == Share(p, fd, r)
    case OpDup2(o, n) =>
      if n < 0 || n >= MAX_FDS then r == EBADF && p' == p
      else if o < 0 || o !in p.fds then r == EBADF && p' == p
      else if o == n then r == n && p' == p
      else if n !in p.fds then r == n && p' == Share(p, o, n)
      else r == n && o in Remove(p, n).fds && p' == Share(Remove(p, n), o, n)
    case OpOpen(sp, st) =>
      if SpecialType(sp) == TYPE_NONE then r == EINVAL && p' == p
      else if Full(p) then r == EMFILE && p' == p
      else
        && LowestFree(p, r)
        && exists d: nat :: d !in p.descs
                         && p' == Posix(p.fds[r := Descriptor(d, 0)],
                                        p.descs[d := Description(SpecialType(sp), st & (O_ACCMODE | O_NONBLOCK))])
    case OpSetFl(fd, st) =>
      if fd < 0 || fd !in p.fds then r == EBADF && p' == p
      else r == FD_OK && p.fds[fd].desc in p.descs && p' == Toggle(p, fd, st)
    case OpSetFd(fd, fl) =>
      if fd < 0 || fd !in p.fds then r == EBADF && p' == p
      else r == FD_OK && p' == p.(fds := p.fds[fd := p.fds[fd].(flags := fl & CLOEXEC)])
  }

  lemma CloseDescs(t: Table, fd: nat)
    requires Inv(t) && Resolves(t, fd)
    ensures var o, t' := t.fdtab[fd].ofile, Close(t, fd).0;
            AbsDescs(t'.ofiles) == if Names(t'.fdtab, o) == {} then AbsDescs(t.ofiles) - {o} else AbsDescs(t.ofiles)
  {
    var o, t' := t.fdtab[fd].ofile, Close(t, fd).0;
    CloseInv(t, fd);
    if Names(t'.fdtab, o) == {} {
      assert !t'.ofiles[o].used;
    } else {
      assert |Names(t'.fdtab, o)| > 0;
      assert t'.ofiles[o].used;
    }
  }

  lemma CloseRefines(t: Table, fd: nat)
    requires Inv(t) && Resolves(t, fd)
    ensures Abs(Close(t, fd).0) == Remove(Abs(t), fd)
  {
    var t', o := Close(t, fd).0, t.fdtab[fd].ofile;
    var fds := AbsFds(t.fdtab) - {fd};
    CloseDescs(t, fd);
    assert AbsFds(t'.fdtab) == fds;
    if k :| k in Names(t'.fdtab, o) {
      assert k in fds && fds[k].desc == o;
    } else {
      assert forall k: nat :: k in fds && fds[k].desc == o ==> k in Names(t'.fdtab, o);
    }
  }

  lemma AliasRefines(t: Table, oldfd: nat, newfd: nat)
    requires Inv(t) && Resolves(t, oldfd) && newfd < MAX_FDS
    ensures Abs(Alias(t, oldfd, newfd)) == Share(Abs(t), oldfd, newfd)
  {
    var t' := Alias(t, oldfd, newfd);
    assert Abs(t').fds == Share(Abs(t), oldfd, newfd).fds;
    assert Abs(t').descs == Abs(t).descs;
  }

  lemma OpenRefines(t: Table, sp: nat, st: bv32)
    requires Inv(t)
    ensures var (t', r) := OpenSpecial(t, sp, st); Step(Abs(t), OpOpen(sp, st), Abs(t'), r)
  {
    var fd := FreeFdFrom(t.fdtab, 0);
    if SpecialType(sp) != TYPE_NONE {
      if fd >= 0 {
        FreeFdImpliesFreeOFile(t);
        var o := FreeOFileFrom(t.ofiles, 0);
        var status := st & (O_ACCMODE | O_NONBLOCK);
        NewEntriesRefine(t, o, OFile(true, 1, SpecialType(sp), status), fd, FdEnt(true, o, 0));
        assert fd !in Abs(t).fds;
      } else {
        assert Full(Abs(t));
      }
    }
  }

  lemma NewEntriesRefine(t: Table, o: nat, of: OFile, fd: nat, ent: FdEnt)
    requires Sized(t) && o < MAX_FDS && fd < MAX_FDS && of.used && ent.used && !t.ofiles[o].used
    ensures o !in Abs(t).descs
    ensures AbsFds(t.fdtab[fd := ent]) == Abs(t).fds[fd := Descriptor(ent.ofile, ent.flags)]
    ensures AbsDescs(t.ofiles[o := of]) == Abs(t).descs[o := Description(of.kind, of.status)]
  {
  }

  lemma SetFlRefines(t: Table, fd: nat, v: bv32)
    requires Inv(t) && Resolves(t, fd)
    ensures Abs(t).fds[fd].desc in Abs(t).descs
    ensures Abs(SetFl(t, fd, v).0) == Toggle(Abs(t), fd, v)
  {
    var o := t.fdtab[fd].ofile;
    var w := Toggled(t.ofiles[o].status, v);
    var ofiles := t.ofiles[o := t.ofiles[o].(status := w)];
    assert AbsDescs(ofiles) == AbsDescs(t.ofiles)[o := AbsDescs(t.ofiles)[o].(status := w)];
  }

  lemma SetFdRefines(t: Table, fd: nat, v: bv32)
    requires Inv(t) && Resolves(t, fd)
    ensures Abs(SetFd(t, fd, v).0) == Abs(t).(fds := Abs(t).fds[fd := Abs(t).fds[fd].(flags := v & CLOEXEC)])
  {
    var w := v & CLOEXEC;
    var fdtab := t.fdtab[fd := t.fdtab[fd].(flags := w)];
    assert AbsFds(fdtab) == AbsFds(t.fdtab)[fd := AbsFds(t.fdtab)[fd].(flags := w)];
  }

  lemma DupRefines(t: Table, fd: int)
    requires Inv(t)
    ensures var (t', r) := Dup(t, fd); Step(Abs(t), OpDup(fd), Abs(t'), r)
  {
    OpenAgreesWithLookup(t, fd);
    if Resolves(t, fd) {
      var free := FreeFdFrom(t.fdtab, 0);
      if free >= 0 {
        AliasRefines(t, fd, free);
        assert free !in Abs(t).fds;
      } else {
        assert Full(Abs(t));
      }
    }
  }

  lemma Dup2Refines(t: Table, o: int, n: int)
    requires Inv(t) && 0 <= n < MAX_FDS
    ensures var (t', r) := Dup2(t, o, n); Step(Abs(t), OpDup2(o, n), Abs(t'), r)
  {
    OpenAgreesWithLookup(t, o);
    if 0 <= n < MAX_FDS && Resolves(t, o) && o != n {
      OpenAgreesWithLookup(t, n);
      Dup2IsCloseThenAlias(t, o, n);
      CloseInv(t, n);
      AliasRefines(Close(t, n).0, o, n);
      if n in Abs(t).fds {
        CloseRefines(t, n);
      }
    }
  }

  /** A dup2 onto a number that is no descriptor: the code answers EINVAL. */
  predicate BadTarget(op: Op) {
    op.OpDup2? && (op.newfd < 0 || op.newfd >= MAX_FDS)
  }

  lemma GoodOpRefines(t: Table, op: Op)
    requires Inv(t) && !BadTarget(op)
    ensures var (t', r) := Apply(t, op); Step(Abs(t), op, Abs(t'), r)
  {
    match op
    case OpClose(fd) =>
      OpenAgreesWithLookup(t, fd);
      if Resolves(t, fd) { CloseRefines(t, fd); }
    case OpDup(fd) => DupRefines(t, fd);
    case OpDup2(o, n) => Dup2Refines(t, o, n);
    case OpOpen(sp, st) => OpenRefines(t, sp, st);
    case OpSetFl(fd, st) =>
      OpenAgreesWithLookup(t, fd);
      if Resolves(t, fd) { SetFlRefines(t, fd, st); }
    case OpSetFd(fd, fl) =>
      OpenAgreesWithLookup(t, fd);
      if Resolves(t, fd) { SetFdRefines(t, fd, fl); }
  }

  lemma BadTargetNeverRefines(t: Table, op: Op, p: Posix, p': Posix)
    requires Sized(t) && BadTarget(op)
    ensures Apply(t, op) == (t, EINVAL) && !Step(p, op, p', EINVAL)
  {
  }

  /**
   A table operation is one step of the POSIX model, with the same result, if and only if it is not a
   dup2 onto a number outside 0 .. 31.
   */
  lemma RefinesExactlyWhen(t: Table, op: Op)
    requires Inv(t)
    ensures (var (t', r) := Apply(t, op); Step(Abs(t), op, Abs(t'), r)) <==> !BadTarget(op)
  {
    if BadTarget(op) {
      BadTargetNeverRefines(t, op, Abs(t), Abs(t));
    } else {
      GoodOpRefines(t, op);
    }
  }

  /** dup2(0, 32) in a new task: EINVAL where POSIX has EBADF. The table itself is right: nothing changes. */
  lemma Dup2OntoNumber32(p': Posix)
    ensures Apply(Stdio(), OpDup2(0, 32)) == (Stdio(), EINVAL)
    ensures !Step(Abs(Stdio()), OpDup2(0, 32), p', EINVAL)
    ensures Step(Abs(Stdio()), OpDup2(0, 32), Abs(Stdio()), EBADF)
  {
    BadTargetNeverRefines(Stdio(), OpDup2(0, 32), Abs(Stdio()), p');
  }

  /** POSIX leads from p to p' through the calls ops with the results rs. */
  ghost predicate Leads(p: Posix, ops: seq<Op>, rs: seq<int>, p': Posix)
    requires |rs| == |ops|
    decreases |ops|
  {
    if ops == [] then p' == p
    else exists q :: Step(p, ops[0], q, rs[0]) && Leads(q, ops[1..], rs[1..], p')
  }

  function Results(t: Table, ops: seq<Op>): (rs: seq<int>)
    requires Sized(t)
    ensures |rs| == |ops|
    decreases |ops|
  {
    if ops == [] then [] else [Apply(t, ops[0]).1] + Results(Apply(t, ops[0]).0, ops[1..])
  }

  lemma LeadsFirst(p: Posix, q: Posix, ops: seq<Op>, rs: seq<int>, p': Posix)
    requires |rs| == |ops| && ops != [] && Step(p, ops[0], q, rs[0]) && Leads(q, ops[1..], rs[1..], p')
    ensures Leads(p, ops, rs, p')
  {
  }

  lemma {:induction false} GoodHistoryRefines(t: Table, ops: seq<Op>)
    requires Inv(t) && forall i :: 0 <= i < |ops| ==> !BadTarget(ops[i])
    ensures Leads(Abs(t), ops, Results(t, ops), Abs(ApplyAll(t, ops)))
    decreases |ops|
  {
    if ops != [] {
      var t' := Apply(t, ops[0]).0;
      ApplyInv(t, ops[0]);
      GoodOpRefines(t, ops[0]);
      GoodHistoryRefines(t', ops[1..]);
      assert Results(t, ops)[1..] == Results(t', ops[1..]);
      LeadsFirst(Abs(t), Abs(t'), ops, Results(t, ops), Abs(ApplyAll(t, ops)));
    }
  }

  lemma {:induction false} BadHistoryNeverRefines(t: Table, ops: seq<Op>, i: nat, p: Posix, p': Posix)
    requires Sized(t) && i < |ops| && BadTarget(ops[i])
    ensures !Leads(p, ops, Results(t, ops), p')
    decreases |ops|
  {
    var t', rs := Apply(t, ops[0]).0, Results(t, ops);
    if Leads(p, ops, rs, p') {
      var q :| Step(p, ops[0], q, rs[0]) && Leads(q, ops[1..], rs[1..], p');
      if i == 0 {
        BadTargetNeverRefines(t, ops[0], p, q);
      } else {
        assert rs[1..] == Results(t', ops[1..]);
        BadHistoryNeverRefines(t', ops[1..], i - 1, q, p');
      }
    }
  }

  /** A whole history refines, with the same results and final state, if and only if no dup2 in it has a bad target. */
  lemma HistoryRefinesExactlyWhen(t: Table, ops: seq<Op>)
    requires Inv(t)
    ensures Leads(Abs(t), ops, Results(t, ops), Abs(ApplyAll(t, ops))) <==>
              forall i :: 0 <= i < |ops| ==> !BadTarget(ops[i])
  {
    if i :| 0 <= i < |ops| && BadTarget(ops[i]) {
      BadHistoryNeverRefines(t, ops, i, Abs(t), Abs(ApplyAll(t, ops)));
    } else {
      GoodHistoryRefines(t, ops);
    }
  }

  /** The status flags F_GETFL reports for a descriptor. */
  function StatusOf(t: Table, fd: nat): bv32
    requires Sized(t) && Resolves(t, fd)
  {
    t.ofiles[t.fdtab[fd].ofile].status
  }

  ghost predicate SameFile(t: Table, a: nat, b: nat)
    requires Sized(t) && Resolves(t, a) && Resolves(t, b)
  {
    t.fdtab[a].ofile == t.fdtab[b].ofile
  }

  lemma ToggledBits(status: bv32, flags: bv32)
    ensures Toggled(status, flags) & O_ACCMODE == status & O_ACCMODE
    ensures Toggled(status, flags) & O_NONBLOCK == flags & O_NONBLOCK
    ensures Toggled(status, flags) & !O_NONBLOCK == status & !O_NONBLOCK
  {
  }

  /** F_SETFL reaches exactly the aliases of fd, toggles O_NONBLOCK only, and keeps every access mode. */
  lemma SetFlSeenByExactlyTheAliases(t: Table, fd: nat, flags: bv32, other: nat)
    requires Inv(t) && Resolves(t, fd) && Resolves(t, other)
    ensures var t' := SetFl(t, fd, flags).0;
            && Resolves(t', other)
            && t'.fdtab == t.fdtab
            && StatusOf(t', other) & O_ACCMODE == StatusOf(t, other) & O_ACCMODE
            && (SameFile(t, fd, other) ==> StatusOf(t', other) & O_NONBLOCK == flags & O_NONBLOCK)
            && (!SameFile(t, fd, other) ==> StatusOf(t', other) == StatusOf(t, other))
  {
    ToggledBits(StatusOf(t, fd), flags);
  }

  /** A successful dup shares the status flags and starts with FD_CLOEXEC clear. */
  lemma DuplicateSharesFileNotFlags(t: Table, fd: int)
    requires Inv(t) && Dup(t, fd).1 >= 0
    ensures var (t', r) := Dup(t, fd);
            && Resolves(t', fd) && Resolves(t', r) && r != fd
            && SameFile(t', fd, r)
            && t'.fdtab[r].flags == 0
            && t'.fdtab[fd] == t.fdtab[fd]
            && forall k: nat :: k < r ==> t.fdtab[k].used
  {
    ApplyInv(t, OpDup(fd));
    OpenAgreesWithLookup(t, fd);
    OpenAgreesWithLookup(Dup(t, fd).0, fd);
    OpenAgreesWithLookup(Dup(t, fd).0, Dup(t, fd).1);
  }

  /** What a descriptor leads to. */
  function FileOf(t: Table, fd: nat): OFile
    requires Sized(t) && Resolves(t, fd)
  {
    t.ofiles[t.fdtab[fd].ofile]
  }

  /** A new task has standard input, read-only, and standard output and error, write-only, on 0, 1 and 2, and nothing else. */
  lemma StdioMeans(fd: int)
    ensures var t := Stdio();
            && (Resolves(t, fd) <==> 0 <= fd <= 2)
            && (Resolves(t, fd) ==> t.fdtab[fd].flags == 0 && FileOf(t, fd).refs == 1 && FileOf(t, fd).kind == fd + 1)
            && (Resolves(t, fd) ==> FileOf(t, fd).status == if fd == 0 then 0 else 1)
            && (Resolves(t, 0) && Resolves(t, 1) && Resolves(t, 2))
  {
  }

  /** The kinds open_special knows, in the numbering of its callers, and the kinds it makes of them. */
  function KindFor(special: nat): nat {
    match special
    case 1 => 4   // the null device
    case 2 => 5   // the zero device
    case 3 => 6   // the terminal
    case 4 => 7   // a socket
    case _ => 0
  }

  /** A successful open: the lowest free number leads to a file of its own, of the kind asked for, with access mode and O_NONBLOCK as asked. */
  lemma OpenedFile(t: Table, special: nat, flags: bv32)
    requires Inv(t) && 1 <= special <= 4 && exists fd :: 0 <= fd < MAX_FDS && !t.fdtab[fd].used
    ensures var (r, fd) := OpenSpecial(t, special, flags);
            && 0 <= fd < 32 && !t.fdtab[fd].used && (forall k :: 0 <= k < fd ==> t.fdtab[k].used)
            && Sized(r) && Resolves(r, fd) && r.fdtab[fd].flags == 0
            && FileOf(r, fd) == OFile(true, 1, KindFor(special), flags & 0x803)
            && (forall k :: 0 <= k < 32 && k != fd ==> r.fdtab[k] == t.fdtab[k])
            && (forall o :: 0 <= o < 32 && o != r.fdtab[fd].ofile ==> r.ofiles[o] == t.ofiles[o])
  {
    FreeFdImpliesFreeOFile(t);
    assert O_ACCMODE | O_NONBLOCK == 0x803;
  }

  /** Any other number is refused. */
  lemma UnknownSpecial(t: Table, special: nat, flags: bv32)
    requires Sized(t) && !(1 <= special <= 4)
    ensures OpenSpecial(t, special, flags) == (t, -3) && KindFor(special) == 0
  {
  }

  /** F_SETFD keeps FD_CLOEXEC of the flags given, on that descriptor alone. */
  lemma SetFdMeans(t: Table, fd: nat, flags: bv32)
    requires Inv(t) && Resolves(t, fd)
    ensures var (r, rc) := SetFd(t, fd, flags);
            && rc == 0 && r.ofiles == t.ofiles && r.fdtab[fd].flags == flags & 1 && r.fdtab[fd].ofile == t.fdtab[fd].ofile
            && r.fdtab[fd].used && forall k :: 0 <= k < MAX_FDS && k != fd ==> r.fdtab[k] == t.fdtab[k]
  {
  }

  /** The error numbers: a bad descriptor is -1 for every call, a full table -2. */
  lemma ErrorCodes(t: Table, fd: int, v: bv32, n: nat)
    requires Inv(t) && n < MAX_FDS
    ensures !Resolves(t, fd) ==>
              Close(t, fd) == (t, -1) && Dup(t, fd) == (t, -1) && Dup2(t, fd, n) == (t, -1) && SetFl(t, fd, v) == (t, -1) && SetFd(t, fd, v) == (t, -1)
    ensures Resolves(t, fd) && (forall k :: 0 <= k < MAX_FDS ==> t.fdtab[k].used) ==> Dup(t, fd) == (t, -2)
  {
  }

  /** dup2 onto another valid number: it answers that number, which then shares the file with clear flags. */
  lemma Dup2Means(t: Table, oldfd: int, newfd: int)
    requires Inv(t) && Resolves(t, oldfd) && 0 <= newfd < MAX_FDS
    ensures var (r, rc) := Dup2(t, oldfd, newfd);
            && rc == newfd && Sized(r) && Resolves(r, oldfd) && Resolves(r, newfd) && SameFile(r, oldfd, newfd)
            && r.fdtab[oldfd] == t.fdtab[oldfd] && FileOf(r, oldfd).status == FileOf(t, oldfd).status
            && (oldfd == newfd ==> r == t) && (oldfd != newfd ==> r.fdtab[newfd].flags == 0)
            && forall k :: 0 <= k < MAX_FDS && k != newfd ==> r.fdtab[k] == t.fdtab[k]
  {
    Dup2Inv(t, oldfd, newfd);
    var r := Dup2(t, oldfd, newfd).0;
    if oldfd != newfd {
      Dup2IsCloseThenAlias(t, oldfd, newfd);
      CloseInv(t, newfd);
      var o := t.fdtab[oldfd].ofile;
      var t1 := Close(t, newfd).0;
      assert oldfd in Names(t1.fdtab, o) && t1.ofiles[o].refs > 0;
    }
    OpenAgreesWithLookup(r, oldfd);
    OpenAgreesWithLookup(r, newfd);
  }
}
