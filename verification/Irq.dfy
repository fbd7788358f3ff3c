/**
 The interrupt bitmap protocol of interrupt.c: host threads raise bits with an atomic OR, each core
 scans its own words and takes a bit with a compare-and-swap loop, and a read of the KEYBOARD port
 clears two bits of core 0 (vm.c). Every atomic access is one step; any interleaving is a run.
 A 64-bit word is the set of its one bits.
 */
module Irq {
  const IVT_SIZE: nat := 256
  const WORDS: nat := 4
  const BITS: nat := 64
  const INT_KEYBOARD: nat := 0
  const INT_SERIAL: nat := 3
  const UNREGISTERED: nat := 0xFFFF_FFFF_FFFF_FFFF

  /** Where a core is inside vm_handle_interrupts; Outside when it is not in it. */
  datatype Pc =
    | Outside
    | Scan(w: nat)                                  // about to load word w
    | Holding(w: nat, word: set<nat>, bit: nat)     // word loaded, bit chosen, about to swap
    | Reload(w: nat, bit: nat)                      // the swap failed, about to load again
    | Entering(v: nat)                              // the bit is taken, about to read the vector table

  datatype Core = Core(pc: Pc, inInterrupt: bool, masked: bool)

  datatype Event = Raised(core: nat, v: nat) | Took(core: nat, v: nat) | Acked

  datatype State = State(bitmap: seq<set<nat>>, cores: seq<Core>, ivt: seq<nat>, log: seq<Event>)

  datatype Action =
    | Trigger(target: int, v: nat)      // trigger_interrupt_target, from any thread
    | KeyboardAck                       // the acknowledge of an IN from the KEYBOARD port
    | Begin(c: nat)                     // vm_handle_interrupts is called
    | Load(c: nat)
    | Swap(c: nat, spurious: bool)      // a weak compare-and-swap may fail for no reason
    | LoadAgain(c: nat)
    | EnterIsr(c: nat)                  // vm_enter_interrupt for the vector just taken
    | Iret(c: nat)
    | SetMask(c: nat, on: bool)
    | SoftInt(c: nat, v: nat)
    | WriteIvt(v: nat, isr: nat)

  function Index(c: nat, w: nat): nat {
    c * WORDS + w
  }

  predicate Shape(s: State) {
    |s.bitmap| == |s.cores| * WORDS && |s.ivt| == IVT_SIZE && |s.cores| >= 1
  }

  predicate Pending(s: State, c: nat, v: nat)
    requires Shape(s) && c < |s.cores| && v < IVT_SIZE
  {
    v % BITS in s.bitmap[Index(c, v / BITS)]
  }

  /** Lowest member at or above i, or BITS. */
  function LowestFrom(word: set<nat>, i: nat): (r: nat)
    requires i <= BITS
    ensures i <= r <= BITS
    ensures r < BITS ==> r in word
    ensures forall k :: i <= k < r ==> k !in word
    decreases BITS - i, word
  {
    if i == BITS || i in word then i else LowestFrom(word, i + 1)
  }

  function Ctz(word: set<nat>): nat {
    LowestFrom(word, 0)
  }

  /** vm_enter_interrupt: does it enter the handler? */
  predicate Enters(s: State, c: nat, v: nat)
    requires Shape(s) && c < |s.cores|
  {
    v < IVT_SIZE && !s.cores[c].inInterrupt && s.ivt[v] != UNREGISTERED
  }

  predicate Enabled(s: State, a: Action)
    requires Shape(s)
  {
    match a
    case Trigger(_, _) => true
    case KeyboardAck => true
    case Begin(c) => c < |s.cores| && s.cores[c].pc.Outside? && !s.cores[c].inInterrupt && !s.cores[c].masked
    case Load(c) => c < |s.cores| && s.cores[c].pc.Scan?
    case Swap(c, _) => c < |s.cores| && s.cores[c].pc.Holding? && s.cores[c].pc.w < WORDS && s.cores[c].pc.bit < BITS
    case LoadAgain(c) => c < |s.cores| && s.cores[c].pc.Reload? && s.cores[c].pc.w < WORDS
    case EnterIsr(c) => c < |s.cores| && s.cores[c].pc.Entering?
    case Iret(c) => c < |s.cores| && s.cores[c].pc.Outside?
    case SetMask(c, _) => c < |s.cores| && s.cores[c].pc.Outside?
    case SoftInt(c, _) => c < |s.cores| && s.cores[c].pc.Outside?
    case WriteIvt(v, _) => v < IVT_SIZE
  }

  function WithPc(s: State, c: nat, pc: Pc): State
    requires c < |s.cores|
  {
    s.(cores := s.cores[c := s.cores[c].(pc := pc)])
  }

  function Raise(s: State, target: int, v: nat): State
    requires Shape(s)
  {
    if target < 0 || target >= |s.cores| || v >= IVT_SIZE then s
    else
      var i := Index(target, v / BITS);
      s.(bitmap := s.bitmap[i := s.bitmap[i] + {v % BITS}], log := s.log + [Raised(target, v)])
  }

  function Acknowledge(s: State): State
    requires Shape(s)
  {
    s.(bitmap := s.bitmap[0 := s.bitmap[0] - {INT_KEYBOARD, INT_SERIAL}], log := s.log + [Acked])
  }

  function LoadWord(s: State, c: nat): State
    requires Shape(s) && c < |s.cores| && s.cores[c].pc.Scan?
  {
    var w := s.cores[c].pc.w;
    if w >= WORDS then WithPc(s, c, Outside)
    else
      var word := s.bitmap[Index(c, w)];
      WithPc(s, c, if word == {} then Scan(w + 1) else Holding(w, word, Ctz(word)))
  }

  /** The bit is ours: clear it. */
  function Take(s: State, c: nat): State
    requires Shape(s) && Enabled(s, Swap(c, false))
  {
    var pc := s.cores[c].pc;
    var v := pc.w * BITS + pc.bit;
    WithPc(s, c, Entering(v)).(bitmap := s.bitmap[Index(c, pc.w) := pc.word - {pc.bit}], log := s.log + [Took(c, v)])
  }

  /** vm_enter_interrupt on core c: the table is read now, not when the bit was taken. */
  function EnterNow(s: State, c: nat): State
    requires Shape(s) && Enabled(s, EnterIsr(c))
  {
    var core := s.cores[c];
    s.(cores := s.cores[c := core.(pc := Outside, inInterrupt := core.inInterrupt || Enters(s, c, core.pc.v))])
  }

  /** Does this compare-and-swap succeed? */
  predicate SwapSucceeds(s: State, c: nat, spurious: bool)
    requires Shape(s) && Enabled(s, Swap(c, spurious))
  {
    var pc := s.cores[c].pc;
    pc.bit in pc.word && !spurious && s.bitmap[Index(c, pc.w)] == pc.word
  }

  function TrySwap(s: State, c: nat, spurious: bool): State
    requires Shape(s) && Enabled(s, Swap(c, spurious))
  {
    var pc := s.cores[c].pc;
    if pc.bit !in pc.word then WithPc(s, c, Scan(pc.w + 1))
    else if SwapSucceeds(s, c, spurious) then Take(s, c)
    else WithPc(s, c, Reload(pc.w, pc.bit))
  }

  function Next(s: State, a: Action): (s': State)
    requires Shape(s) && Enabled(s, a)
    ensures Shape(s') && |s'.cores| == |s.cores|
  {
    match a
    case Trigger(t, v) => Raise(s, t, v)
    case KeyboardAck => Acknowledge(s)
    case Begin(c) => WithPc(s, c, Scan(0))
    case Load(c) => LoadWord(s, c)
    case Swap(c, spurious) => TrySwap(s, c, spurious)
    case LoadAgain(c) =>
      var pc := s.cores[c].pc;
      var word := s.bitmap[Index(c, pc.w)];
      WithPc(s, c, if word == {} then Scan(pc.w + 1) else Holding(pc.w, word, pc.bit))
    case EnterIsr(c) => EnterNow(s, c)
    case Iret(c) => s.(cores := s.cores[c := s.cores[c].(inInterrupt := false)])
    case SetMask(c, on) => s.(cores := s.cores[c := s.cores[c].(masked := on)])
    case SoftInt(c, v) =>
      s.(cores := s.cores[c := s.cores[c].(inInterrupt := s.cores[c].inInterrupt || Enters(s, c, v))])
    case WriteIvt(v, isr) => s.(ivt := s.ivt[v := isr])
  }

  function Start(n: nat): State
    requires n >= 1
  {
    State(seq(n * WORDS, _ => {}), seq(n, _ => Core(Outside, false, false)), seq(IVT_SIZE, _ => UNREGISTERED), [])
  }

  // ---------------------------------------------------------------------------
  // The log says exactly what is pending
  // ---------------------------------------------------------------------------

  predicate Clears(e: Event, c: nat, v: nat) {
    || (e.Took? && e.core == c && e.v == v)
    || (e.Acked? && c == 0 && (v == INT_KEYBOARD || v == INT_SERIAL))
  }

  /** Of the events that concern (c, v), the latest is a raise. */
  predicate RaisedLast(log: seq<Event>, c: nat, v: nat) {
    if log == [] then false
    else
      var e := log[|log| - 1];
      if e.Raised? && e.core == c && e.v == v then true
      else !Clears(e, c, v) && RaisedLast(log[..|log| - 1], c, v)
  }

  ghost predicate PcOk(core: Core) {
    && (!core.pc.Outside? ==> !core.inInterrupt && !core.masked)
    && (core.pc.Holding? ==> core.pc.w < WORDS && core.pc.bit < BITS)
    && (core.pc.Reload? ==> core.pc.w < WORDS && core.pc.bit < BITS)
    && (core.pc.Entering? ==> core.pc.v < IVT_SIZE)
  }

  ghost predicate LogExact(s: State)
    requires Shape(s)
  {
    forall c, v :: 0 <= c < |s.cores| && 0 <= v < IVT_SIZE ==> (Pending(s, c, v) <==> RaisedLast(s.log, c, v))
  }

  /** Every take found its vector raised and not yet cleared. */
  ghost predicate TakesWereRaised(log: seq<Event>) {
    forall i :: 0 <= i < |log| && log[i].Took? ==> RaisedLast(log[..i], log[i].core, log[i].v)
  }

  ghost predicate Inv(s: State) {
    && Shape(s)
    && (forall i :: 0 <= i < |s.bitmap| ==> forall b :: b in s.bitmap[i] ==> b < BITS)
    && (forall c :: 0 <= c < |s.cores| ==> PcOk(s.cores[c]))
    && LogExact(s)
    && TakesWereRaised(s.log)
  }

  lemma StartInv(n: nat)
    requires n >= 1
    ensures Inv(Start(n))
  {
  }

  lemma LogGrows(log: seq<Event>, e: Event, c: nat, v: nat)
    ensures RaisedLast(log + [e], c, v) <==>
              (e.Raised? && e.core == c && e.v == v) || (!Clears(e, c, v) && RaisedLast(log, c, v))
  {
    assert (log + [e])[..|log|] == log;
  }

  lemma TakesGrow(log: seq<Event>, e: Event)
    requires TakesWereRaised(log) && (e.Took? ==> RaisedLast(log, e.core, e.v))
    ensures TakesWereRaised(log + [e])
  {
    var log' := log + [e];
    forall i | 0 <= i < |log'| && log'[i].Took?
      ensures RaisedLast(log'[..i], log'[i].core, log'[i].v)
    {
      assert log'[..i] == log[..i];
    }
  }

  /** Two vectors share a bit only if they are the same vector of the same core. */
  lemma VectorsDoNotCollide(c: nat, v: nat, d: nat, u: nat)
    requires v < IVT_SIZE && u < IVT_SIZE
    requires Index(c, v / BITS) == Index(d, u / BITS) && v % BITS == u % BITS
    ensures c == d && v == u
  {
  }

  lemma RaiseKeepsLog(s: State, target: int, v: nat)
    requires Inv(s)
    ensures LogExact(Raise(s, target, v)) && TakesWereRaised(Raise(s, target, v).log)
  {
    var r := Raise(s, target, v);
    if 0 <= target < |s.cores| && v < IVT_SIZE {
      TakesGrow(s.log, Raised(target, v));
      forall d, u | 0 <= d < |s.cores| && 0 <= u < IVT_SIZE
        ensures Pending(r, d, u) <==> RaisedLast(r.log, d, u)
      {
        LogGrows(s.log, Raised(target, v), d, u);
        if Index(target, v / BITS) == Index(d, u / BITS) && v % BITS == u % BITS {
          VectorsDoNotCollide(target, v, d, u);
        }
      }
    }
  }

  lemma AckKeepsLog(s: State)
    requires Inv(s)
    ensures LogExact(Acknowledge(s)) && TakesWereRaised(Acknowledge(s).log)
  {
    var r := Acknowledge(s);
    TakesGrow(s.log, Acked);
    forall d, u | 0 <= d < |s.cores| && 0 <= u < IVT_SIZE
      ensures Pending(r, d, u) <==> RaisedLast(r.log, d, u)
    {
      LogGrows(s.log, Acked, d, u);
    }
  }

  /** The vector a core is about to take. */
  function Held(s: State, c: nat): (v: nat)
    requires Shape(s) && Enabled(s, Swap(c, false))
    ensures v < IVT_SIZE && v / BITS == s.cores[c].pc.w && v % BITS == s.cores[c].pc.bit
  {
    s.cores[c].pc.w * BITS + s.cores[c].pc.bit
  }

  /** Taking clears the bit of exactly one vector of one core. */
  lemma TakeClearsOne(s: State, c: nat, d: nat, u: nat)
    requires Shape(s) && Enabled(s, Swap(c, false)) && SwapSucceeds(s, c, false) && d < |s.cores| && u < IVT_SIZE
    ensures Pending(Take(s, c), d, u) <==> Pending(s, d, u) && !(d == c && u == Held(s, c))
  {
    var v := Held(s, c);
    if Index(c, v / BITS) == Index(d, u / BITS) && u % BITS == v % BITS {
      VectorsDoNotCollide(c, v, d, u);
    }
  }

  lemma TakeKeepsLog(s: State, c: nat)
    requires Inv(s) && Enabled(s, Swap(c, false)) && SwapSucceeds(s, c, false)
    ensures LogExact(Take(s, c)) && TakesWereRaised(Take(s, c).log)
  {
    var r, v := Take(s, c), Held(s, c);
    assert Pending(s, c, v);
    TakesGrow(s.log, Took(c, v));
    forall d, u | 0 <= d < |s.cores| && 0 <= u < IVT_SIZE
      ensures Pending(r, d, u) <==> RaisedLast(r.log, d, u)
    {
      LogGrows(s.log, Took(c, v), d, u);
      TakeClearsOne(s, c, d, u);
    }
  }

  lemma NextInv(s: State, a: Action)
    requires Inv(s) && Enabled(s, a)
    ensures Inv(Next(s, a))
  {
    match a
    case Trigger(t, v) => RaiseKeepsLog(s, t, v);
    case KeyboardAck => AckKeepsLog(s);
    case Swap(c, spurious) =>
      if SwapSucceeds(s, c, spurious) {
        TakeKeepsLog(s, c);
      } else {
        SameBits(s, Next(s, a));
      }
    case _ => SameBits(s, Next(s, a));
  }

  lemma SameBits(s: State, r: State)
    requires Inv(s) && Shape(r) && r.bitmap == s.bitmap && |r.cores| == |s.cores| && r.log == s.log
    ensures LogExact(r)
  {
    forall c, v | 0 <= c < |r.cores| && 0 <= v < IVT_SIZE
      ensures Pending(r, c, v) <==> RaisedLast(r.log, c, v)
    {
      assert Pending(s, c, v) <==> RaisedLast(s.log, c, v);
    }
  }

  // ---------------------------------------------------------------------------
  // Runs
  // ---------------------------------------------------------------------------

  ghost predicate Possible(s: State, run: seq<Action>)
    requires Shape(s)
    decreases |run|
  {
    run != [] ==> Enabled(s, run[0]) && Possible(Next(s, run[0]), run[1..])
  }

  ghost function After(s: State, run: seq<Action>): (r: State)
    requires Shape(s) && Possible(s, run)
    ensures Shape(r) && |r.cores| == |s.cores|
    decreases |run|
  {
    if run == [] then s else After(Next(s, run[0]), run[1..])
  }

  lemma {:induction false} RunInv(s: State, run: seq<Action>)
    requires Inv(s) && Possible(s, run)
    ensures Inv(After(s, run))
    decreases |run|
  {
    if run != [] {
      NextInv(s, run[0]);
      RunInv(Next(s, run[0]), run[1..]);
    }
  }

  lemma {:induction false} LogOnlyGrows(s: State, run: seq<Action>)
    requires Shape(s) && Possible(s, run)
    ensures s.log <= After(s, run).log
    decreases |run|
  {
    if run != [] {
      LogOnlyGrows(Next(s, run[0]), run[1..]);
    }
  }

  lemma {:induction false} RaiseSurvives(log: seq<Event>, more: seq<Event>, c: nat, v: nat)
    requires RaisedLast(log, c, v) && forall i :: 0 <= i < |more| ==> !Clears(more[i], c, v)
    ensures RaisedLast(log + more, c, v)
    decreases |more|
  {
    if more == [] {
      assert log + more == log;
    } else {
      var init, e := more[..|more| - 1], more[|more| - 1];
      RaiseSurvives(log, init, c, v);
      assert log + more == (log + init) + [e];
      LogGrows(log + init, e, c, v);
    }
  }

  /**
   A bit raised for (core, vector) stays pending through any run in which that core does not take it;
   only vectors 0 and 3 of core 0 can also be cleared by a KEYBOARD read.
   */
  lemma PendingUntilTaken(s: State, run: seq<Action>, c: nat, v: nat)
    requires Inv(s) && Possible(s, run) && c < |s.cores| && v < IVT_SIZE && Pending(s, c, v)
    requires forall i :: |s.log| <= i < |After(s, run).log| ==> !Clears(After(s, run).log[i], c, v)
    ensures Pending(After(s, run), c, v)
  {
    var r := After(s, run);
    RunInv(s, run);
    LogOnlyGrows(s, run);
    var more := r.log[|s.log|..];
    assert r.log == s.log + more;
    RaiseSurvives(s.log, more, c, v);
  }

  /** In every run, a vector that is taken was raised after its previous take or acknowledge. */
  lemma EveryTakeFollowsARaise(n: nat, run: seq<Action>, i: nat)
    requires n >= 1 && Possible(Start(n), run)
    requires i < |After(Start(n), run).log| && After(Start(n), run).log[i].Took?
    ensures var log := After(Start(n), run).log;
            exists j :: && 0 <= j < i && log[j] == Raised(log[i].core, log[i].v)
                        && forall k :: j < k < i ==> !Clears(log[k], log[i].core, log[i].v)
  {
    StartInv(n);
    RunInv(Start(n), run);
    var log := After(Start(n), run).log;
    var j := LatestRaise(log[..i], log[i].core, log[i].v);
    assert log[..i][j] == log[j];
    forall k | j < k < i
      ensures !Clears(log[k], log[i].core, log[i].v)
    {
      assert log[..i][k] == log[k];
    }
  }

  lemma {:induction false} LatestRaise(log: seq<Event>, c: nat, v: nat) returns (j: nat)
    requires RaisedLast(log, c, v)
    ensures j < |log| && log[j] == Raised(c, v)
    ensures forall k :: j < k < |log| ==> !Clears(log[k], c, v)
    decreases |log|
  {
    var e := log[|log| - 1];
    if e.Raised? && e.core == c && e.v == v {
      j := |log| - 1;
    } else {
      j := LatestRaise(log[..|log| - 1], c, v);
    }
  }

  /** A successful swap takes a pending vector and nothing else; the core is then about to enter it. */
  lemma SwapTakesPending(s: State, c: nat, spurious: bool)
    requires Inv(s) && Enabled(s, Swap(c, spurious)) && SwapSucceeds(s, c, spurious)
    ensures var v := s.cores[c].pc.w * BITS + s.cores[c].pc.bit;
            var r := Next(s, Swap(c, spurious));
            && v < IVT_SIZE
            && Pending(s, c, v) && !Pending(r, c, v)
            && r.log == s.log + [Took(c, v)]
            && r.cores[c].pc == Entering(v)
  {
    assert PcOk(s.cores[c]);
  }

  /**
   A core about to enter a vector it has taken stays there, outside every handler, through any run of
   all the other threads and cores, and its next own step enters unless the entry is unregistered then.
   */
  lemma {:induction false} TakenVectorEnters(s: State, c: nat, run: seq<Action>)
    requires Inv(s) && c < |s.cores| && s.cores[c].pc.Entering? && Possible(s, run)
    requires forall i :: 0 <= i < |run| ==> run[i] != EnterIsr(c)
    ensures var r := After(s, run);
            && Inv(r) && r.cores[c] == s.cores[c] && Enabled(r, EnterIsr(c))
            && !r.cores[c].inInterrupt && s.cores[c].pc.v < IVT_SIZE
            && (Next(r, EnterIsr(c)).cores[c].inInterrupt <==> r.ivt[s.cores[c].pc.v] != UNREGISTERED)
            && Next(r, EnterIsr(c)).cores[c].pc.Outside?
    decreases |run|
  {
    assert PcOk(s.cores[c]);
    if run != [] {
      NextInv(s, run[0]);
      assert Next(s, run[0]).cores[c] == s.cores[c];
      TakenVectorEnters(Next(s, run[0]), c, run[1..]);
    }
  }

  /** Which core performs the action, if it is a core's own. */
  predicate By(a: Action, c: nat) {
    match a
    case Trigger(_, _) => false
    case KeyboardAck => false
    case WriteIvt(_, _) => false
    case _ => a.c == c
  }

  /** No core's own step touches another core's bits or state. */
  lemma OtherCoresUntouched(s: State, a: Action, c: nat, d: nat, v: nat)
    requires Inv(s) && Enabled(s, a) && By(a, c) && c < |s.cores| && d < |s.cores| && d != c && v < IVT_SIZE
    ensures Pending(Next(s, a), d, v) == Pending(s, d, v)
    ensures Next(s, a).cores[d] == s.cores[d]
  {
  }

  // ---------------------------------------------------------------------------
  // The scan, left alone
  // ---------------------------------------------------------------------------

  /** Smallest pending vector of core c at or after word w, or IVT_SIZE. */
  function LowestVector(s: State, c: nat, w: nat): (v: nat)
    requires Shape(s) && c < |s.cores| && w <= WORDS
    ensures v <= IVT_SIZE
    ensures v < IVT_SIZE ==> Pending(s, c, v)
    ensures forall u :: w * BITS <= u < v ==> !Pending(s, c, u)
    decreases |s.ivt| / BITS - w
  {
    if w == WORDS then IVT_SIZE
    else
      var bit := Ctz(s.bitmap[Index(c, w)]);
      if bit < BITS then w * BITS + bit else LowestVector(s, c, w + 1)
  }

  /** The actions of one call of vm_handle_interrupts from word w when nobody interferes. */
  ghost function Undisturbed(s: State, c: nat, w: nat): seq<Action>
    requires Shape(s) && c < |s.cores| && w <= WORDS
    decreases WORDS - w, s
  {
    if w == WORDS then [Load(c)]
    else if s.bitmap[Index(c, w)] == {} then [Load(c)] + Undisturbed(s, c, w + 1)
    else [Load(c), Swap(c, false), EnterIsr(c)]
  }

  /** What one undisturbed call achieves, seen from word w on. */
  ghost predicate TookLowest(s: State, r: State, c: nat, v: nat)
    requires Shape(s) && v <= IVT_SIZE && c < |r.cores|
  {
    && r.cores[c].pc.Outside?
    && (v == IVT_SIZE ==> r.bitmap == s.bitmap && r.log == s.log)
    && (v < IVT_SIZE ==> r.log == s.log + [Took(c, v)] && (r.cores[c].inInterrupt <==> s.ivt[v] != UNREGISTERED))
  }

  lemma PrependStep(s: State, a: Action, rest: seq<Action>)
    requires Shape(s) && Enabled(s, a) && Possible(Next(s, a), rest)
    ensures Possible(s, [a] + rest) && After(s, [a] + rest) == After(Next(s, a), rest)
  {
    assert ([a] + rest)[1..] == rest;
  }

  /** Loading a non-empty word picks its lowest bit, which is the lowest vector pending from there on. */
  lemma LoadPicksLowest(s: State, c: nat, w: nat)
    requires Inv(s) && c < |s.cores| && w < WORDS && s.cores[c].pc == Scan(w) && s.bitmap[Index(c, w)] != {}
    ensures var word := s.bitmap[Index(c, w)];
            && Ctz(word) < BITS && Ctz(word) in word
            && Next(s, Load(c)) == WithPc(s, c, Holding(w, word, Ctz(word)))
            && LowestVector(s, c, w) == w * BITS + Ctz(word)
  {
    var word := s.bitmap[Index(c, w)];
    var b :| b in word;
    assert b < BITS && Ctz(word) <= b;
  }

  /** A core holding a current word takes its bit and enters. */
  lemma HoldingTakes(s: State, c: nat)
    requires Inv(s) && Enabled(s, Swap(c, false)) && SwapSucceeds(s, c, false)
    ensures Possible(s, [Swap(c, false), EnterIsr(c)])
    ensures var v := s.cores[c].pc.w * BITS + s.cores[c].pc.bit;
            v < IVT_SIZE && TookLowest(s, After(s, [Swap(c, false), EnterIsr(c)]), c, v)
  {
    var s1 := Next(s, Swap(c, false));
    SwapTakesPending(s, c, false);
    NextInv(s, Swap(c, false));
    TakenVectorEnters(s1, c, []);
    PrependStep(s1, EnterIsr(c), []);
    assert [EnterIsr(c)] + [] == [EnterIsr(c)];
    PrependStep(s, Swap(c, false), [EnterIsr(c)]);
    assert [Swap(c, false)] + [EnterIsr(c)] == [Swap(c, false), EnterIsr(c)];
  }

  lemma UndisturbedHit(s: State, c: nat, w: nat)
    requires Inv(s) && c < |s.cores| && w < WORDS && s.cores[c].pc == Scan(w) && s.bitmap[Index(c, w)] != {}
    ensures Possible(s, [Load(c), Swap(c, false), EnterIsr(c)])
    ensures TookLowest(s, After(s, [Load(c), Swap(c, false), EnterIsr(c)]), c, LowestVector(s, c, w))
  {
    LoadPicksLowest(s, c, w);
    NextInv(s, Load(c));
    HoldingTakes(Next(s, Load(c)), c);
    PrependStep(s, Load(c), [Swap(c, false), EnterIsr(c)]);
    assert [Load(c)] + [Swap(c, false), EnterIsr(c)] == [Load(c), Swap(c, false), EnterIsr(c)];
  }

  lemma CtzOfEmpty()
    ensures Ctz({}) == BITS
  {
    var r := Ctz({});
    assert r < BITS ==> r in {};
  }

  lemma UndisturbedMiss(s: State, c: nat, w: nat)
    requires Shape(s) && c < |s.cores| && w < WORDS && s.cores[c].pc == Scan(w) && s.bitmap[Index(c, w)] == {}
    requires Possible(Next(s, Load(c)), Undisturbed(Next(s, Load(c)), c, w + 1))
    requires TookLowest(Next(s, Load(c)), After(Next(s, Load(c)), Undisturbed(Next(s, Load(c)), c, w + 1)), c,
                        LowestVector(Next(s, Load(c)), c, w + 1))
    ensures Possible(s, Undisturbed(s, c, w))
    ensures TookLowest(s, After(s, Undisturbed(s, c, w)), c, LowestVector(s, c, w))
  {
    var s1 := Next(s, Load(c));
    UndisturbedSame(s, s1, c, w + 1);
    var rest := Undisturbed(s, c, w + 1);
    PrependStep(s, Load(c), rest);
    CtzOfEmpty();
    assert LowestVector(s, c, w) == LowestVector(s, c, w + 1);
  }

  /** Left alone, the handler takes the lowest pending vector of its core, and nothing when there is none. */
  lemma {:induction false} UndisturbedTakesLowest(s: State, c: nat, w: nat)
    requires Inv(s) && c < |s.cores| && w <= WORDS && s.cores[c].pc == Scan(w)
    ensures Possible(s, Undisturbed(s, c, w))
    ensures TookLowest(s, After(s, Undisturbed(s, c, w)), c, LowestVector(s, c, w))
    decreases WORDS - w
  {
    if w == WORDS {
      PrependStep(s, Load(c), []);
      assert [Load(c)] + [] == [Load(c)];
    } else if s.bitmap[Index(c, w)] == {} {
      var s1 := Next(s, Load(c));
      NextInv(s, Load(c));
      UndisturbedTakesLowest(s1, c, w + 1);
      UndisturbedMiss(s, c, w);
    } else {
      UndisturbedHit(s, c, w);
    }
  }

  lemma {:induction false} UndisturbedSame(s: State, r: State, c: nat, w: nat)
    requires Shape(s) && Shape(r) && r.bitmap == s.bitmap && |r.cores| == |s.cores| && c < |s.cores| && w <= WORDS
    ensures Undisturbed(r, c, w) == Undisturbed(s, c, w) && LowestVector(r, c, w) == LowestVector(s, c, w)
    decreases WORDS - w
  {
    if w < WORDS {
      UndisturbedSame(s, r, c, w + 1);
    }
  }

  // ---------------------------------------------------------------------------
  // What each action does
  // ---------------------------------------------------------------------------

  /** A trigger in range makes exactly that vector of that core pending; out of range it does nothing. */
  lemma TriggerRaises(s: State, target: int, v: nat, d: nat, u: nat)
    requires Shape(s) && d < |s.cores| && u < IVT_SIZE
    ensures var r := Next(s, Trigger(target, v));
            && (0 <= target < |s.cores| && v < 256 ==> (Pending(r, d, u) <==> (d == target && u == v) || Pending(s, d, u)))
            && (!(0 <= target < |s.cores| && v < 256) ==> r == s)
            && r.cores == s.cores && r.ivt == s.ivt
  {
    if 0 <= target < |s.cores| && v < IVT_SIZE && Index(target, v / BITS) == Index(d, u / BITS) && v % BITS == u % BITS {
      VectorsDoNotCollide(target, v, d, u);
    }
  }

  /** The acknowledge of a KEYBOARD read clears vectors 0 and 3 of core 0 and no other. */
  lemma AckClears(s: State, d: nat, u: nat)
    requires Shape(s) && d < |s.cores| && u < IVT_SIZE
    ensures Pending(Next(s, KeyboardAck), d, u) <==> Pending(s, d, u) && !(d == 0 && (u == 0 || u == 3))
  {
  }

  /** A core begins a scan only when it is neither in a handler nor masked, and begins it at its first word. */
  lemma BeginsAtFirstWord(s: State, c: nat)
    requires Shape(s) && c < |s.cores|
    ensures Enabled(s, Begin(c)) <==> s.cores[c] == Core(Outside, false, false)
    ensures Enabled(s, Begin(c)) ==> Next(s, Begin(c)).cores[c].pc == Scan(0) && Next(s, Begin(c)).bitmap == s.bitmap
  {
  }

  /** A write to the vector table registers that vector and no other, and changes nothing else. */
  lemma WriteIvtRegisters(s: State, v: nat, isr: nat, u: nat)
    requires Shape(s) && v < IVT_SIZE && u < IVT_SIZE
    ensures var r := Next(s, WriteIvt(v, isr));
            && r.ivt[u] == (if u == v then isr else s.ivt[u]) && r.bitmap == s.bitmap && r.cores == s.cores && r.log == s.log
  {
  }

  /** IRET leaves the handler, a mask write sets the mask, INT enters exactly like an interrupt; the bits stay. */
  lemma CoreActions(s: State, c: nat, on: bool, v: nat)
    requires Shape(s) && c < |s.cores| && s.cores[c].pc.Outside?
    ensures Next(s, Iret(c)).cores[c] == s.cores[c].(inInterrupt := false)
    ensures Next(s, SetMask(c, on)).cores[c] == s.cores[c].(masked := on)
    ensures var r := Next(s, SoftInt(c, v)).cores[c];
            && r.pc.Outside? && r.masked == s.cores[c].masked
            && (r.inInterrupt <==> s.cores[c].inInterrupt || (v < 256 && s.ivt[v] != UNREGISTERED))
    ensures Next(s, Iret(c)).bitmap == s.bitmap && Next(s, SetMask(c, on)).bitmap == s.bitmap && Next(s, SoftInt(c, v)).bitmap == s.bitmap
  {
  }

  lemma FailedSwapReloads(s: State, c: nat, spurious: bool)
    requires Inv(s) && Enabled(s, Swap(c, spurious)) && !SwapSucceeds(s, c, spurious)
    requires s.cores[c].pc.bit in s.cores[c].pc.word && s.cores[c].pc.bit in s.bitmap[Index(c, s.cores[c].pc.w)]
    ensures var s1, pc := Next(s, Swap(c, spurious)), s.cores[c].pc;
            && Enabled(s1, LoadAgain(c)) && Inv(Next(s1, LoadAgain(c)))
            && Next(s1, LoadAgain(c)) == WithPc(s, c, Holding(pc.w, s.bitmap[Index(c, pc.w)], pc.bit))
  {
    NextInv(s, Swap(c, spurious));
    NextInv(Next(s, Swap(c, spurious)), LoadAgain(c));
  }

  /** A swap that fails, spuriously or because the word has changed, loses nothing: left alone the core still takes its bit. */
  lemma FailedSwapStillTakes(s: State, c: nat, spurious: bool)
    requires Inv(s) && Enabled(s, Swap(c, spurious)) && !SwapSucceeds(s, c, spurious)
    requires s.cores[c].pc.bit in s.cores[c].pc.word && s.cores[c].pc.bit in s.bitmap[Index(c, s.cores[c].pc.w)]
    ensures var run := [Swap(c, spurious)] + ([LoadAgain(c)] + [Swap(c, false), EnterIsr(c)]);
            && Possible(s, run)
            && TookLowest(s, After(s, run), c, Held(s, c))
  {
    var s1 := Next(s, Swap(c, spurious));
    var s2 := Next(s1, LoadAgain(c));
    FailedSwapReloads(s, c, spurious);
    HoldingTakes(s2, c);
    PrependStep(s1, LoadAgain(c), [Swap(c, false), EnterIsr(c)]);
    PrependStep(s, Swap(c, spurious), [LoadAgain(c)] + [Swap(c, false), EnterIsr(c)]);
  }

  /** If its bit is gone meanwhile, the core goes on with the next word. */
  lemma LostBitMovesOn(s: State, c: nat)
    requires Inv(s) && c < |s.cores| && s.cores[c].pc.Reload? && s.cores[c].pc.bit !in s.bitmap[Index(c, s.cores[c].pc.w)]
    ensures Enabled(s, LoadAgain(c))
    ensures var s1, w := Next(s, LoadAgain(c)), s.cores[c].pc.w;
            || s1.cores[c].pc == Scan(w + 1)
            || (Enabled(s1, Swap(c, false)) && Next(s1, Swap(c, false)).cores[c].pc == Scan(w + 1) && Next(s1, Swap(c, false)).bitmap == s.bitmap)
  {
    assert PcOk(s.cores[c]);
  }
}
