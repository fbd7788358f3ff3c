/**
 The terminal line discipline of kernel/src/console.c on an abstract queue: canonical input
 processing in the sense of section 11.1.6 of the POSIX.1-2017 Base Definitions. The ring buffer
 and its counters are in ConsoleObject.dfy, proved to behave as this queue.
 */
module LineDiscipline {
  import opened Bytes

  /** The ring holds 256 cells of which one always stays free. */
  const CAPACITY: nat := 255

  const NL: byte := 0x0A
  const CR: byte := 0x0D
  const VINTR: byte := 0x03
  const VEOF: byte := 0x04
  const BS: byte := 0x08
  const DEL: byte := 0x7F
  const VKILL: byte := 0x15

  const IO_BLOCKED: int := -1

  datatype Mode = Mode(echo: bool, icanon: bool, isig: bool)

  /**
   Unread bytes, dropped-byte count, mode, and the number of 0x04 bytes that raw-mode reads have
   taken so far (history: the driver's EOF counter still includes them).
   */
  datatype Tty = Tty(queue: seq<byte>, dropped: nat, mode: Mode, rawEofs: nat)

  const INIT: Tty := Tty([], 0, Mode(true, true, true), 0)

  predicate IsTerm(c: byte) {
    c == NL || c == VEOF
  }

  /** Length of the prefix up to and including the last line terminator. */
  function CommittedLen(q: seq<byte>): (n: nat)
    ensures n <= |q|
  {
    if q == [] then 0
    else if IsTerm(q[|q| - 1]) then |q|
    else CommittedLen(q[..|q| - 1])
  }

  /** It ends at a terminator and none follows. */
  lemma {:induction false} CommittedFacts(q: seq<byte>)
    ensures var n := CommittedLen(q);
            (n > 0 ==> IsTerm(q[n - 1])) && forall k :: n <= k < |q| ==> !IsTerm(q[k])
  {
    if q != [] && !IsTerm(q[|q| - 1]) {
      CommittedFacts(q[..|q| - 1]);
    }
  }

  /** The part of the input that editing must never touch. */
  function Committed(q: seq<byte>): seq<byte> {
    q[..CommittedLen(q)]
  }

  function Count(q: seq<byte>, c: byte): nat {
    if q == [] then 0 else (if q[0] == c then 1 else 0) + Count(q[1..], c)
  }

  // ---------------------------------------------------------------------------
  // Feeding one byte
  // ---------------------------------------------------------------------------

  /** New terminal, bytes echoed to the screen, and whether one waiting reader is woken. */
  datatype Fed = Fed(tty: Tty, echo: seq<byte>, woke: bool)

  predicate Echoable(c: byte) {
    c == 0x07 || c == NL || c == CR || c == 0x09 || c == 0x0B || c == 0x0C || 0x20 <= c <= 0x7E
  }

  function Repeat(c: byte, n: nat): (r: seq<byte>)
    ensures |r| == n
  {
    if n == 0 then [] else [c] + Repeat(c, n - 1)
  }

  function Enqueue(t: Tty, c: byte, doEcho: bool): Fed {
    if |t.queue| >= CAPACITY then Fed(t.(dropped := t.dropped + 1), [], false)
    else Fed(t.(queue := t.queue + [c]), if doEcho && t.mode.echo && Echoable(c) then [c] else [], true)
  }

  /** Drop the whole editable tail; one backspace is echoed per dropped byte. */
  function Kill(t: Tty): Fed {
    var n := CommittedLen(t.queue);
    Fed(t.(queue := t.queue[..n]), if t.mode.echo then Repeat(BS, |t.queue| - n) else [], false)
  }

  /** Drop the last byte unless the line it belongs to is already terminated. */
  function Erase(t: Tty): Fed {
    if CommittedLen(t.queue) == |t.queue| then Fed(t, [], false)
    else Fed(t.(queue := t.queue[..|t.queue| - 1]), if t.mode.echo then [BS] else [], false)
  }

  function Interrupt(t: Tty): Fed {
    var k := Kill(t);
    var e := Enqueue(k.tty, NL, false);
    Fed(e.tty, k.echo + (if t.mode.echo then [0x5E, 0x43, NL] else []), e.woke)
  }

  function Feed(t: Tty, raw: byte): Fed {
    var c := if raw == CR then NL else raw;
    if c == VINTR && t.mode.isig then Interrupt(t)
    else if t.mode.icanon && c == VKILL then Kill(t)
    else if t.mode.icanon && (c == BS || c == DEL) then Erase(t)
    else if t.mode.icanon && c == VEOF then Enqueue(t, c, false)
    else if c == 0 then Fed(t, [], false)
    else Enqueue(t, c, true)
  }

  // ---------------------------------------------------------------------------
  // Reading
  // ---------------------------------------------------------------------------

  /** Index of the first terminator, or |q|. */
  function FirstTerm(q: seq<byte>): (f: nat)
    ensures f <= |q|
  {
    if q == [] || IsTerm(q[0]) then 0 else 1 + FirstTerm(q[1..])
  }

  lemma {:induction false} FirstTermFacts(q: seq<byte>)
    ensures var f := FirstTerm(q);
            (f < |q| ==> IsTerm(q[f])) && forall k :: 0 <= k < f ==> !IsTerm(q[k])
  {
    if q != [] && !IsTerm(q[0]) {
      FirstTermFacts(q[1..]);
    }
  }

  /** What console_can_read tests: a line, or the driver's (historical) EOF counter. */
  predicate CanRead(t: Tty) {
    if t.mode.icanon then Count(t.queue, NL) != 0 || Count(t.queue, VEOF) + t.rawEofs != 0
    else t.queue != []
  }

  /** Terminal afterwards, bytes stored in the caller's buffer, and the return code. */
  datatype ReadResult = ReadResult(tty: Tty, out: seq<byte>, rc: int)

  function Code(n: nat, sawEof: bool, nonblock: bool): int {
    if n != 0 then n else if sawEof || nonblock then 0 else IO_BLOCKED
  }

  /** Bytes removed from the queue by a read of at most len bytes, and bytes handed over. */
  function Taken(t: Tty, len: nat): (r: (nat, nat))
    ensures r.1 <= r.0 <= |t.queue| && r.1 <= len
  {
    if !t.mode.icanon then
      var n := if len < |t.queue| then len else |t.queue|;
      (n, n)
    else
      var f := FirstTerm(t.queue);
      if len <= f then (len, len)
      else if f == |t.queue| then (f, f)
      else if t.queue[f] == NL then (f + 1, f + 1)
      else (f + 1, f)
  }

  function Read(t: Tty, len: nat, nonblock: bool): ReadResult {
    if len == 0 then ReadResult(t, [], 0)
    else if t.mode.icanon && !CanRead(t) then ReadResult(t, [], if nonblock then 0 else IO_BLOCKED)
    else
      var (gone, given) := Taken(t, len);
      var eaten := if t.mode.icanon then 0 else Count(t.queue[..gone], VEOF);
      ReadResult(t.(queue := t.queue[gone..], rawEofs := t.rawEofs + eaten),
                 t.queue[..given], Code(given, gone != given, nonblock))
  }

  /** Terminal afterwards, bytes copied, and whether an EOF marker ended the copy. */
  datatype Copied = Copied(tty: Tty, out: seq<byte>, sawEof: bool)

  /** The terminal once its oldest byte is gone. */
  function Tail(t: Tty): Tty
    requires t.queue != []
  {
    t.(queue := t.queue[1..], rawEofs := t.rawEofs + (if !t.mode.icanon && t.queue[0] == VEOF then 1 else 0))
  }

  /** The copy loop of console_read, byte by byte, with room for so many more. */
  function Copy(t: Tty, room: nat): Copied
    decreases room
  {
    if room == 0 || t.queue == [] then Copied(t, [], false)
    else if t.mode.icanon && t.queue[0] == VEOF then Copied(Tail(t), [], true)
    else if t.mode.icanon && t.queue[0] == NL then Copied(Tail(t), [NL], false)
    else
      var rest := Copy(Tail(t), room - 1);
      rest.(out := [t.queue[0]] + rest.out)
  }

  // ---------------------------------------------------------------------------
  // Facts about counting and committed text
  // ---------------------------------------------------------------------------

  lemma {:induction false} CountConcat(a: seq<byte>, b: seq<byte>, c: byte)
    ensures Count(a + b, c) == Count(a, c) + Count(b, c)
  {
    if a == [] {
      assert a + b == b;
    } else {
      CountConcat(a[1..], b, c);
      assert (a + b)[1..] == a[1..] + b;
    }
  }

  lemma {:induction false} CountZero(q: seq<byte>, c: byte)
    ensures Count(q, c) == 0 <==> c !in q
  {
    if q != [] {
      CountZero(q[1..], c);
      assert q == [q[0]] + q[1..];
    }
  }

  lemma AppendCommitted(q: seq<byte>, c: byte)
    ensures CommittedLen(q + [c]) == if IsTerm(c) then |q| + 1 else CommittedLen(q)
  {
    assert (q + [c])[..|q|] == q;
  }

  lemma {:induction false} DropCommitted(q: seq<byte>, k: nat)
    requires k <= |q|
    ensures CommittedLen(q[k..]) == if CommittedLen(q) <= k then 0 else CommittedLen(q) - k
  {
    if k < |q| {
      var init := q[..|q| - 1];
      assert q[k..][|q| - k - 1] == q[|q| - 1];
      if !IsTerm(q[|q| - 1]) {
        DropCommitted(init, k);
        assert q[k..][..|q| - k - 1] == init[k..];
      }
    }
  }

  lemma {:induction false} TruncateCommitted(q: seq<byte>, k: nat)
    requires CommittedLen(q) <= k <= |q|
    ensures CommittedLen(q[..k]) == CommittedLen(q)
  {
    if k == |q| {
      assert q[..k] == q;
    } else {
      TruncateCommitted(q[..|q| - 1], k);
      assert q[..|q| - 1][..k] == q[..k];
    }
  }

  lemma SplitFirst(q: seq<byte>, n: nat)
    requires 1 <= n <= |q|
    ensures q[..n] == [q[0]] + q[1..][..n - 1] && q[n..] == q[1..][n - 1..]
  {
  }

  lemma {:induction false} RawCopyTakes(t: Tty, room: nat)
    requires !t.mode.icanon
    ensures var n := Taken(t, room).0;
            Copy(t, room) == Copied(t.(queue := t.queue[n..], rawEofs := t.rawEofs + Count(t.queue[..n], VEOF)), t.queue[..n], false)
    decreases room
  {
    var q, n := t.queue, Taken(t, room).0;
    if n == 0 {
      assert q[0..] == q && q[..0] == [];
    } else {
      RawCopyTakes(Tail(t), room - 1);
      SplitFirst(q, n);
      CountConcat([q[0]], q[1..][..n - 1], VEOF);
    }
  }

  lemma TakenStep(t: Tty, room: nat)
    requires t.mode.icanon && room > 0 && t.queue != [] && !IsTerm(t.queue[0])
    ensures Taken(t, room) == (Taken(Tail(t), room - 1).0 + 1, Taken(Tail(t), room - 1).1 + 1)
  {
    assert FirstTerm(t.queue) == 1 + FirstTerm(t.queue[1..]);
  }

  lemma {:induction false} CanonicalCopyTakes(t: Tty, room: nat)
    requires t.mode.icanon
    ensures var (gone, given) := Taken(t, room);
            Copy(t, room) == Copied(t.(queue := t.queue[gone..]), t.queue[..given], gone != given)
    decreases room
  {
    var q := t.queue;
    var (gone, given) := Taken(t, room);
    if room == 0 || q == [] {
      assert q[0..] == q && q[..0] == [];
    } else if IsTerm(q[0]) {
      assert q[..1] == [q[0]] && q[..0] == [];
    } else {
      CanonicalCopyTakes(Tail(t), room - 1);
      TakenStep(t, room);
      SplitFirst(q, gone);
      SplitFirst(q, given);
      assert Copy(t, room).out == [q[0]] + Copy(Tail(t), room - 1).out;
    }
  }

  /** The loop takes exactly the prefix that Taken describes. */
  lemma CopyTakes(t: Tty, room: nat)
    ensures var (gone, given) := Taken(t, room);
            var eaten := if t.mode.icanon then 0 else Count(t.queue[..gone], VEOF);
            Copy(t, room) == Copied(t.(queue := t.queue[gone..], rawEofs := t.rawEofs + eaten), t.queue[..given], gone != given)
  {
    if t.mode.icanon {
      CanonicalCopyTakes(t, room);
    } else {
      RawCopyTakes(t, room);
    }
  }

  // ---------------------------------------------------------------------------
  // One event: committed text is safe, the queue stays within 255 bytes
  // ---------------------------------------------------------------------------

  lemma EnqueueKeepsCommitted(t: Tty, c: byte, doEcho: bool)
    requires |t.queue| <= CAPACITY
    ensures var t' := Enqueue(t, c, doEcho).tty;
            |t'.queue| <= CAPACITY && Committed(t.queue) <= Committed(t'.queue)
  {
    AppendCommitted(t.queue, c);
  }

  lemma KillKeepsCommitted(t: Tty)
    ensures Kill(t).tty.queue == Committed(t.queue) == Committed(Kill(t).tty.queue)
  {
    TruncateCommitted(t.queue, CommittedLen(t.queue));
  }

  lemma EraseKeepsCommitted(t: Tty)
    ensures Committed(Erase(t).tty.queue) == Committed(t.queue)
  {
    if CommittedLen(t.queue) != |t.queue| {
      TruncateCommitted(t.queue, |t.queue| - 1);
    }
  }

  /** No byte fed, in any mode, alters text at or before the last unread terminator. */
  lemma FeedKeepsCommitted(t: Tty, c: byte)
    requires |t.queue| <= CAPACITY
    ensures |Feed(t, c).tty.queue| <= CAPACITY
    ensures Committed(t.queue) <= Committed(Feed(t, c).tty.queue)
    ensures Feed(t, c).tty.mode == t.mode && Feed(t, c).tty.rawEofs == t.rawEofs
  {
    var b := if c == CR then NL else c;
    if b == VINTR && t.mode.isig {
      KillKeepsCommitted(t);
      EnqueueKeepsCommitted(Kill(t).tty, NL, false);
    } else if t.mode.icanon && b == VKILL {
      KillKeepsCommitted(t);
    } else if t.mode.icanon && (b == BS || b == DEL) {
      EraseKeepsCommitted(t);
    } else {
      EnqueueKeepsCommitted(t, b, !(t.mode.icanon && b == VEOF));
    }
  }

  /** The bytes taken and not handed over are none, or one EOF marker. */
  lemma TakenButNotGiven(t: Tty, len: nat)
    ensures var (gone, given) := Taken(t, len);
            gone == given || (t.mode.icanon && gone == given + 1 && t.queue[..gone] == t.queue[..given] + [VEOF])
  {
    FirstTermFacts(t.queue);
    var (gone, given) := Taken(t, len);
    if gone != given {
      assert t.queue[..gone] == t.queue[..given] + [t.queue[given]];
    }
  }

  lemma SplitAt(q: seq<byte>, n: nat)
    requires n <= |q|
    ensures q == q[..n] + q[n..] && |q| - |q[n..]| == n && |q[..n]| == n
  {
  }

  /** What a read removes is a prefix of the queue; it hands all of it over, or all but a final EOF marker. */
  lemma ReadTakesPrefix(t: Tty, len: nat, nonblock: bool)
    ensures var r := Read(t, len, nonblock);
            var gone := |t.queue| - |r.tty.queue|;
            && 0 <= gone && t.queue == t.queue[..gone] + r.tty.queue
            && |r.out| <= len
            && (t.queue[..gone] == r.out || (t.mode.icanon && t.queue[..gone] == r.out + [VEOF]))
            && r.tty.mode == t.mode && r.tty.dropped == t.dropped
  {
    TakenButNotGiven(t, len);
    SplitAt(t.queue, Taken(t, len).0);
    SplitAt(t.queue, 0);
  }

  /** A canonical read never goes past the first unread terminator, and returns at most one line. */
  lemma CanonicalReadStopsAtTerminator(t: Tty, len: nat, nonblock: bool)
    requires t.mode.icanon
    ensures var r := Read(t, len, nonblock);
            && |t.queue| - |r.tty.queue| <= FirstTerm(t.queue) + 1
            && VEOF !in r.out
            && forall k :: 0 <= k < |r.out| && r.out[k] == NL ==> k == |r.out| - 1
  {
    FirstTermFacts(t.queue);
  }

  // ---------------------------------------------------------------------------
  // Runs
  // ---------------------------------------------------------------------------

  datatype Event = EvFeed(c: byte) | EvRead(len: nat, nonblock: bool) | EvMode(mode: Mode)

  /** The terminal and every byte that has left its queue, in order. */
  datatype Session = Session(tty: Tty, consumed: seq<byte>)

  function Next(s: Session, e: Event): Session {
    match e
    case EvFeed(c) => s.(tty := Feed(s.tty, c).tty)
    case EvRead(len, nb) =>
      var t' := Read(s.tty, len, nb).tty;
      Session(t', s.consumed + s.tty.queue[..if |t'.queue| <= |s.tty.queue| then |s.tty.queue| - |t'.queue| else 0])
    case EvMode(m) => s.(tty := s.tty.(mode := m))
  }

  function Run(s: Session, es: seq<Event>): Session
    decreases |es|
  {
    if es == [] then s else Run(Next(s, es[0]), es[1..])
  }

  /** Everything read so far followed by everything that can no longer be edited. */
  function Settled(s: Session): seq<byte> {
    s.consumed + Committed(s.tty.queue)
  }

  /** Moving the first k bytes from the queue to the reader loses no settled text. */
  lemma TakeKeepsSettled(before: seq<byte>, q: seq<byte>, k: nat)
    requires k <= |q|
    ensures before + Committed(q) <= before + q[..k] + Committed(q[k..])
  {
    var n := CommittedLen(q);
    DropCommitted(q, k);
    if n <= k {
      assert q[..k] == q[..n] + q[n..k];
      assert before + q[..k] + Committed(q[k..]) == (before + q[..n]) + q[n..k];
    } else {
      assert q[..n] == q[..k] + q[k..][..n - k];
      assert before + q[..k] + Committed(q[k..]) == before + q[..n];
    }
  }

  lemma ReadKeepsSettled(s: Session, len: nat, nonblock: bool)
    ensures Settled(s) <= Settled(Next(s, EvRead(len, nonblock)))
  {
    ReadTakesPrefix(s.tty, len, nonblock);
    var q, q' := s.tty.queue, Read(s.tty, len, nonblock).tty.queue;
    assert q' == q[|q| - |q'|..];
    TakeKeepsSettled(s.consumed, q, |q| - |q'|);
  }

  lemma PrefixTrans(a: seq<byte>, b: seq<byte>, c: seq<byte>)
    requires a <= b && b <= c
    ensures a <= c
  {
  }

  lemma StepKeepsSettled(s: Session, e: Event)
    requires |s.tty.queue| <= CAPACITY
    ensures |Next(s, e).tty.queue| <= CAPACITY
    ensures Settled(s) <= Settled(Next(s, e))
  {
    match e
    case EvFeed(c) => FeedKeepsCommitted(s.tty, c);
    case EvRead(len, nb) =>
      ReadTakesPrefix(s.tty, len, nb);
      ReadKeepsSettled(s, len, nb);
    case EvMode(_) =>
  }

  /**
   Under any mix of input, reads and mode changes the queue never exceeds 255 bytes, and the text
   already read or terminated only ever grows at its end: reads see it in order, nothing rewrites it.
   */
  lemma {:induction false} SettledTextOnlyGrows(s: Session, es: seq<Event>)
    requires |s.tty.queue| <= CAPACITY
    ensures |Run(s, es).tty.queue| <= CAPACITY
    ensures Settled(s) <= Settled(Run(s, es))
    decreases |es|
  {
    if es != [] {
      StepKeepsSettled(s, es[0]);
      SettledTextOnlyGrows(Next(s, es[0]), es[1..]);
      PrefixTrans(Settled(s), Settled(Next(s, es[0])), Settled(Run(s, es)));
    }
  }

  // ---------------------------------------------------------------------------
  // Readiness
  // ---------------------------------------------------------------------------

  lemma FirstTermOfUnterminated(q: seq<byte>)
    ensures Count(q, NL) == 0 && Count(q, VEOF) == 0 <==> FirstTerm(q) == |q|
  {
    CountZero(q, NL);
    CountZero(q, VEOF);
    FirstTermFacts(q);
    var f := FirstTerm(q);
    if f < |q| {
      assert q[f] in q;
    }
  }

  /** Exactly when a blocking read of len > 0 bytes blocks. */
  lemma BlocksExactlyWhen(t: Tty, len: nat)
    requires len > 0
    ensures Read(t, len, false).rc == IO_BLOCKED <==> !CanRead(t) || t.queue == []
  {
    FirstTermOfUnterminated(t.queue);
  }

  /** If no raw-mode read has eaten an EOF byte, readiness is honest: ready means no blocking, unready means 0. */
  lemma ReadinessIsHonest(t: Tty, len: nat)
    requires t.rawEofs == 0 && len > 0
    ensures CanRead(t) <==> Read(t, len, false).rc != IO_BLOCKED
    ensures !CanRead(t) ==> Read(t, len, true) == ReadResult(t, [], 0)
  {
    BlocksExactlyWhen(t, len);
    FirstTermOfUnterminated(t.queue);
    if t.queue == [] {
      assert !CanRead(t);
    }
  }

  /** Readiness lies in exactly one situation: canonical, nothing queued, an EOF byte once read in raw mode. */
  lemma ReadinessLiesExactlyWhen(t: Tty, len: nat)
    requires len > 0
    ensures CanRead(t) && Read(t, len, false).rc == IO_BLOCKED <==>
              t.mode.icanon && t.queue == [] && t.rawEofs != 0
  {
    BlocksExactlyWhen(t, len);
  }

  /** That situation is reachable: read ^D in raw mode, then switch back to canonical mode. */
  lemma ReadinessCanLie()
    ensures var s1 := Next(Session(INIT, []), EvMode(Mode(true, false, true)));
            var s3 := Next(Next(s1, EvFeed(VEOF)), EvRead(1, true));
            var t := Next(s3, EvMode(Mode(true, true, true))).tty;
            CanRead(t) && Read(t, 1, false).rc == IO_BLOCKED
  {
    var s1 := Next(Session(INIT, []), EvMode(Mode(true, false, true)));
    var s2 := Next(s1, EvFeed(VEOF));
    assert s2.tty.queue == [VEOF];
    var s3 := Next(s2, EvRead(1, true));
    assert [VEOF][..1] == [VEOF] && Count([VEOF], VEOF) == 1;
    assert s3.tty.queue == [] && s3.tty.rawEofs == 1;
    ReadinessLiesExactlyWhen(Next(s3, EvMode(Mode(true, true, true))).tty, 1);
  }

  // ---------------------------------------------------------------------------
  // What typing does
  // ---------------------------------------------------------------------------

  /** A byte with no editing or signalling role in any mode. */
  predicate Ordinary(c: byte) {
    c != 0 && c != CR && c != NL && c != VINTR && c != VEOF && c != BS && c != DEL && c != VKILL
  }

  function FeedAll(t: Tty, w: seq<byte>): Tty {
    if w == [] then t else Feed(FeedAll(t, w[..|w| - 1]), w[|w| - 1]).tty
  }

  ghost predicate AllOrdinary(w: seq<byte>) {
    forall k :: 0 <= k < |w| ==> Ordinary(w[k])
  }

  /** How much of a text of n bytes still fits. */
  function Fit(t: Tty, n: nat): (m: nat)
    requires |t.queue| <= CAPACITY
    ensures m <= n
  {
    if n <= CAPACITY - |t.queue| then n else CAPACITY - |t.queue|
  }

  /** Ordinary text is queued up to byte 255; the rest is dropped and counted. */
  lemma {:induction false} OrdinaryTextIsQueued(t: Tty, w: seq<byte>)
    requires |t.queue| <= CAPACITY && AllOrdinary(w)
    ensures FeedAll(t, w) == t.(queue := t.queue + w[..Fit(t, |w|)], dropped := t.dropped + (|w| - Fit(t, |w|)))
  {
    if w == [] {
      assert t.queue + w[..0] == t.queue;
    } else {
      var init, c := w[..|w| - 1], w[|w| - 1];
      OrdinaryTextIsQueued(t, init);
      var m := Fit(t, |init|);
      assert init[..m] == w[..m];
      if m == |init| && Fit(t, |w|) == |w| {
        assert t.queue + w[..|w|] == (t.queue + w[..m]) + [c];
      }
    }
  }

  /** A read with room to spare takes exactly the one terminated fragment queued. */
  lemma ReadWholeFragment(t: Tty, w: seq<byte>, term: byte, len: nat, nonblock: bool)
    requires t.mode.icanon && t.queue == w + [term] && IsTerm(term) && len > |w|
    requires forall k :: 0 <= k < |w| ==> !IsTerm(w[k])
    ensures Read(t, len, nonblock) ==
            if term == NL then ReadResult(t.(queue := []), w + [NL], |w| + 1)
            else ReadResult(t.(queue := []), w, |w|)
  {
    var q := t.queue;
    assert q[|w|] == term;
    FirstTermAt(q, |w|);
    FirstTermOfUnterminated(q);
    assert q[|w| + 1..] == [] && q[..|w| + 1] == q && q[..|w|] == w;
  }

  lemma KeyIsQueued(t: Tty, key: byte)
    requires t.mode.icanon && |t.queue| < CAPACITY && (key == NL || key == CR || key == VEOF)
    ensures Feed(t, key).tty == t.(queue := t.queue + [if key == VEOF then VEOF else NL])
  {
  }

  /** Ordinary text followed by enter or ^D is queued as that text and one terminator. */
  lemma TypedFragment(t: Tty, w: seq<byte>, key: byte)
    requires t.mode.icanon && t.queue == [] && |w| + 1 <= CAPACITY && (key == NL || key == CR || key == VEOF)
    requires AllOrdinary(w)
    ensures Feed(FeedAll(t, w), key).tty == t.(queue := w + [if key == VEOF then VEOF else NL])
  {
    OrdinaryTextIsQueued(t, w);
    var typed := FeedAll(t, w);
    assert t.queue + w[..|w|] == w;
    assert typed.queue == w;
    KeyIsQueued(typed, key);
  }

  /** Text that fills the queue leaves no room for the key that should end it. */
  lemma OverlongFragment(t: Tty, w: seq<byte>, key: byte)
    requires t.mode.icanon && t.queue == [] && |w| >= CAPACITY && (key == NL || key == CR || key == VEOF)
    requires AllOrdinary(w)
    ensures var r := Feed(FeedAll(t, w), key).tty;
            r.queue == w[..CAPACITY] && r.dropped == t.dropped + (|w| - CAPACITY) + 1
  {
    OrdinaryTextIsQueued(t, w);
    assert t.queue + w[..CAPACITY] == w[..CAPACITY];
  }

  /**
   A line typed in canonical mode comes back whole, newline included, with nothing left behind, if and
   only if it is at most 254 bytes long: of a longer one the code drops the newline.
   */
  lemma LineRoundTrip(t: Tty, w: seq<byte>, enter: byte, len: nat, nonblock: bool)
    requires t.mode.icanon && t.queue == [] && len >= |w| + 1
    requires (enter == NL || enter == CR) && AllOrdinary(w)
    ensures Read(Feed(FeedAll(t, w), enter).tty, len, nonblock) == ReadResult(t, w + [NL], |w| + 1) <==>
              |w| < CAPACITY
  {
    if |w| < CAPACITY {
      TypedFragment(t, w, enter);
      ReadWholeFragment(t.(queue := w + [NL]), w, NL, len, nonblock);
    } else {
      OverlongFragment(t, w, enter);
      ReadTakesPrefix(Feed(FeedAll(t, w), enter).tty, len, nonblock);
    }
  }

  /** Enter or ^D makes a canonical terminal readable if and only if there is room for it or it already was. */
  lemma KeyMakesReadableExactlyWhen(t: Tty, key: byte)
    requires t.mode.icanon && |t.queue| <= CAPACITY && (key == NL || key == CR || key == VEOF)
    ensures CanRead(Feed(t, key).tty) <==> |t.queue| < CAPACITY || CanRead(t)
  {
    if |t.queue| < CAPACITY {
      var b := if key == VEOF then VEOF else NL;
      KeyIsQueued(t, key);
      CountConcat(t.queue, [b], b);
    }
  }

  /** A key that can shorten the input. */
  predicate Edits(t: Tty, c: byte) {
    (c == VINTR && t.mode.isig) || c == VKILL || c == BS || c == DEL
  }

  /** A full line without terminator is stuck: until it is edited, no typing makes it readable. */
  lemma {:induction false} FullLineIsStuck(t: Tty, w: seq<byte>)
    requires t.mode.icanon && |t.queue| == CAPACITY && !CanRead(t)
    requires forall k :: 0 <= k < |w| ==> !Edits(t, w[k])
    ensures FeedAll(t, w).queue == t.queue && FeedAll(t, w).mode == t.mode && !CanRead(FeedAll(t, w))
  {
    if w != [] {
      FullLineIsStuck(t, w[..|w| - 1]);
      assert !Edits(t, w[|w| - 1]);
    }
  }

  const LETTER: byte := 0x61

  /** 255 letters typed at a new terminal get there, and Enter does not help. */
  lemma FullLineIsReachable()
    ensures var t := FeedAll(INIT, seq(CAPACITY, _ => LETTER));
            && |t.queue| == CAPACITY && !CanRead(t)
            && !CanRead(Feed(t, NL).tty) && Feed(t, NL).tty.dropped == 1
  {
    var w := seq(CAPACITY, _ => LETTER);
    OrdinaryTextIsQueued(INIT, w);
    var t := FeedAll(INIT, w);
    assert t.queue == w;
    CountZero(w, NL);
    CountZero(w, VEOF);
    KeyMakesReadableExactlyWhen(t, NL);
  }

  lemma FirstTermAt(q: seq<byte>, n: nat)
    requires n < |q| && IsTerm(q[n]) && forall k :: 0 <= k < n ==> !IsTerm(q[k])
    ensures FirstTerm(q) == n
  {
    FirstTermFacts(q);
  }

  /**
   Typing a byte and erasing it is a no-op exactly when there was room for it or nothing editable was
   left: on a full queue the byte is dropped but the erase still takes the one before it.
   */
  lemma TypeThenErase(t: Tty, c: byte, erase: byte)
    requires t.mode.icanon && Ordinary(c) && (erase == BS || erase == DEL) && |t.queue| <= CAPACITY
    ensures Feed(Feed(t, c).tty, erase).tty.queue == t.queue <==>
              |t.queue| < CAPACITY || CommittedLen(t.queue) == |t.queue|
  {
    if |t.queue| < CAPACITY {
      AppendCommitted(t.queue, c);
      assert (t.queue + [c])[..|t.queue|] == t.queue;
    }
  }

  /** From a new terminal: 255 letters, one more, which is dropped, and a backspace take away a letter that was kept. */
  lemma EraseTakesTheWrongByte()
    ensures var t := FeedAll(INIT, seq(CAPACITY, _ => LETTER));
            && t.queue == seq(CAPACITY, _ => LETTER)
            && Feed(Feed(t, LETTER).tty, BS).tty.queue == seq(CAPACITY - 1, _ => LETTER)
  {
    var w := seq(CAPACITY, _ => LETTER);
    OrdinaryTextIsQueued(INIT, w);
    var t := FeedAll(INIT, w);
    assert t.queue == w;
    assert !IsTerm(w[CAPACITY - 1]);
    assert w[..CAPACITY - 1] == seq(CAPACITY - 1, _ => LETTER);
  }

  /**
   ^C discards the fragment being typed; the newline that ends the line is queued if and only if the
   terminated text leaves room, and a canonical terminal is readable afterwards in any case.
   */
  lemma InterruptEndsLine(t: Tty)
    requires t.mode.isig && |t.queue| <= CAPACITY
    ensures var r := Feed(t, VINTR);
            && r.tty.queue == (if CommittedLen(t.queue) < CAPACITY then Committed(t.queue) + [NL] else Committed(t.queue))
            && (r.woke <==> CommittedLen(t.queue) < CAPACITY)
            && (t.mode.icanon ==> CanRead(r.tty))
  {
    var q := Committed(t.queue);
    if |q| < CAPACITY {
      CountConcat(q, [NL], NL);
    } else {
      CommittedFacts(t.queue);
      CountZero(q, NL);
      CountZero(q, VEOF);
      assert q[|q| - 1] in q;
    }
  }

  /**
   ^D in canonical mode makes pending text readable without a newline, if and only if the text leaves
   room for it; alone on a line it reads as end of file.
   */
  lemma EofFlushesFragment(t: Tty, w: seq<byte>, len: nat)
    requires t.mode.icanon && t.queue == [] && len > |w| && AllOrdinary(w)
    ensures Read(Feed(FeedAll(t, w), VEOF).tty, len, false) == ReadResult(t, w, |w|) <==> |w| < CAPACITY
  {
    if |w| < CAPACITY {
      TypedFragment(t, w, VEOF);
      ReadWholeFragment(t.(queue := w + [VEOF]), w, VEOF, len, false);
    } else {
      OverlongFragment(t, w, VEOF);
      ReadTakesPrefix(Feed(FeedAll(t, w), VEOF).tty, len, false);
    }
  }

  /** Without a terminator, a read of everything queued leaves the queue alone or returns the fragment as it is. */
  lemma ReadLeavesQueueOrFragment(t: Tty, len: nat)
    requires t.mode.icanon && 0 < |t.queue| <= len && forall k :: 0 <= k < |t.queue| ==> !IsTerm(t.queue[k])
    ensures Read(t, len, false) ==
            if t.rawEofs == 0 then ReadResult(t, [], IO_BLOCKED)
            else ReadResult(t.(queue := []), t.queue, |t.queue|)
  {
    FirstTermFacts(t.queue);
    FirstTermOfUnterminated(t.queue);
    assert t.queue[..|t.queue|] == t.queue && t.queue[|t.queue|..] == [];
  }

  /** Once a raw-mode read has eaten an EOF byte, canonical reads hand out unterminated fragments; before, never. */
  lemma FragmentLeaksExactlyWhen(t: Tty, len: nat)
    requires t.mode.icanon && 0 < |t.queue| <= len && forall k :: 0 <= k < |t.queue| ==> !IsTerm(t.queue[k])
    ensures Read(t, len, false).rc == |t.queue| <==> t.rawEofs != 0
    ensures t.rawEofs != 0 ==> Read(t, len, false).out == t.queue
  {
    ReadLeavesQueueOrFragment(t, len);
  }

  /** It does happen: ^D read in raw mode, then one letter in canonical mode, and a read returns the bare letter. */
  lemma FragmentLeakIsReachable()
    ensures var s1 := Next(Session(INIT, []), EvMode(Mode(true, false, true)));
            var s3 := Next(Next(s1, EvFeed(VEOF)), EvRead(1, true));
            var t := Next(Next(s3, EvMode(Mode(true, true, true))), EvFeed(LETTER)).tty;
            t.mode.icanon && t.queue == [LETTER] && Read(t, 2, false).out == [LETTER] && Read(t, 2, false).rc == 1
  {
    var s1 := Next(Session(INIT, []), EvMode(Mode(true, false, true)));
    var s2 := Next(s1, EvFeed(VEOF));
    assert s2.tty.queue == [VEOF];
    var s3 := Next(s2, EvRead(1, true));
    assert [VEOF][..1] == [VEOF] && Count([VEOF], VEOF) == 1;
    assert s3.tty.queue == [] && s3.tty.rawEofs == 1;
    var t := Next(Next(s3, EvMode(Mode(true, true, true))), EvFeed(LETTER)).tty;
    assert t.queue == [LETTER];
    FragmentLeaksExactlyWhen(t, 2);
  }

  // ---------------------------------------------------------------------------
  // Type-ahead: typing behind text that is already queued
  // ---------------------------------------------------------------------------

  /** What has been typed of the current line. */
  function Fragment(q: seq<byte>): seq<byte> {
    q[CommittedLen(q)..]
  }

  lemma FragmentHasNoTerminator(q: seq<byte>)
    ensures forall k :: 0 <= k < |Fragment(q)| ==> !IsTerm(Fragment(q)[k])
  {
    CommittedFacts(q);
  }

  /** Text and its terminator go behind what is queued if and only if there is room for all of it. */
  lemma TypedBehind(t: Tty, w: seq<byte>, key: byte)
    requires t.mode.icanon && |t.queue| <= CAPACITY && AllOrdinary(w) && (key == NL || key == CR || key == VEOF)
    ensures var r := Feed(FeedAll(t, w), key).tty;
            && (r.queue == t.queue + w + [if key == VEOF then VEOF else NL] <==> |t.queue| + |w| < CAPACITY)
            && r.mode == t.mode && |r.queue| <= CAPACITY
  {
    OrdinaryTextIsQueued(t, w);
    if |t.queue| + |w| < CAPACITY {
      assert w[..|w|] == w;
      KeyIsQueued(FeedAll(t, w), key);
    }
  }

  ghost predicate ReadsOnly(es: seq<Event>) {
    forall i :: 0 <= i < |es| ==> es[i].EvRead?
  }

  ghost predicate SuffixOf(r: seq<byte>, q: seq<byte>) {
    |r| <= |q| && r == q[|q| - |r|..]
  }

  lemma SuffixTrans(a: seq<byte>, b: seq<byte>, c: seq<byte>)
    requires SuffixOf(a, b) && SuffixOf(b, c)
    ensures SuffixOf(a, c)
  {
    SuffixOfSuffix(c, |c| - |b|, |b| - |a|);
  }

  lemma ReadLeavesSuffix(t: Tty, len: nat, nonblock: bool)
    ensures SuffixOf(Read(t, len, nonblock).tty.queue, t.queue) && Read(t, len, nonblock).tty.mode == t.mode
  {
    ReadTakesPrefix(t, len, nonblock);
    var q, r := t.queue, Read(t, len, nonblock).tty.queue;
    assert (q[..|q| - |r|] + r)[|q| - |r|..] == r;
  }

  lemma ReadEventLeavesSuffix(s: Session, e: Event)
    requires e.EvRead?
    ensures SuffixOf(Next(s, e).tty.queue, s.tty.queue) && Next(s, e).tty.mode == s.tty.mode
  {
    ReadLeavesSuffix(s.tty, e.len, e.nonblock);
  }

  /** Reads leave a suffix of the queue, and the mode. */
  lemma {:induction false} ReadsLeaveSuffix(s: Session, es: seq<Event>)
    requires ReadsOnly(es)
    ensures SuffixOf(Run(s, es).tty.queue, s.tty.queue) && Run(s, es).tty.mode == s.tty.mode
    decreases |es|
  {
    if es == [] {
      assert s.tty.queue[0..] == s.tty.queue;
    } else {
      assert es[0].EvRead?;
      var s1 := Next(s, es[0]);
      ReadEventLeavesSuffix(s, es[0]);
      ReadsLeaveSuffix(s1, es[1..]);
      SuffixTrans(Run(s1, es[1..]).tty.queue, s1.tty.queue, s.tty.queue);
    }
  }

  lemma SuffixOfSuffix(q: seq<byte>, a: nat, b: nat)
    requires a + b <= |q|
    ensures q[a..][b..] == q[a + b..]
  {
  }

  /** The end of the last line in a queue, wherever reading has got to. */
  lemma LastLineRemains(q: seq<byte>, before: seq<byte>, line: seq<byte>, r: seq<byte>)
    requires q == before + line && |r| == |line| && SuffixOf(r, q)
    ensures r == line
  {
  }

  lemma BehindFragment(q: seq<byte>, w: seq<byte>, term: byte)
    ensures q + w + [term] == Committed(q) + (Fragment(q) + w + [term])
  {
    assert q == Committed(q) + Fragment(q);
  }

  /** The terminal once w and its key have been typed and the reads es have happened. */
  function TypedThenRead(t: Tty, w: seq<byte>, key: byte, es: seq<Event>): Tty {
    Run(Session(Feed(FeedAll(t, w), key).tty, []), es).tty
  }

  lemma LineIsNext(t: Tty, w: seq<byte>, key: byte, es: seq<Event>)
    requires t.mode.icanon && |t.queue| + |w| < CAPACITY && AllOrdinary(w) && (key == NL || key == CR || key == VEOF)
    requires ReadsOnly(es) && |TypedThenRead(t, w, key, es).queue| == |Fragment(t.queue)| + |w| + 1
    ensures TypedThenRead(t, w, key, es).mode == t.mode
    ensures TypedThenRead(t, w, key, es).queue == Fragment(t.queue) + w + [if key == VEOF then VEOF else NL]
  {
    var b: byte := if key == VEOF then VEOF else NL;
    var s1 := Session(Feed(FeedAll(t, w), key).tty, []);
    TypedBehind(t, w, key);
    ReadsLeaveSuffix(s1, es);
    BehindFragment(t.queue, w, b);
    LastLineRemains(s1.tty.queue, Committed(t.queue), Fragment(t.queue) + w + [b], Run(s1, es).tty.queue);
  }

  lemma LineHasNoTerminator(q: seq<byte>, w: seq<byte>)
    requires AllOrdinary(w)
    ensures forall k :: 0 <= k < |Fragment(q) + w| ==> !IsTerm((Fragment(q) + w)[k])
  {
    FragmentHasNoTerminator(q);
  }

  /**
   With anything already queued: once reads have consumed the lines before it, the line that was typed,
   the unfinished fragment first, comes back whole, newline included, and nothing is left behind.
   */
  lemma LineBehindTypeAhead(t: Tty, w: seq<byte>, enter: byte, es: seq<Event>, len: nat, nonblock: bool)
    requires t.mode.icanon && |t.queue| + |w| < CAPACITY && AllOrdinary(w) && (enter == NL || enter == CR)
    requires ReadsOnly(es) && len > |Fragment(t.queue)| + |w|
    requires |TypedThenRead(t, w, enter, es).queue| == |Fragment(t.queue)| + |w| + 1
    ensures var t2 := TypedThenRead(t, w, enter, es);
            Read(t2, len, nonblock) ==
              ReadResult(t2.(queue := []), Fragment(t.queue) + w + [NL], |Fragment(t.queue)| + |w| + 1)
  {
    LineIsNext(t, w, enter, es);
    LineHasNoTerminator(t.queue, w);
    ReadWholeFragment(TypedThenRead(t, w, enter, es), Fragment(t.queue) + w, NL, len, nonblock);
  }

  /** The same for ^D: the text comes back without a terminator, and an empty text as end of file. */
  lemma EofBehindTypeAhead(t: Tty, w: seq<byte>, es: seq<Event>, len: nat, nonblock: bool)
    requires t.mode.icanon && |t.queue| + |w| < CAPACITY && AllOrdinary(w)
    requires ReadsOnly(es) && len > |Fragment(t.queue)| + |w|
    requires |TypedThenRead(t, w, VEOF, es).queue| == |Fragment(t.queue)| + |w| + 1
    ensures var t2 := TypedThenRead(t, w, VEOF, es);
            Read(t2, len, nonblock) == ReadResult(t2.(queue := []), Fragment(t.queue) + w, |Fragment(t.queue)| + |w|)
  {
    LineIsNext(t, w, VEOF, es);
    LineHasNoTerminator(t.queue, w);
    ReadWholeFragment(TypedThenRead(t, w, VEOF, es), Fragment(t.queue) + w, VEOF, len, nonblock);
  }

  /** A read with room takes exactly the first of the queued lines. */
  lemma ReadTakesFirstLine(t: Tty, nonblock: bool)
    requires t.mode.icanon && FirstTerm(t.queue) < |t.queue|
    ensures Read(t, |t.queue| + 1, nonblock).tty == t.(queue := t.queue[FirstTerm(t.queue) + 1..])
  {
    FirstTermOfUnterminated(t.queue);
  }

  lemma ReadEventTakesFirstLine(s: Session)
    requires s.tty.mode.icanon && FirstTerm(s.tty.queue) < |s.tty.queue|
    ensures var q := s.tty.queue;
            Next(s, EvRead(|q| + 1, true)).tty == s.tty.(queue := q[FirstTerm(q) + 1..])
  {
    ReadTakesFirstLine(s.tty, true);
  }

  lemma ReadsAfter(s: Session, e: Event, rest: seq<Event>)
    requires e.EvRead? && ReadsOnly(rest)
    ensures ReadsOnly([e] + rest) && Run(s, [e] + rest) == Run(Next(s, e), rest)
  {
    assert ([e] + rest)[1..] == rest;
  }

  lemma FirstTermBefore(q: seq<byte>, p: nat)
    requires 0 < p <= |q| && IsTerm(q[p - 1])
    ensures FirstTerm(q) < p
  {
    FirstTermFacts(q);
  }

  /** Reading line by line does get there: every line boundary of the queue is reached by some reads. */
  lemma {:induction false} BoundaryIsReached(s: Session, p: nat) returns (es: seq<Event>)
    requires s.tty.mode.icanon && p <= |s.tty.queue| && (p > 0 ==> IsTerm(s.tty.queue[p - 1]))
    ensures ReadsOnly(es) && Run(s, es).tty.queue == s.tty.queue[p..]
    decreases p
  {
    var q := s.tty.queue;
    if p == 0 {
      es := [];
      assert q[0..] == q;
    } else {
      FirstTermBefore(q, p);
      var f, e := FirstTerm(q), EvRead(|q| + 1, true);
      ReadEventTakesFirstLine(s);
      assert p > f + 1 ==> q[f + 1..][p - (f + 1) - 1] == q[p - 1];
      var rest := BoundaryIsReached(Next(s, e), p - (f + 1));
      ReadsAfter(s, e, rest);
      es := [e] + rest;
      SuffixOfSuffix(q, f + 1, p - (f + 1));
    }
  }
}
