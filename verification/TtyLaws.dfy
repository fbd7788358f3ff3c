/**
 What each key does, what a read returns, and what the user sees: the line discipline byte by byte, and its
 echo on the text screen.
 */
module TtyLaws {
  import opened Bytes
  import opened LineDiscipline
  import Screen = TextScreen

  // ---------------------------------------------------------------------------
  // The keys
  // ---------------------------------------------------------------------------

  /** A new terminal is empty, canonical, echoes, and turns ^C into a signal. */
  lemma NewTerminal()
    ensures INIT.queue == [] && INIT.mode.icanon && INIT.mode.echo && INIT.mode.isig && INIT.dropped == 0 && !CanRead(INIT)
  {
  }

  lemma {:induction false} BackspacesOnly(n: nat)
    ensures Repeat(BS, n) == seq(n, _ => 0x08)
  {
    if n > 0 {
      BackspacesOnly(n - 1);
      var rest: seq<byte> := seq(n - 1, _ => 0x08);
      assert seq(n, _ => 0x08) == [0x08] + rest;
    }
  }

  /** ^U in canonical mode drops the line being typed, one backspace echoed per byte; nothing else changes and nobody is woken. */
  lemma KillKey(t: Tty)
    requires t.mode.icanon
    ensures var f := Feed(t, 0x15);
            && f.tty == t.(queue := Committed(t.queue)) && !f.woke
            && f.echo == if t.mode.echo then seq(|Fragment(t.queue)|, _ => 0x08) else []
  {
    BackspacesOnly(|t.queue| - CommittedLen(t.queue));
  }

  lemma {:induction false} OrdinaryStaysEditable(q: seq<byte>, w: seq<byte>)
    requires AllOrdinary(w)
    ensures CommittedLen(q + w) == CommittedLen(q)
  {
    if w == [] {
      assert q + w == q;
    } else {
      var init, c := w[..|w| - 1], w[|w| - 1];
      OrdinaryStaysEditable(q, init);
      AppendCommitted(q + init, c);
      assert q + w == (q + init) + [c];
    }
  }

  /** Text typed behind anything and then killed: exactly the terminated text is left. */
  lemma KillUndoesTyping(t: Tty, w: seq<byte>)
    requires t.mode.icanon && |t.queue| <= CAPACITY && AllOrdinary(w)
    ensures Feed(FeedAll(t, w), 0x15).tty.queue == Committed(t.queue)
  {
    OrdinaryTextIsQueued(t, w);
    var kept := w[..Fit(t, |w|)];
    OrdinaryStaysEditable(t.queue, kept);
    assert (t.queue + kept)[..CommittedLen(t.queue)] == t.queue[..CommittedLen(t.queue)];
    KillKey(FeedAll(t, w));
  }

  /** Backspace and delete in canonical mode drop the last byte of the line being typed, or do nothing if there is none. */
  lemma EraseKey(t: Tty, key: byte)
    requires t.mode.icanon && (key == 0x08 || key == 0x7F)
    ensures var f := Feed(t, key);
            if Fragment(t.queue) == [] then f == Fed(t, [], false)
            else f == Fed(t.(queue := t.queue[..|t.queue| - 1]), if t.mode.echo then [0x08] else [], false)
  {
  }

  /** ^C, when signals are on, in any mode: the line being typed goes, "^C" is echoed, and the line ends. */
  lemma InterruptKey(t: Tty)
    requires t.mode.isig && CommittedLen(t.queue) < CAPACITY
    ensures var f := Feed(t, 0x03);
            && f.tty == t.(queue := Committed(t.queue) + [0x0A]) && f.woke
            && f.echo == if t.mode.echo then seq(|Fragment(t.queue)|, _ => 0x08) + [0x5E, 0x43, 0x0A] else []
  {
    BackspacesOnly(|t.queue| - CommittedLen(t.queue));
  }

  /** A zero byte is ignored in every mode. */
  lemma NulKey(t: Tty)
    ensures Feed(t, 0) == Fed(t, [], false)
  {
  }

  /** The bytes that are more than data, given the mode. */
  predicate HasRole(t: Tty, c: byte) {
    c == 0 || (c == 0x03 && t.mode.isig) || (t.mode.icanon && (c == 0x15 || c == 0x08 || c == 0x7F || c == 0x04))
  }

  /** The bytes the screen can show: bell, tab, line feeds, form feed, carriage return and printable characters. */
  const SHOWN_CONTROLS: set<int> := {7, 9, 10, 11, 12, 13}

  /** Any other byte is queued, carriage return as line feed, echoed if it can be shown, and wakes one reader; on a full queue it is dropped. */
  lemma DataKey(t: Tty, c: byte)
    requires !HasRole(t, c)
    ensures var b: byte := if c == 0x0D then 0x0A else c;
            Feed(t, c) ==
              if |t.queue| >= 255 then Fed(t.(dropped := t.dropped + 1), [], false)
              else Fed(t.(queue := t.queue + [b]),
                       if t.mode.echo && (b in SHOWN_CONTROLS || 0x20 <= b <= 0x7E) then [b] else [], true)
  {
  }

  /** ^D in canonical mode is queued as an end-of-file marker and not echoed. */
  lemma EofKey(t: Tty)
    requires t.mode.icanon
    ensures Feed(t, 0x04) ==
            if |t.queue| >= 255 then Fed(t.(dropped := t.dropped + 1), [], false) else Fed(t.(queue := t.queue + [0x04]), [], true)
  {
  }

  // ---------------------------------------------------------------------------
  // How much a read returns
  // ---------------------------------------------------------------------------

  /** No room, nothing read, whatever is queued. */
  lemma ZeroRead(t: Tty, nonblock: bool)
    ensures Read(t, 0, nonblock) == ReadResult(t, [], 0)
  {
  }

  /** A raw read returns all that is queued, as far as it fits, and leaves the rest. */
  lemma RawReadTakesAll(t: Tty, len: nat, nonblock: bool)
    requires !t.mode.icanon && len > 0
    ensures var n := if len < |t.queue| then len else |t.queue|;
            var r := Read(t, len, nonblock);
            && r.out == t.queue[..n] && r.tty.queue == t.queue[n..]
            && r.rc == if n > 0 then n else if nonblock then 0 else -1
  {
  }

  /**
   A canonical read of a terminal that is ready returns a full buffer, or ends with a newline, or was ended
   by an end-of-file marker, or has emptied the queue; and the code is the number of bytes, 0 at end of file.
   */
  lemma CanonicalReadTakesAll(t: Tty, len: nat, nonblock: bool)
    requires t.mode.icanon && CanRead(t) && len > 0
    ensures var r := Read(t, len, nonblock);
            var gone := |t.queue| - |r.tty.queue|;
            && (|r.out| == len || r.tty.queue == [] || (gone > 0 && IsTerm(t.queue[gone - 1])))
            && (gone == |r.out| || (gone == |r.out| + 1 && t.queue[gone - 1] == 0x04))
            && r.rc == if |r.out| > 0 then |r.out| else if nonblock || gone > 0 then 0 else -1
  {
    FirstTermFacts(t.queue);
  }

  // ---------------------------------------------------------------------------
  // Raw mode is transparent
  // ---------------------------------------------------------------------------

  /** In raw mode without signals every byte but 0 and carriage return is plain data. */
  predicate Plain(w: seq<byte>) {
    forall k :: 0 <= k < |w| ==> w[k] != 0 && w[k] != 0x0D
  }

  lemma {:induction false} RawTextIsQueued(t: Tty, w: seq<byte>)
    requires !t.mode.icanon && !t.mode.isig && |t.queue| + |w| <= CAPACITY && Plain(w)
    ensures FeedAll(t, w) == t.(queue := t.queue + w)
  {
    if w == [] {
      assert t.queue + w == t.queue;
    } else {
      RawTextIsQueued(t, w[..|w| - 1]);
      assert t.queue + w == (t.queue + w[..|w| - 1]) + [w[|w| - 1]];
      DataKey(FeedAll(t, w[..|w| - 1]), w[|w| - 1]);
    }
  }

  /** What is typed is what is read, editing keys and ^D included. */
  lemma RawRoundTrip(t: Tty, w: seq<byte>, len: nat)
    requires !t.mode.icanon && !t.mode.isig && t.queue == [] && 0 < |w| <= CAPACITY && Plain(w) && len >= |w|
    ensures var r := Read(FeedAll(t, w), len, false);
            r.out == w && r.rc == |w| && r.tty.queue == []
  {
    RawTextIsQueued(t, w);
    assert t.queue + w == w;
    RawReadTakesAll(FeedAll(t, w), len, false);
  }

  // ---------------------------------------------------------------------------
  // The echo on the screen
  // ---------------------------------------------------------------------------

  /** Everything echoed while w is typed. */
  function EchoOf(t: Tty, w: seq<byte>): seq<byte> {
    if w == [] then [] else EchoOf(t, w[..|w| - 1]) + Feed(FeedAll(t, w[..|w| - 1]), w[|w| - 1]).echo
  }

  /** Ordinary and printable: a character that shows as itself. */
  ghost predicate Letters(w: seq<byte>) {
    AllOrdinary(w) && forall k :: 0 <= k < |w| ==> 0x20 <= w[k] <= 0x7E
  }

  lemma {:induction false} LettersEcho(t: Tty, w: seq<byte>)
    requires t.mode.echo && |t.queue| + |w| <= CAPACITY && Letters(w)
    ensures EchoOf(t, w) == w
  {
    if w != [] {
      var init, c := w[..|w| - 1], w[|w| - 1];
      LettersEcho(t, init);
      OneMoreLetter(t, init, c);
      assert w == init + [c];
    }
  }

  lemma OneMoreLetter(t: Tty, init: seq<byte>, c: byte)
    requires t.mode.echo && |t.queue| + |init| < CAPACITY && Letters(init) && Ordinary(c) && 0x20 <= c <= 0x7E
    requires EchoOf(t, init) == init
    ensures EchoOf(t, init + [c]) == init + [c]
  {
    LetterEchoes(t, init, c);
    EchoStep(t, init, c);
  }

  lemma EchoStep(t: Tty, init: seq<byte>, c: byte)
    ensures EchoOf(t, init + [c]) == EchoOf(t, init) + Feed(FeedAll(t, init), c).echo
  {
    assert (init + [c])[..|init|] == init;
  }

  lemma LetterEchoes(t: Tty, init: seq<byte>, c: byte)
    requires t.mode.echo && |t.queue| + |init| < CAPACITY && Letters(init) && Ordinary(c) && 0x20 <= c <= 0x7E
    ensures Feed(FeedAll(t, init), c).echo == [c]
  {
    OrdinaryTextIsQueued(t, init);
    DataKey(FeedAll(t, init), c);
  }

  /** Bytes shown on the screen one after the other. */
  function Shown(bs: seq<byte>): seq<nat> {
    seq(|bs|, k requires 0 <= k < |bs| => bs[k] as int)
  }

  ghost function Show(s: Screen.Screen, bs: seq<byte>): (r: Screen.Screen)
    requires Screen.ScreenOk(s)
    ensures Screen.ScreenOk(r)
  {
    Screen.Run(s, Screen.Typed(Shown(bs)))
  }

  /** What is typed appears on the screen, from the cursor on. */
  lemma TypingIsSeen(t: Tty, w: seq<byte>, s: Screen.Screen)
    requires t.mode.echo && |t.queue| + |w| <= CAPACITY && Letters(w) && Screen.ScreenOk(s) && s.cx + |w| < 80
    ensures var r := Show(s, EchoOf(t, w));
            && Screen.Reads(r.grid, s.cy, s.cx, Shown(w), s.fg, s.bg)
            && r.cx == s.cx + |w| && r.cy == s.cy && Screen.SameRowsBut(s.grid, r.grid, s.cy)
  {
    LettersEcho(t, w);
    Screen.TextReads(s, Shown(w));
  }

  /** Backspaces take the cursor back over the row and leave blanks behind; nothing else changes. */
  lemma {:induction false} BackspacesBlank(s: Screen.Screen, n: nat)
    requires Screen.ScreenOk(s) && n <= s.cx
    ensures var r := Show(s, seq(n, _ => 0x08));
            && r.cx == s.cx - n && r.cy == s.cy && r.fg == s.fg && r.bg == s.bg && Screen.SameRowsBut(s.grid, r.grid, s.cy)
            && (forall x :: s.cx - n <= x < s.cx ==> r.grid[s.cy][x] == Screen.Blank(s.bg))
            && (forall x :: 0 <= x < s.cx - n || s.cx <= x < 80 ==> r.grid[s.cy][x] == s.grid[s.cy][x])
    decreases n
  {
    var bs: seq<byte> := seq(n, _ => 0x08);
    var es := Screen.Typed(Shown(bs));
    if n > 0 {
      assert es[0] == Screen.EvPutc(8);
      Screen.NextOk(s, es[0]);
      Screen.BackspaceKey(s);
      var s1 := Screen.Next(s, es[0]);
      BackspacesBlank(s1, n - 1);
      var rest: seq<byte> := seq(n - 1, _ => 0x08);
      assert es[1..] == Screen.Typed(Shown(rest));
    }
  }

  /** Where the text of length n stood, from the cursor of s on, r is blank; the cursor is back; all else is as in s. */
  ghost predicate Wiped(s: Screen.Screen, r: Screen.Screen, n: nat)
    requires Screen.ScreenOk(s) && Screen.ScreenOk(r)
  {
    && r.cx == s.cx && r.cy == s.cy && Screen.SameRowsBut(s.grid, r.grid, s.cy)
    && (forall x :: s.cx <= x < s.cx + n && x < 80 ==> r.grid[s.cy][x] == Screen.Blank(s.bg))
    && (forall x :: 0 <= x < s.cx || s.cx + n <= x < 80 ==> r.grid[s.cy][x] == s.grid[s.cy][x])
  }

  lemma ShowThenWipe(s: Screen.Screen, w: seq<byte>)
    requires Screen.ScreenOk(s) && s.cx + |w| < 80 && Screen.Printable(Shown(w))
    ensures Wiped(s, Show(Show(s, w), seq(|w|, _ => 0x08)), |w|)
  {
    Screen.TextLandsInOrder(s, Shown(w));
    BackspacesBlank(Show(s, w), |w|);
  }

  lemma KillEchoes(t: Tty, w: seq<byte>)
    requires t.mode.icanon && t.mode.echo && Fragment(t.queue) == [] && |t.queue| + |w| <= CAPACITY && AllOrdinary(w)
    ensures Feed(FeedAll(t, w), 0x15).echo == seq(|w|, _ => 0x08)
  {
    OrdinaryTextIsQueued(t, w);
    assert w[..|w|] == w;
    OrdinaryStaysEditable(t.queue, w);
    KillKey(FeedAll(t, w));
    assert |Fragment(t.queue + w)| == |w|;
  }

  /**
   What the user sees of ^U: text typed on a fresh line and then killed leaves the cursor where it was and
   the row blank where the text had been; the rest of the screen is untouched.
   */
  lemma KillIsSeen(t: Tty, w: seq<byte>, s: Screen.Screen)
    requires t.mode.icanon && t.mode.echo && Fragment(t.queue) == [] && |t.queue| + |w| <= CAPACITY && Letters(w)
    requires Screen.ScreenOk(s) && s.cx + |w| < 80
    ensures Wiped(s, Show(Show(s, EchoOf(t, w)), Feed(FeedAll(t, w), 0x15).echo), |w|)
  {
    LettersEcho(t, w);
    KillEchoes(t, w);
    ShowThenWipe(s, w);
  }
}
