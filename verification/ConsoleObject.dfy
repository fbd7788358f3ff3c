/**
 The console driver as console.c runs it: a ring buffer edited in place, with a line counter and an
 EOF counter on the side. Every method performs the step of module LineDiscipline on the ring's contents, and
 the counters stay exact: lines counts unread newlines, eofs counts unread 0x04 bytes plus those
 that raw-mode reads have consumed.
 */
module ConsoleObject {
  import opened Bytes
  import opened LineDiscipline
  import Ring

  class Console {
    const buf: array<byte>
    var head: nat
    var tail: nat
    var dropped: nat
    var lines: nat
    var eofs: nat
    var mode: Mode
    ghost var queue: seq<byte>  // the contents of the ring
    ghost var rawEofs: nat      // 0x04 bytes consumed by raw-mode reads

    ghost predicate Valid()
      reads this, buf
    {
      && buf.Length == Ring.CELLS
      && Ring.Holds(buf[..], head, tail, queue)
      && lines == Count(queue, NL)
      && eofs == Count(queue, VEOF) + rawEofs
    }

    ghost function View(): Tty
      reads this
    {
      Tty(queue, dropped, mode, rawEofs)
    }

    constructor ()
      ensures Valid() && fresh(buf) && View() == INIT
    {
      buf := new byte[Ring.CELLS](_ => 0);
      head, tail, dropped, lines, eofs := 0, 0, 0, 0, 0;
      mode := Mode(true, true, true);
      queue, rawEofs := [], 0;
    }

    method SetMode(m: Mode)
      requires Valid()
      modifies this`mode
      ensures Valid() && View() == old(View()).(mode := m)
    {
      mode := m;
    }

    method PopLastEditable() returns (popped: bool)
      requires Valid()
      modifies this`head, this`queue
      ensures Valid()
      ensures popped <==> old(queue) != [] && !IsTerm(old(queue)[|old(queue)| - 1])
      ensures queue == if popped then old(queue)[..|old(queue)| - 1] else old(queue)
    {
      Ring.EmptyOrFull(buf[..], head, tail, queue);
      if head == tail { return false; }
      Ring.PopBack(buf[..], head, tail, queue);
      ghost var q := queue;
      var prev := (head + Ring.CELLS - 1) % Ring.CELLS;
      if buf[prev] == NL || buf[prev] == VEOF { return false; }
      CountConcat(q[..|q| - 1], [q[|q| - 1]], NL);
      CountConcat(q[..|q| - 1], [q[|q| - 1]], VEOF);
      assert q == q[..|q| - 1] + [q[|q| - 1]];
      head, queue := prev, q[..|q| - 1];
      popped := true;
    }

    /** Put a byte at the head of a ring that has room; the caller settles the counters. */
    method Store(c: byte)
      requires buf.Length == Ring.CELLS && Ring.Holds(buf[..], head, tail, queue) && (head + 1) % Ring.CELLS != tail
      modifies this`head, this`queue, buf
      ensures Ring.Holds(buf[..], head, tail, queue) && queue == old(queue) + [c]
      ensures Count(queue, NL) == Count(old(queue), NL) + (if c == NL then 1 else 0)
      ensures Count(queue, VEOF) == Count(old(queue), VEOF) + (if c == VEOF then 1 else 0)
    {
      Ring.Push(buf[..], head, tail, queue, c);
      CountConcat(queue, [c], NL);
      CountConcat(queue, [c], VEOF);
      buf[head] := c;
      head, queue := (head + 1) % Ring.CELLS, queue + [c];
    }

    method EnqueueChar(c: byte, doEcho: bool) returns (echo: seq<byte>, woke: bool)
      requires Valid()
      modifies this, buf
      ensures Valid() && Fed(View(), echo, woke) == Enqueue(old(View()), c, doEcho)
    {
      echo, woke := [], false;
      var next := (head + 1) % Ring.CELLS;
      Ring.EmptyOrFull(buf[..], head, tail, queue);
      if next == tail {
        dropped := dropped + 1;
        return;
      }
      Store(c);
      if c == NL {
        lines := lines + 1;
      } else if c == VEOF {
        eofs := eofs + 1;
      }
      if doEcho && mode.echo && Echoable(c) {
        echo := [c];
      }
      woke := true;
    }

    /** One turn of the kill loop, with got echoed so far. */
    method KillOne(ghost got: seq<byte>) returns (popped: bool)
      requires Valid()
      modifies this`head, this`queue
      ensures Valid() && (popped ==> |queue| < |old(queue)|)
      ensures Echoed(got, Kill(old(View()))) ==
              if popped then Echoed(if mode.echo then got + [BS] else got, Kill(View())) else Fed(View(), got, false)
    {
      KillStep(got, View());
      popped := PopLastEditable();
    }

    /** The kill loop: pop editable bytes, echoing a backspace for each. */
    method KillLine() returns (echo: seq<byte>)
      requires Valid()
      modifies this`head, this`queue
      ensures Valid() && Fed(View(), echo, false) == Kill(old(View()))
    {
      ghost var goal := Kill(View());
      echo := [];
      while true
        invariant Valid() && goal == Echoed(echo, Kill(View()))
        decreases |queue|
      {
        var popped := KillOne(echo);
        if !popped {
          return;
        }
        if mode.echo {
          echo := echo + [BS];
        }
      }
    }

    method InterruptLine() returns (echo: seq<byte>, woke: bool)
      requires Valid()
      modifies this, buf
      ensures Valid() && Fed(View(), echo, woke) == Interrupt(old(View()))
    {
      var killed := KillLine();
      echo := killed + (if mode.echo then [0x5E, 0x43, NL] else []);
      var none, w := EnqueueChar(NL, false);
      woke := w;
    }

    method EraseLast() returns (echo: seq<byte>)
      requires Valid()
      modifies this`head, this`queue
      ensures Valid() && Fed(View(), echo, false) == Erase(old(View()))
    {
      var popped := PopLastEditable();
      echo := if popped && mode.echo then [BS] else [];
    }

    method RxFeed(raw: byte) returns (echo: seq<byte>, woke: bool)
      requires Valid()
      modifies this, buf
      ensures Valid() && Fed(View(), echo, woke) == Feed(old(View()), raw)
    {
      var canonical := mode.icanon;
      var c := if raw == CR then NL else raw;
      echo, woke := [], false;
      if c == VINTR && mode.isig {
        echo, woke := InterruptLine();
      } else if canonical && c == VKILL {
        echo := KillLine();
      } else if canonical && (c == BS || c == DEL) {
        echo := EraseLast();
      } else if canonical && c == VEOF {
        echo, woke := EnqueueChar(c, false);
      } else if c != 0 {
        echo, woke := EnqueueChar(c, true);
      }
    }

    method CanReadNow() returns (ready: bool)
      requires Valid()
      ensures ready <==> CanRead(View())
    {
      Ring.EmptyOrFull(buf[..], head, tail, queue);
      if mode.icanon {
        return lines != 0 || eofs != 0;
      }
      ready := head != tail;
    }

    /** Take the oldest byte off the ring; the caller settles the counters. */
    method Advance()
      requires buf.Length == Ring.CELLS && Ring.Holds(buf[..], head, tail, queue) && head != tail
      modifies this`tail, this`queue
      ensures Ring.Holds(buf[..], head, tail, queue)
      ensures old(queue) != [] && old(queue)[0] == buf[old(tail)] && queue == old(queue)[1..]
    {
      Ring.PopFront(buf[..], head, tail, queue);
      tail, queue := (tail + 1) % Ring.CELLS, queue[1..];
    }

    /** One turn of the copy loop on a non-empty ring: takes the oldest byte and settles the counters. */
    method TakeByte() returns (c: byte)
      requires Valid() && head != tail
      modifies this`tail, this`queue, this`lines, this`eofs, this`rawEofs
      ensures Valid() && old(queue) != [] && c == old(queue)[0] && View() == Tail(old(View()))
    {
      c := buf[tail];
      Advance();
      if mode.icanon && c == VEOF {
        if eofs != 0 {
          eofs := eofs - 1;
        }
      } else if c == NL && lines != 0 {
        lines := lines - 1;
      }
      if !mode.icanon && c == VEOF {
        rawEofs := rawEofs + 1;
      }
    }

    /** One turn of the loop on a non-empty ring, with out copied so far; last says that it ends the copy. */
    method CopyOne(dst: array<byte>, n: nat, ghost room: nat, ghost out: seq<byte>, ghost was: seq<byte>)
      returns (n': nat, last: bool, sawEof: bool, ghost out': seq<byte>)
      requires Valid() && dst != buf && head != tail && room > 0
      requires n < dst.Length == |was| && n == |out| && dst[..] == out + was[n..]
      modifies dst, this`tail, this`queue, this`lines, this`eofs, this`rawEofs
      ensures Valid() && n <= n' == |out'| <= n + 1 && dst[..] == out' + was[n'..]
      ensures last ==> Prepend(out, Copy(old(View()), room)) == Copied(View(), out', sawEof)
      ensures !last ==> !sawEof && n' == n + 1 && Prepend(out, Copy(old(View()), room)) == Prepend(out', Copy(View(), room - 1))
    {
      Ring.EmptyOrFull(buf[..], head, tail, queue);
      CopyStep(out, View(), room);
      var c := TakeByte();
      if mode.icanon && c == VEOF {
        return n, true, true, out;
      }
      StoreByte(dst, n, c, out, was);
      n', last, sawEof, out' := n + 1, mode.icanon && c == NL, false, out + [c];
    }

    /**
     The copy loop of console_read: the number of bytes stored, whether a canonical EOF marker ended it, and
     the bytes themselves, which are in the buffer while the rest of it is as before.
     */
    method CopyOut(dst: array<byte>, len: nat) returns (n: nat, sawEof: bool, ghost out: seq<byte>)
      requires Valid() && dst != buf && len <= dst.Length
      modifies dst, this`tail, this`queue, this`lines, this`eofs, this`rawEofs
      ensures Valid() && n == |out| <= len && Copied(View(), out, sawEof) == Copy(old(View()), len)
      ensures dst[..] == out + old(dst[..])[n..]
    {
      ghost var goal, was := Copy(View(), len), dst[..];
      n, sawEof, out := 0, false, [];
      assert dst[..] == out + was[0..];
      while n < len
        invariant Valid() && n == |out| <= len && dst[..] == out + was[n..]
        invariant !sawEof && goal == Prepend(out, Copy(View(), len - n))
      {
        Ring.EmptyOrFull(buf[..], head, tail, queue);
        if tail == head {
          break;
        }
        var last;
        n, last, sawEof, out := CopyOne(dst, n, len - n, out, was);
        if last {
          return;
        }
      }
      assert out + [] == out;
    }

    method ReadInto(dst: array<byte>, len: nat, nonblock: bool) returns (rc: int)
      requires Valid() && dst != buf && 0 < len <= dst.Length
      modifies dst, this`tail, this`queue, this`lines, this`eofs, this`rawEofs
      ensures Valid() && ReadAs(Read(old(View()), len, nonblock), View(), rc, old(dst[..]), dst[..])
    {
      if mode.icanon && lines == 0 && eofs == 0 {
        assert dst[..] == [] + old(dst[..])[0..];
        return if nonblock then 0 else IO_BLOCKED;
      }
      CopyTakes(View(), len);
      ghost var out;
      var n, sawEof;
      n, sawEof, out := CopyOut(dst, len);
      if n != 0 { return n; }
      if mode.icanon && sawEof { return 0; }
      if nonblock { return 0; }
      rc := IO_BLOCKED;
    }

    /** console_read into the caller's buffer, of at least len bytes, or into none. */
    method ReadBytes(dst: array?<byte>, len: nat, nonblock: bool) returns (rc: int)
      requires Valid() && (dst != null ==> dst != buf && len <= dst.Length)
      modifies dst, this`tail, this`queue, this`lines, this`eofs, this`rawEofs
      ensures Valid() && (dst == null ==> rc == 0 && View() == old(View()))
      ensures dst != null ==> ReadAs(Read(old(View()), len, nonblock), View(), rc, old(dst[..]), dst[..])
    {
      if dst == null {
        return 0;
      }
      if len == 0 {
        assert dst[..] == [] + old(dst[..])[0..];
        return 0;
      }
      rc := ReadInto(dst, len, nonblock);
    }
  }

  /** The terminal and the return code are those of the read, whose bytes are at the front of the buffer; its rest is as it was. */
  ghost predicate ReadAs(r: ReadResult, t: Tty, rc: int, before: seq<byte>, buffer: seq<byte>) {
    t == r.tty && rc == r.rc && |r.out| <= |before| && buffer == r.out + before[|r.out|..]
  }

  method StoreByte(dst: array<byte>, n: nat, c: byte, ghost out: seq<byte>, ghost was: seq<byte>)
    requires n < dst.Length == |was| && n == |out| && dst[..] == out + was[n..]
    modifies dst
    ensures dst[..] == (out + [c]) + was[n + 1..]
  {
    dst[n] := c;
    assert was[n..][1..] == was[n + 1..];
  }

  /** What has been echoed, then what f still echoes. */
  ghost function Echoed(got: seq<byte>, f: Fed): Fed {
    f.(echo := got + f.echo)
  }

  lemma KillStep(got: seq<byte>, t: Tty)
    ensures var q := t.queue;
            Echoed(got, Kill(t)) ==
              if q == [] || IsTerm(q[|q| - 1]) then Fed(t, got, false)
              else Echoed(if t.mode.echo then got + [BS] else got, Kill(t.(queue := q[..|q| - 1])))
  {
    var q := t.queue;
    var n := CommittedLen(q);
    if q == [] || IsTerm(q[|q| - 1]) {
      assert q[..n] == q && got + [] == got;
    } else {
      assert q[..|q| - 1][..n] == q[..n];
      var rest := Repeat(BS, |q| - 1 - n);
      assert got + ([BS] + rest) == (got + [BS]) + rest;
    }
  }

  /** got, then what the loop still has to copy. */
  ghost function Prepend(got: seq<byte>, c: Copied): Copied {
    c.(out := got + c.out)
  }

  lemma CopyStep(got: seq<byte>, t: Tty, room: nat)
    requires t.queue != [] && room > 0
    ensures var c := t.queue[0];
            Prepend(got, Copy(t, room)) ==
              if t.mode.icanon && c == VEOF then Copied(Tail(t), got, true)
              else if t.mode.icanon && c == NL then Copied(Tail(t), got + [c], false)
              else Prepend(got + [c], Copy(Tail(t), room - 1))
  {
    var rest := Copy(Tail(t), room - 1).out;
    assert got + ([t.queue[0]] + rest) == (got + [t.queue[0]]) + rest;
    assert got + [] == got;
  }
}
