/**
 The serial device as code over its 256-cell FIFO, each port access run to completion under the
 lock, and the kernel's drain loop, which moves everything queued into the terminal.
 */
module SerialObject {
  import opened Bytes
  import opened Serial
  import Ring
  import LineDiscipline
  import ConsoleObject

  /** vm_serial_rx_enqueue, run to completion. */
  function EnqueueDone(s: State, c: byte): State {
    var s1 := Accept(s, c);
    if s1.section.EnqueueMustRaise? then Next(s1, FinishEnqueue) else s1
  }

  /** An IN from the KEYBOARD port, run to completion. */
  function ReadDone(s: State): State {
    var s1 := Acknowledge(Pop(s));
    if s1.section.ReadMustRaise? then Next(s1, FinishRead) else s1
  }

  class Port {
    const cells: array<byte>
    var head: nat
    var tail: nat
    var rxReady: bool     // low byte of io[SCREEN_ATTRIBUTE]
    var ctrl: nat         // its second byte
    var pending: bool     // bit INT_SERIAL of core 0
    ghost var fifo: seq<byte>
    ghost var accepted: seq<byte>
    ghost var delivered: seq<byte>
    ghost var armed: bool
    ghost var taken: bool
    ghost var ignored: bool

    ghost function View(): State
      reads this
    {
      State(fifo, rxReady, ctrl, pending, Free, Idle, accepted, delivered, armed, taken, ignored)
    }

    ghost predicate Valid()
      reads this, cells
    {
      && cells.Length == Ring.CELLS
      && Ring.Holds(cells[..], head, tail, fifo)
      && Lossless(View())
    }

    constructor ()
      ensures Valid() && fresh(cells) && View() == INIT
    {
      cells := new byte[Ring.CELLS](_ => 0);
      head, tail, rxReady, ctrl, pending := 0, 0, false, 0, false;
      fifo, accepted, delivered, armed, taken, ignored := [], [], [], false, false, false;
    }

    /** Returns whether the byte was accepted. */
    method RxEnqueue(c: byte) returns (ok: bool)
      requires Valid()
      modifies this, cells
      ensures Valid() && View() == EnqueueDone(old(View()), c)
      ensures ok <==> |old(fifo)| < CAPACITY
    {
      Ring.EmptyOrFull(cells[..], head, tail, fifo);
      var next := (head + 1) % Ring.CELLS;
      if next == tail { return false; }
      Ring.Push(cells[..], head, tail, fifo, c);
      var wasEmpty := head == tail;
      cells[head] := c;
      head := next;
      fifo, accepted := fifo + [c], accepted + [c];
      if wasEmpty {
        rxReady := true;
        if IntEnabled(ctrl) {
          pending, taken := true, false;
        }
      }
      ok := true;
    }

    /** The ring part of a read: the oldest byte, or 0. */
    method TakeOldest() returns (v: byte)
      requires cells.Length == Ring.CELLS && Ring.Holds(cells[..], head, tail, fifo)
      modifies this`tail, this`fifo
      ensures Ring.Holds(cells[..], head, tail, fifo)
      ensures if old(fifo) == [] then v == 0 && fifo == [] else v == old(fifo)[0] && fifo == old(fifo)[1..]
    {
      Ring.EmptyOrFull(cells[..], head, tail, fifo);
      v := 0;
      if tail != head {
        Ring.PopFront(cells[..], head, tail, fifo);
        v := cells[tail];
        tail, fifo := (tail + 1) % Ring.CELLS, fifo[1..];
      }
    }

    /** Take the oldest byte and bring the status bit up to date. */
    method PopByte() returns (v: byte)
      requires Valid()
      modifies this`tail, this`rxReady, this`fifo, this`delivered, this`armed
      ensures Valid() && View() == Pop(old(View())).(section := Free)
      ensures v == ReadValue(old(View()))
    {
      ghost var popped := Pop(View());
      PopLossless(View());
      v := TakeOldest();
      Ring.EmptyOrFull(cells[..], head, tail, fifo);
      delivered, armed := popped.delivered, popped.armed;
      rxReady := tail != head;
    }

    method ReadKeyboard() returns (v: byte)
      requires Valid()
      modifies this
      ensures Valid() && View() == ReadDone(old(View()))
      ensures v == ReadValue(old(View()))
    {
      v := PopByte();
      Ring.EmptyOrFull(cells[..], head, tail, fifo);
      pending := false;
      if tail != head && IntEnabled(ctrl) {
        pending, taken := true, false;
      }
    }

    method WriteControl(value: nat)
      requires Valid()
      modifies this
      ensures Valid() && View() == Next(old(View()), WriteCtrl(value))
    {
      armed := IntEnabled(value % 256) && (armed || fifo == []);
      ctrl := value % 256;
    }

    /** One turn of the drain loop. */
    method DrainOne(tty: ConsoleObject.Console)
      requires Valid() && tty.Valid() && tty.buf != cells && rxReady
      modifies this, tty, tty.buf
      ensures Valid() && tty.Valid()
      ensures old(fifo) != [] && fifo == old(fifo)[1..] && delivered == old(delivered) + [old(fifo)[0]]
      ensures tty.View() == LineDiscipline.Feed(old(tty.View()), old(fifo)[0]).tty
    {
      var v := ReadKeyboard();
      assert old(fifo)[..1] == [old(fifo)[0]];
      var echo, woke := tty.RxFeed(v);
    }

    /** serial_drain_rx with nothing else arriving: the terminal is fed every queued byte, in order. */
    method DrainInto(tty: ConsoleObject.Console)
      requires Valid() && tty.Valid() && tty.buf != cells
      modifies this, tty, tty.buf
      ensures Valid() && tty.Valid() && fifo == [] && !rxReady
      ensures tty.View() == LineDiscipline.FeedAll(old(tty.View()), old(fifo))
      ensures delivered == old(delivered) + old(fifo)
    {
      ghost var q, n := fifo, 0;
      while rxReady
        invariant Valid() && tty.Valid() && n <= |q| && fifo == q[n..]
        invariant tty.View() == LineDiscipline.FeedAll(old(tty.View()), q[..n])
        invariant delivered == old(delivered) + q[..n]
        decreases |fifo|
      {
        FeedAllStep(old(tty.View()), q, n);
        DrainOne(tty);
        n := n + 1;
      }
      assert q[..n] == q;
    }
  }

  lemma FeedAllStep(t: LineDiscipline.Tty, q: seq<byte>, n: nat)
    ensures n < |q| ==> q[..n + 1] == q[..n] + [q[n]] && q[n..][1..] == q[n + 1..]
    ensures n < |q| ==>
              LineDiscipline.FeedAll(t, q[..n + 1]) ==
              LineDiscipline.Feed(LineDiscipline.FeedAll(t, q[..n]), q[n]).tty
  {
    if n < |q| {
      assert q[..n + 1][..n] == q[..n];
    }
  }
}
