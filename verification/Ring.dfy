/** A 256-cell ring whose contents run from tail up to, not including, head. */
module Ring {
  const CELLS: nat := 256

  function Index(tail: nat, i: nat): (r: nat)
    requires tail < CELLS && i <= CELLS
    ensures r < CELLS
    ensures r == (tail + i) % CELLS
  {
    if tail + i < CELLS then tail + i else tail + i - CELLS
  }

  function Size(head: nat, tail: nat): (n: nat)
    requires head < CELLS && tail < CELLS
    ensures n < CELLS && Index(tail, n) == head
  {
    if tail <= head then head - tail else head + CELLS - tail
  }

  /** The ring's contents are q: at most 255 cells, read cyclically from tail. */
  ghost predicate Holds<T>(buf: seq<T>, head: nat, tail: nat, q: seq<T>) {
    && |buf| == CELLS && head < CELLS && tail < CELLS
    && |q| == Size(head, tail)
    && forall i :: 0 <= i < |q| ==> q[i] == buf[Index(tail, i)]
  }

  lemma EmptyOrFull<T>(buf: seq<T>, head: nat, tail: nat, q: seq<T>)
    requires Holds(buf, head, tail, q)
    ensures |q| < CELLS
    ensures head == tail <==> q == []
    ensures (head + 1) % CELLS == tail <==> |q| == CELLS - 1
  {
  }

  lemma Push<T>(buf: seq<T>, head: nat, tail: nat, q: seq<T>, c: T)
    requires Holds(buf, head, tail, q) && (head + 1) % CELLS != tail
    ensures Holds(buf[head := c], (head + 1) % CELLS, tail, q + [c])
  {
  }

  lemma PopFront<T>(buf: seq<T>, head: nat, tail: nat, q: seq<T>)
    requires Holds(buf, head, tail, q) && head != tail
    ensures q != [] && q[0] == buf[tail]
    ensures Holds(buf, head, (tail + 1) % CELLS, q[1..])
  {
    assert Index(tail, 0) == tail;
    var t' := (tail + 1) % CELLS;
    forall i | 0 <= i < |q| - 1
      ensures q[1..][i] == buf[Index(t', i)]
    {
      assert Index(t', i) == Index(tail, i + 1);
    }
  }

  lemma PopBack<T>(buf: seq<T>, head: nat, tail: nat, q: seq<T>)
    requires Holds(buf, head, tail, q) && head != tail
    ensures q != [] && q[|q| - 1] == buf[(head + CELLS - 1) % CELLS]
    ensures Holds(buf, (head + CELLS - 1) % CELLS, tail, q[..|q| - 1])
  {
    assert Index(tail, |q| - 1) == (head + CELLS - 1) % CELLS;
  }
}
