/**
 The interrupt controller of one VM as code over arrays of 64-bit words: the atomic steps one by one, as
 any interleaving may arrange them, and vm_handle_interrupts run to completion without interference,
 except that a weak compare-and-swap may fail for no reason.
 */
module IrqObject {
  import opened Irq
  import opened Bitmap

  /** w & ~(serial_mask | keyboard_mask) */
  function ClearBoth(w: bv64, serial: bv64, keyboard: bv64): (r: bv64)
    ensures r == (w & !serial) & !keyboard
  {
    w & !(serial | keyboard)
  }

  /** An AND with the complement of two masks clears two bits and no other. */
  lemma ClearBothClears(w: bv64, s: nat, k: nat)
    requires s < BITS && k < BITS
    ensures Ones64(ClearBoth(w, 1 << (s as bv6), 1 << (k as bv6))) == Ones64(w) - {k, s}
  {
    var w1 := Clear64(w, s);
    assert ClearBoth(w, 1 << (s as bv6), 1 << (k as bv6)) == Clear64(w1, k);
  }

  class Controller {
    const bitmap: array<bv64>
    const cores: array<Core>
    const ivt: array<nat>
    ghost var words: seq<set<nat>>   // the one bits of each word

    ghost function View(): State
      reads this, cores, ivt
    {
      State(words, cores[..], ivt[..], [])
    }

    ghost predicate Valid()
      reads this, bitmap, cores, ivt
    {
      && Shape(View()) && bitmap.Length == |words|
      && (bitmap as object) != (ivt as object) && (bitmap as object) != (cores as object)
      && forall i :: 0 <= i < |words| ==> words[i] == Ones64(bitmap[i])
    }

    /** init_ivt: every vector unregistered, nothing pending, no core in a handler. */
    constructor (n: nat)
      requires n >= 1
      ensures Valid() && fresh(bitmap) && fresh(cores) && fresh(ivt)
      ensures View() == Start(n)
    {
      bitmap := new bv64[n * WORDS](_ => 0);
      cores := new Core[n](_ => Core(Outside, false, false));
      ivt := new nat[IVT_SIZE](_ => UNREGISTERED);
      words := seq(n * WORDS, _ => {});
      ZeroIsEmpty64(0);
    }

    method TriggerTarget(target: int, v: nat)
      requires Valid()
      modifies bitmap, this`words
      ensures Valid() && View() == Raise(old(View()), target, v).(log := [])
    {
      if target < 0 || target >= cores.Length { return; }
      if v >= IVT_SIZE { return; }
      var i := target * WORDS + v / BITS;
      bitmap[i] := Set64(bitmap[i], v % BITS);
      words := words[i := words[i] + {v % BITS}];
    }

    method AckKeyboard()
      requires Valid()
      modifies bitmap, this`words
      ensures Valid() && View() == Acknowledge(old(View())).(log := [])
    {
      var serial, keyboard := INT_SERIAL, INT_KEYBOARD;
      ClearBothClears(bitmap[0], serial, keyboard);
      bitmap[0] := ClearBoth(bitmap[0], 1 << (serial as bv6), 1 << (keyboard as bv6));
      words := words[0 := words[0] - {INT_KEYBOARD, INT_SERIAL}];
    }

    method EnterInterrupt(c: nat, v: nat)
      requires Valid() && c < cores.Length
      modifies cores
      ensures Valid() && words == old(words)
      ensures View() == old(View()).(cores := old(cores[..])[c := old(cores[c]).(inInterrupt := old(cores[c]).inInterrupt || Enters(old(View()), c, v))])
    {
      if v >= IVT_SIZE { return; }
      if cores[c].inInterrupt { return; }
      if ivt[v] == UNREGISTERED { return; }
      cores[c] := cores[c].(inInterrupt := true);
    }

    /** atomic_compare_exchange_weak on word i. */
    method CompareExchange(i: nat, expected: bv64, desired: bv64, spurious: bool) returns (ok: bool)
      requires Valid() && i < bitmap.Length
      modifies bitmap, this`words
      ensures Valid() && (ok <==> old(bitmap[i]) == expected && !spurious)
      ensures words == if ok then old(words)[i := Ones64(desired)] else old(words)
      ensures !ok ==> bitmap[i] == old(bitmap[i])
    {
      ok := bitmap[i] == expected && !spurious;
      if ok {
        bitmap[i] := desired;
        words := words[i := Ones64(desired)];
      }
    }

    // The atomic steps of vm_handle_interrupts one by one, for any interleaving: each leaves the words and
    // the core's position as the step of module Irq does. The word a core has loaded is its local variable.

    method MoveTo(c: nat, pc: Pc)
      requires Valid() && c < cores.Length
      modifies cores
      ensures Valid() && words == old(words) && bitmap[..] == old(bitmap[..])
      ensures View() == WithPc(old(View()), c, pc)
    {
      cores[c] := cores[c].(pc := pc);
    }

    /** atomic_load of the next word. */
    method LoadStep(c: nat) returns (word: bv64)
      requires Valid() && Enabled(View(), Load(c))
      modifies cores
      ensures Valid() && View() == Next(old(View()), Load(c))
      ensures cores[c].pc.Holding? ==> cores[c].pc.word == Ones64(word)
    {
      word := 0;
      var w := cores[c].pc.w;
      if w >= WORDS {
        MoveTo(c, Outside);
        return;
      }
      word := bitmap[c * WORDS + w];
      ZeroIsEmpty64(word);
      if word == 0 {
        MoveTo(c, Scan(w + 1));
      } else {
        var bit := Ctz64(word);
        LowestOf(Ones64(word), bit);
        MoveTo(c, Holding(w, Ones64(word), bit));
      }
    }

    /** One turn of the swap loop: the test of the loaded word and the compare-and-swap. */
    method SwapStep(c: nat, word: bv64, spurious: bool)
      requires Valid() && Enabled(View(), Swap(c, spurious)) && cores[c].pc.word == Ones64(word)
      modifies bitmap, cores, this`words
      ensures Valid() && View() == TrySwap(old(View()), c, spurious).(log := [])
    {
      var w, bit := cores[c].pc.w, cores[c].pc.bit;
      if !Masked64(word, bit) {
        MoveTo(c, Scan(w + 1));
        return;
      }
      SameWord(bitmap[c * WORDS + w], word);
      var ok := CompareExchange(c * WORDS + w, word, Clear64(word, bit), spurious);
      MoveTo(c, if ok then Entering(w * BITS + bit) else Reload(w, bit));
    }

    /** atomic_load after a failed swap. */
    method ReloadStep(c: nat) returns (word: bv64)
      requires Valid() && Enabled(View(), LoadAgain(c))
      modifies cores
      ensures Valid() && View() == Next(old(View()), LoadAgain(c))
      ensures cores[c].pc.Holding? ==> cores[c].pc.word == Ones64(word)
    {
      var w, bit := cores[c].pc.w, cores[c].pc.bit;
      word := bitmap[c * WORDS + w];
      ZeroIsEmpty64(word);
      MoveTo(c, if word == 0 then Scan(w + 1) else Holding(w, Ones64(word), bit));
    }

    /** The call of vm_enter_interrupt. */
    method EnterStep(c: nat)
      requires Valid() && Enabled(View(), EnterIsr(c))
      modifies cores
      ensures Valid() && View() == Next(old(View()), EnterIsr(c))
    {
      var v := cores[c].pc.v;
      MoveTo(c, Outside);
      EnterInterrupt(c, v);
    }

    /**
     One word of the scan: the position of its lowest bit, which is taken, or BITS if it is zero. The first
     swaps, so many as given, fail spuriously; with nobody else writing, the bit is ours in the end.
     */
    method TakeFromWord(i: nat, failures: nat) returns (bit: nat)
      requires Valid() && i < bitmap.Length
      modifies bitmap, this`words
      ensures Valid() && bit == Ctz(old(words[i]))
      ensures words == if bit < BITS then old(words)[i := old(words[i]) - {bit}] else old(words)
    {
      var left, word := failures, bitmap[i];
      ZeroIsEmpty64(word);
      CtzOfEmpty();
      if word == 0 { return BITS; }
      bit := Ctz64(word);
      LowestOf(words[i], bit);
      while Masked64(word, bit)
        invariant Valid() && words == old(words) && word == bitmap[i] && bit in Ones64(word)
        decreases left
      {
        var ok := CompareExchange(i, word, Clear64(word, bit), left > 0);
        if ok { return; }
        left := left - 1;
        word := bitmap[i];
      }
    }

    /** The scan of core c's words: takes its lowest pending vector, or none (IVT_SIZE). */
    method ScanWords(c: nat, failures: nat) returns (v: nat)
      requires Valid() && c < cores.Length
      modifies bitmap, this`words
      ensures Valid() && v == LowestVector(old(View()), c, 0)
      ensures words == if v < IVT_SIZE
                       then old(words)[Index(c, v / BITS) := old(words)[Index(c, v / BITS)] - {v % BITS}]
                       else old(words)
    {
      var w := 0;
      while w < WORDS
        invariant w <= WORDS && words == old(words) && Valid()
        invariant LowestVector(View(), c, w) == LowestVector(old(View()), c, 0)
      {
        var bit := TakeFromWord(c * WORDS + w, failures);
        if bit < BITS {
          v := w * BITS + bit;
          assert v / BITS == w && v % BITS == bit;
          return;
        }
        w := w + 1;
      }
      v := IVT_SIZE;
    }

    /** Takes the lowest pending vector of core c, which is returned, or IVT_SIZE if it takes none. */
    method HandleInterrupts(c: nat, failures: nat) returns (v: nat)
      requires Valid() && c < cores.Length
      modifies bitmap, cores, this`words
      ensures Valid()
      ensures var s := old(View());
              v == if s.cores[c].inInterrupt || s.cores[c].masked then IVT_SIZE else LowestVector(s, c, 0)
      ensures v == IVT_SIZE ==> View() == old(View())
      ensures v < IVT_SIZE ==>
                && words == old(words)[Index(c, v / BITS) := old(words)[Index(c, v / BITS)] - {v % BITS}]
                && cores[..] == old(cores[..])[c := old(cores[c]).(inInterrupt := ivt[v] != UNREGISTERED)]
                && ivt[..] == old(ivt[..])
    {
      if cores[c].inInterrupt { return IVT_SIZE; }
      if cores[c].masked { return IVT_SIZE; }
      v := ScanWords(c, failures);
      if v < IVT_SIZE {
        EnterInterrupt(c, v);
      }
    }
  }

  /** The compare-and-swap compares words, the model compares sets. */
  lemma SameWord(a: bv64, b: bv64)
    ensures a == b <==> Ones64(a) == Ones64(b)
  {
    if Ones64(a) == Ones64(b) {
      OnesIsInjective64(a, b);
    }
  }

  /** The least element of a non-empty word is what the model's scan finds. */
  lemma LowestOf(word: set<nat>, b: nat)
    requires b in word && b < BITS && forall k :: k in word ==> b <= k
    ensures Ctz(word) == b
  {
  }
}
