/**
 Device lookup: mmio.h keeps the range of the last hit in front of a linear scan of the registered
 devices. The cached lookup must answer as the scan would.
 */
module Mmio {
  /** A device serves the addresses start .. end, both included. */
  datatype Dev = Dev(start: nat, end: nat)

  predicate Covers(d: Dev, addr: nat) {
    d.start <= addr <= d.end
  }

  const NO_DEVICE: int := -1

  /** First device at or after i that covers addr. */
  function ScanFrom(devs: seq<Dev>, addr: nat, i: nat): (r: int)
    requires i <= |devs|
    ensures r == NO_DEVICE || (i <= r < |devs| && Covers(devs[r], addr))
    ensures forall k :: i <= k < (if r == NO_DEVICE then |devs| else r) ==> !Covers(devs[k], addr)
    decreases |devs| - i
  {
    if i == |devs| then NO_DEVICE
    else if Covers(devs[i], addr) then i
    else ScanFrom(devs, addr, i + 1)
  }

  function Scan(devs: seq<Dev>, addr: nat): (r: int)
    ensures r == NO_DEVICE || (0 <= r < |devs| && Covers(devs[r], addr))
  {
    ScanFrom(devs, addr, 0)
  }

  /** mmio_cache_dev (NO_DEVICE for NULL) with its range. */
  datatype Cache = Cache(dev: int, start: nat, end: nat)

  const EMPTY: Cache := Cache(NO_DEVICE, 0, 0)

  predicate Hit(c: Cache, addr: nat) {
    c.dev != NO_DEVICE && c.start <= addr <= c.end
  }

  function Found(devs: seq<Dev>, c: Cache, addr: nat): int {
    if Hit(c, addr) then c.dev else Scan(devs, addr)
  }

  function Updated(devs: seq<Dev>, c: Cache, addr: nat): Cache {
    if Hit(c, addr) then c
    else
      var r := Scan(devs, addr);
      if r == NO_DEVICE then c.(dev := NO_DEVICE) else Cache(r, devs[r].start, devs[r].end)
  }

  /** A cached device was found by the scan, and its range is its own. */
  ghost predicate CacheOk(devs: seq<Dev>, c: Cache) {
    c.dev == NO_DEVICE ||
    (0 <= c.dev < |devs| && c.start == devs[c.dev].start && c.end == devs[c.dev].end
     && exists b :: Scan(devs, b) == c.dev)
  }

  /** Two ranges that share no address (a range whose end lies before its start is empty). */
  predicate Apart(d: Dev, e: Dev) {
    d.end < e.start || e.end < d.start || d.end < d.start || e.end < e.start
  }

  lemma ApartMeans(d: Dev, e: Dev)
    ensures Apart(d, e) <==> forall a: nat :: Covers(d, a) ==> !Covers(e, a)
  {
    if !Apart(d, e) {
      var a := if d.start < e.start then e.start else d.start;
      assert Covers(d, a) && Covers(e, a);
    }
  }

  predicate Disjoint(devs: seq<Dev>) {
    forall i, j :: 0 <= i < j < |devs| ==> Apart(devs[i], devs[j])
  }

  /** Device j keeps clear of every device registered before it. */
  predicate Clear(devs: seq<Dev>, j: nat)
    requires j < |devs|
  {
    forall i :: 0 <= i < j ==> Apart(devs[i], devs[j])
  }

  /** a lies in the range of a device registered before j. */
  predicate CoveredBefore(devs: seq<Dev>, j: nat, a: nat)
    requires j <= |devs|
  {
    exists i :: 0 <= i < j && Covers(devs[i], a)
  }

  /** All of device j's range is taken by devices registered before it. */
  ghost predicate Buried(devs: seq<Dev>, j: nat)
    requires j < |devs|
  {
    forall a: nat :: Covers(devs[j], a) ==> CoveredBefore(devs, j, a)
  }

  /** Each device keeps clear of the earlier ones or is wholly covered by them. */
  ghost predicate Layered(devs: seq<Dev>) {
    forall j :: 0 <= j < |devs| ==> Clear(devs, j) || Buried(devs, j)
  }

  /** Wherever the scan ever answers j, it answers j for all of j's range. */
  ghost predicate Unshadowed(devs: seq<Dev>) {
    forall a: nat, b: nat :: Scan(devs, b) != NO_DEVICE && Covers(devs[Scan(devs, b)], a) ==> Scan(devs, a) == Scan(devs, b)
  }

  lemma ScanIs(devs: seq<Dev>, j: nat, a: nat)
    requires j < |devs|
    ensures Scan(devs, a) == j <==> Covers(devs[j], a) && !CoveredBefore(devs, j, a)
  {
  }

  lemma ClearMeans(devs: seq<Dev>, j: nat, a: nat)
    requires j < |devs| && Clear(devs, j) && Covers(devs[j], a)
    ensures !CoveredBefore(devs, j, a)
  {
    forall i | 0 <= i < j
      ensures !Covers(devs[i], a)
    {
      ApartMeans(devs[i], devs[j]);
    }
  }

  lemma LayeredIsUnshadowed(devs: seq<Dev>)
    requires Layered(devs)
    ensures Unshadowed(devs)
  {
    forall a: nat, b: nat | Scan(devs, b) != NO_DEVICE && Covers(devs[Scan(devs, b)], a)
      ensures Scan(devs, a) == Scan(devs, b)
    {
      var j := Scan(devs, b);
      ScanIs(devs, j, b);
      ScanIs(devs, j, a);
      ClearMeans(devs, j, a);
    }
  }

  lemma UnshadowedIsLayered(devs: seq<Dev>)
    requires Unshadowed(devs)
    ensures Layered(devs)
  {
    forall j | 0 <= j < |devs| && !Buried(devs, j)
      ensures Clear(devs, j)
    {
      var b: nat :| Covers(devs[j], b) && !CoveredBefore(devs, j, b);
      ScanIs(devs, j, b);
      forall i | 0 <= i < j
        ensures Apart(devs[i], devs[j])
      {
        ApartMeans(devs[i], devs[j]);
        forall a: nat | Covers(devs[i], a)
          ensures !Covers(devs[j], a)
        {
          ScanIs(devs, j, a);
        }
      }
    }
  }

  lemma DisjointIsLayered(devs: seq<Dev>)
    requires Disjoint(devs)
    ensures Layered(devs)
  {
    forall j | 0 <= j < |devs|
      ensures Clear(devs, j)
    {
    }
  }

  lemma LookupKeepsCache(devs: seq<Dev>, c: Cache, addr: nat)
    requires CacheOk(devs, c)
    ensures CacheOk(devs, Updated(devs, c, addr))
  {
  }

  /** The cache after a history of lookups. */
  function After(devs: seq<Dev>, c: Cache, history: seq<nat>): Cache
    decreases |history|
  {
    if history == [] then c else After(devs, Updated(devs, c, history[0]), history[1..])
  }

  lemma {:induction false} HistoryKeepsCache(devs: seq<Dev>, c: Cache, history: seq<nat>)
    requires CacheOk(devs, c)
    ensures CacheOk(devs, After(devs, c, history))
    decreases |history|
  {
    if history != [] {
      LookupKeepsCache(devs, c, history[0]);
      HistoryKeepsCache(devs, Updated(devs, c, history[0]), history[1..]);
    }
  }

  /** After this history of lookups, does the cached lookup of addr answer as the scan would? */
  ghost predicate Agrees(devs: seq<Dev>, history: seq<nat>, addr: nat) {
    Found(devs, After(devs, EMPTY, history), addr) == Scan(devs, addr)
  }

  lemma TransparentExactlyWhenUnshadowed(devs: seq<Dev>)
    ensures (forall history: seq<nat>, addr: nat :: Agrees(devs, history, addr)) <==> Unshadowed(devs)
  {
    if Unshadowed(devs) {
      forall history: seq<nat>, addr: nat
        ensures Agrees(devs, history, addr)
      {
        HistoryKeepsCache(devs, EMPTY, history);
        TransparentStep(devs, After(devs, EMPTY, history), addr);
      }
    } else {
      var a: nat, b: nat :| Scan(devs, b) != NO_DEVICE && Covers(devs[Scan(devs, b)], a) && Scan(devs, a) != Scan(devs, b);
      var history := [b];
      assert history[1..] == [];
      assert After(devs, EMPTY, history) == Updated(devs, EMPTY, b);
      assert !Agrees(devs, history, a);
    }
  }

  /**
   The cached lookup equals the scan after every history of lookups if and only if each device's range
   keeps clear of the ranges registered before it or is wholly covered by them.
   */
  lemma CacheIsTransparentExactlyWhen(devs: seq<Dev>)
    ensures (forall history: seq<nat>, addr: nat :: Agrees(devs, history, addr)) <==> Layered(devs)
  {
    TransparentExactlyWhenUnshadowed(devs);
    if Layered(devs) {
      LayeredIsUnshadowed(devs);
    }
    if Unshadowed(devs) {
      UnshadowedIsLayered(devs);
    }
  }

  /** A lookup that finds a device makes its whole range a hit; one that finds none makes every address a miss. */
  lemma LookupFillsCache(devs: seq<Dev>, c: Cache, addr: nat, b: nat)
    requires CacheOk(devs, c)
    ensures var c', r := Updated(devs, c, addr), Found(devs, c, addr);
            && (r != NO_DEVICE ==> 0 <= r < |devs| && c'.dev == r && (Hit(c', b) <==> Covers(devs[r], b)))
            && (r == NO_DEVICE ==> !Hit(c', b))
  {
  }

  /** Ranges 0 .. 7 and 4 .. 11: after a lookup of 8, the lookup of 5 answers the second device. */
  lemma PartialOverlapFails()
    ensures var devs := [Dev(0, 7), Dev(4, 11)];
            !Layered(devs) && !Agrees(devs, [8], 5) && Scan(devs, 5) == 0
  {
    var devs := [Dev(0, 7), Dev(4, 11)];
    ScanIs(devs, 0, 5);
    ScanIs(devs, 1, 8);
    var history := [8];
    assert history[1..] == [];
    assert After(devs, EMPTY, history) == Updated(devs, EMPTY, 8) == Cache(1, 4, 11);
    assert !Apart(devs[0], devs[1]) && !Clear(devs, 1);
    assert Covers(devs[1], 8) && !CoveredBefore(devs, 1, 8) && !Buried(devs, 1);
  }

  lemma TransparentStep(devs: seq<Dev>, c: Cache, addr: nat)
    requires Unshadowed(devs) && CacheOk(devs, c)
    ensures Found(devs, c, addr) == Scan(devs, addr)
  {
    if Hit(c, addr) {
      var b :| Scan(devs, b) == c.dev;
      assert Covers(devs[Scan(devs, b)], addr);
    }
  }

  // ---------------------------------------------------------------------------
  // The devices of this machine
  // ---------------------------------------------------------------------------

  const MEM_SIZE: nat := 0x400_0000
  const FB_SIZE: nat := 640 * 480 * 4
  const FB_LEGACY_BASE: nat := 0x62_0000
  const TIME_BASE: nat := 0x2000
  const SYSINFO_BASE: nat := FB_LEGACY_BASE + FB_SIZE
  const SYSINFO_SIZE: nat := 0x5C

  /** In registration order: framebuffer, its legacy alias, time, sysinfo. */
  function Devices(): seq<Dev> {
    [Dev(MEM_SIZE, MEM_SIZE + FB_SIZE - 1),
     Dev(FB_LEGACY_BASE, FB_LEGACY_BASE + FB_SIZE - 1),
     Dev(TIME_BASE, TIME_BASE + 23),
     Dev(SYSINFO_BASE, SYSINFO_BASE + SYSINFO_SIZE - 1)]
  }

  lemma DevicesAreDisjoint()
    ensures Disjoint(Devices())
  {
  }

  /** find_mmio as code: the cache is tried first, then the table is scanned and the cache refilled. */
  class Bus {
    const devs: seq<Dev>
    var cache: Cache

    ghost predicate Valid()
      reads this
    {
      CacheOk(devs, cache)
    }

    constructor (devs: seq<Dev>)
      ensures Valid() && this.devs == devs && cache == EMPTY
    {
      this.devs := devs;
      cache := EMPTY;
    }

    method Find(addr: nat) returns (dev: int)
      requires Valid()
      modifies this
      ensures Valid() && cache == Updated(devs, old(cache), addr)
      ensures dev == Found(devs, old(cache), addr)
      ensures Disjoint(devs) ==> dev == Scan(devs, addr)
    {
      LookupKeepsCache(devs, cache, addr);
      if Disjoint(devs) {
        DisjointIsLayered(devs);
        LayeredIsUnshadowed(devs);
        TransparentStep(devs, cache, addr);
      }
      if cache.dev != NO_DEVICE && addr >= cache.start && addr <= cache.end {
        return cache.dev;
      }
      var i := 0;
      while i < |devs|
        invariant 0 <= i <= |devs| && cache == old(cache)
        invariant ScanFrom(devs, addr, i) == Scan(devs, addr)
      {
        if addr >= devs[i].start && addr <= devs[i].end {
          cache := Cache(i, devs[i].start, devs[i].end);
          return i;
        }
        i := i + 1;
      }
      cache := cache.(dev := NO_DEVICE);
      dev := NO_DEVICE;
    }
  }
}
