/** Free swap space, split among the devices that it is interleaved over. */
module Swap {
  import opened Bytes

  /** A run of free blocks, both ends included. */
  datatype Extent = Extent(start: nat, end: nat)

  predicate Proper(e: Extent) { e.start <= e.end }

  /** A swap device as the kernel lists it; `active` is the flag set by `swapon`. */
  datatype Device = Device(blocks: nat, active: bool)

  // ----- meaning: block by block

  /** The device that block `b` lies on: stripes of `dmmax` blocks go to the devices in turn. */
  function DeviceOf(b: nat, dmmax: nat, n: nat): (d: nat)
    requires dmmax > 0 && n > 0
    ensures d < n
  {
    (b / dmmax) % n
  }

  /** How many of the blocks in `lo..hi` lie on device `d`. */
  ghost function BlocksOn(lo: nat, hi: nat, d: nat, dmmax: nat, n: nat): nat
    requires dmmax > 0 && n > 0 && lo <= hi
    decreases hi - lo
  {
    if lo == hi then 0
    else (if DeviceOf(lo, dmmax, n) == d then 1 else 0) + BlocksOn(lo + 1, hi, d, dmmax, n)
  }

  /** These are the blocks that the device's stripes hold. */
  lemma {:induction false} BlocksCounted(lo: nat, hi: nat, d: nat, dmmax: nat, n: nat)
    requires dmmax > 0 && n > 0 && lo <= hi
    ensures BlocksOn(lo, hi, d, dmmax, n) == |set b: int | lo <= b < hi && (b / dmmax) % n == d|
    decreases hi - lo
  {
    var s := set b: int | lo <= b < hi && (b / dmmax) % n == d;
    if lo < hi {
      BlocksCounted(lo + 1, hi, d, dmmax, n);
      var t := set b: int | lo + 1 <= b < hi && (b / dmmax) % n == d;
      assert s == if (lo / dmmax) % n == d then t + {lo} else t;
    }
  }

  ghost function FreeOn(extents: seq<Extent>, d: nat, dmmax: nat, n: nat): nat
    requires dmmax > 0 && n > 0 && forall e :: e in extents ==> Proper(e)
  {
    if extents == [] then 0
    else
      var e := extents[|extents| - 1];
      assert Proper(e);
      FreeOn(extents[..|extents| - 1], d, dmmax, n) + BlocksOn(e.start, e.end + 1, d, dmmax, n)
  }

  ghost function FreeBlocks(extents: seq<Extent>): int {
    if extents == [] then 0
    else
      var e := extents[|extents| - 1];
      FreeBlocks(extents[..|extents| - 1]) + e.end - e.start + 1
  }

  function Sum(s: seq<int>): int {
    if s == [] then 0 else Sum(s[..|s| - 1]) + s[|s| - 1]
  }

  // ----- the stripes that the loop steps over

  lemma {:induction false} BlocksSplit(lo: nat, mid: nat, hi: nat, d: nat, dmmax: nat, n: nat)
    requires dmmax > 0 && n > 0 && lo <= mid <= hi
    ensures BlocksOn(lo, hi, d, dmmax, n) == BlocksOn(lo, mid, d, dmmax, n) + BlocksOn(mid, hi, d, dmmax, n)
    decreases mid - lo
  {
    if lo < mid { BlocksSplit(lo + 1, mid, hi, d, dmmax, n); }
  }

  /** Within one stripe all blocks lie on the same device. */
  lemma {:induction false} BlocksInStripe(lo: nat, hi: nat, stripe: nat, d: nat, dmmax: nat, n: nat)
    requires dmmax > 0 && n > 0 && lo <= hi
    requires forall b: nat :: lo <= b < hi ==> b / dmmax == stripe
    ensures BlocksOn(lo, hi, d, dmmax, n) == if stripe % n == d then hi - lo else 0
    decreases hi - lo
  {
    if lo < hi {
      assert lo / dmmax == stripe;
      BlocksInStripe(lo + 1, hi, stripe, d, dmmax, n);
    }
  }

  /** The start of the stripe after the one that `b` is in. */
  lemma NextStripe(b: nat, dmmax: nat)
    requires dmmax > 0
    ensures var next := (b + dmmax) / dmmax;
            next == b / dmmax + 1 && b < next * dmmax <= b + dmmax
            && forall c: nat :: b <= c < next * dmmax ==> c / dmmax == b / dmmax
  {
    var q, next := b / dmmax, (b + dmmax) / dmmax;
    assert b == q * dmmax + b % dmmax;
    assert (q + 1) * dmmax == q * dmmax + dmmax;
    QuotientIs(b + dmmax, q + 1, dmmax);
    forall c: nat | b <= c < next * dmmax
      ensures c / dmmax == q
    {
      QuotientIs(c, q, dmmax);
    }
  }

  lemma {:induction false} MulOrder(a: nat, b: nat, m: nat)
    ensures a < b ==> a * m + m <= b * m
    decreases b
  {
    if a + 1 < b { MulOrder(a, b - 1, m); }
  }

  lemma QuotientMono(a: nat, b: nat, m: nat)
    requires m > 0 && a <= b
    ensures a / m <= b / m
  {
    assert a == a / m * m + a % m && b == b / m * m + b % m;
    MulOrder(b / m, a / m, m);
  }

  /** One turn of the inner loop: the blocks up to the stripe's end all go to one device. */
  lemma StripeStep(start: nat, bottom: nat, top: nat, d: nat, dmmax: nat, n: nat)
    requires dmmax > 0 && n > 0 && start <= bottom <= top && top / dmmax != bottom / dmmax
    ensures var next := (bottom + dmmax) / dmmax * dmmax;
            && bottom < next <= top
            && BlocksOn(start, next, d, dmmax, n)
            == BlocksOn(start, bottom, d, dmmax, n) + if DeviceOf(bottom, dmmax, n) == d then next - bottom else 0
  {
    var next := (bottom + dmmax) / dmmax * dmmax;
    NextStripe(bottom, dmmax);
    QuotientMono(bottom, top, dmmax);
    BlocksInStripe(bottom, next, bottom / dmmax, d, dmmax, n);
    BlocksSplit(start, bottom, next, d, dmmax, n);
  }

  /** After the inner loop: the rest of the extent lies within one stripe. */
  lemma LastStripe(start: nat, bottom: nat, top: nat, d: nat, dmmax: nat, n: nat)
    requires dmmax > 0 && n > 0 && start <= bottom <= top && top / dmmax == bottom / dmmax
    ensures BlocksOn(start, top + 1, d, dmmax, n)
         == BlocksOn(start, bottom, d, dmmax, n) + if DeviceOf(bottom, dmmax, n) == d then top - bottom + 1 else 0
  {
    forall b: nat | bottom <= b < top + 1
      ensures b / dmmax == bottom / dmmax
    {
      QuotientMono(bottom, b, dmmax);
      QuotientMono(b, top, dmmax);
    }
    BlocksInStripe(bottom, top + 1, bottom / dmmax, d, dmmax, n);
    BlocksSplit(start, bottom, top + 1, d, dmmax, n);
  }

  // ----- conservation over the devices

  ghost function SumOf(f: nat -> int, k: nat): int {
    if k == 0 then 0 else SumOf(f, k - 1) + f(k - 1)
  }

  lemma {:induction false} SumOfAdd(f: nat -> int, g: nat -> int, h: nat -> int, k: nat)
    requires forall d: nat :: d < k ==> h(d) == f(d) + g(d)
    ensures SumOf(h, k) == SumOf(f, k) + SumOf(g, k)
  {
    if k != 0 { SumOfAdd(f, g, h, k - 1); }
  }

  lemma {:induction false} SumOfOne(f: nat -> int, at: nat, k: nat)
    requires forall d: nat :: d < k ==> f(d) == if d == at then 1 else 0
    ensures SumOf(f, k) == if at < k then 1 else 0
  {
    if k != 0 { SumOfOne(f, at, k - 1); }
  }

  ghost function PerDevice(lo: nat, hi: nat, dmmax: nat, n: nat): nat -> int
    requires dmmax > 0 && n > 0 && lo <= hi
  {
    (d: nat) => BlocksOn(lo, hi, d, dmmax, n)
  }

  ghost function FreePerDevice(extents: seq<Extent>, dmmax: nat, n: nat): nat -> int
    requires dmmax > 0 && n > 0 && forall e :: e in extents ==> Proper(e)
  {
    (d: nat) => FreeOn(extents, d, dmmax, n)
  }

  /** Every block lies on exactly one device. */
  lemma {:induction false} BlocksConserved(lo: nat, hi: nat, dmmax: nat, n: nat)
    requires dmmax > 0 && n > 0 && lo <= hi
    ensures SumOf(PerDevice(lo, hi, dmmax, n), n) == hi - lo
    decreases hi - lo
  {
    var f := PerDevice(lo, hi, dmmax, n);
    if lo == hi {
      SumOfOne(f, n, n);
    } else {
      var one := (d: nat) => if DeviceOf(lo, dmmax, n) == d then 1 else 0;
      SumOfOne(one, DeviceOf(lo, dmmax, n), n);
      BlocksConserved(lo + 1, hi, dmmax, n);
      SumOfAdd(one, PerDevice(lo + 1, hi, dmmax, n), f, n);
    }
  }

  /** The free blocks of the devices add up to the free blocks of the extents. */
  lemma {:induction false} FreeConserved(extents: seq<Extent>, dmmax: nat, n: nat)
    requires dmmax > 0 && n > 0 && forall e :: e in extents ==> Proper(e)
    ensures SumOf(FreePerDevice(extents, dmmax, n), n) == FreeBlocks(extents)
  {
    var f := FreePerDevice(extents, dmmax, n);
    if extents == [] {
      SumOfOne(f, n, n);
    } else {
      var e, init := extents[|extents| - 1], extents[..|extents| - 1];
      assert Proper(e);
      FreeConserved(init, dmmax, n);
      BlocksConserved(e.start, e.end + 1, dmmax, n);
      SumOfAdd(FreePerDevice(init, dmmax, n), PerDevice(e.start, e.end + 1, dmmax, n), f, n);
    }
  }

  lemma {:induction false} SumIsSumOf(s: seq<int>, f: nat -> int)
    requires forall d: nat :: d < |s| ==> s[d] == f(d)
    ensures Sum(s) == SumOf(f, |s|)
  {
    if s != [] { SumIsSumOf(s[..|s| - 1], f); }
  }

  // ----- the loops

  /** Split one extent along the stripe boundaries. */
  method SplitExtent(e: Extent, dmmax: nat, nswdev: nat, perdev: array<int>)
    requires dmmax > 0 && nswdev > 0 && Proper(e) && perdev.Length == nswdev
    modifies perdev
    ensures forall d: nat :: d < nswdev ==>
              perdev[d] == old(perdev[d]) + BlocksOn(e.start, e.end + 1, d, dmmax, nswdev)
  {
    var top, bottom := e.end, e.start;
    while top / dmmax != bottom / dmmax
      invariant e.start <= bottom <= top
      invariant forall d: nat :: d < nswdev ==>
                  perdev[d] == old(perdev[d]) + BlocksOn(e.start, bottom, d, dmmax, nswdev)
      decreases top - bottom
    {
      forall d: nat | d < nswdev
        ensures BlocksOn(e.start, (bottom + dmmax) / dmmax * dmmax, d, dmmax, nswdev)
             == BlocksOn(e.start, bottom, d, dmmax, nswdev)
              + if DeviceOf(bottom, dmmax, nswdev) == d then (bottom + dmmax) / dmmax * dmmax - bottom else 0
      {
        StripeStep(e.start, bottom, top, d, dmmax, nswdev);
      }
      StripeStep(e.start, bottom, top, 0, dmmax, nswdev);
      var next := (bottom + dmmax) / dmmax * dmmax;
      var at := DeviceOf(bottom, dmmax, nswdev);
      perdev[at] := perdev[at] + next - bottom;
      bottom := next;
    }
    forall d: nat | d < nswdev
      ensures BlocksOn(e.start, top + 1, d, dmmax, nswdev)
           == BlocksOn(e.start, bottom, d, dmmax, nswdev)
            + if DeviceOf(bottom, dmmax, nswdev) == d then top - bottom + 1 else 0
    {
      LastStripe(e.start, bottom, top, d, dmmax, nswdev);
    }
    var at := DeviceOf(bottom, dmmax, nswdev);
    perdev[at] := perdev[at] + top - bottom + 1;
  }

  /** The whole walk: per device exactly its free blocks, and together exactly `nfree`. */
  method CountFree(extents: seq<Extent>, dmmax: nat, nswdev: nat) returns (perdev: array<int>, nfree: int)
    requires dmmax > 0 && nswdev > 0 && forall e :: e in extents ==> Proper(e)
    ensures fresh(perdev) && perdev.Length == nswdev
    ensures forall d: nat :: d < nswdev ==> perdev[d] == FreeOn(extents, d, dmmax, nswdev)
    ensures nfree == FreeBlocks(extents) && Sum(perdev[..]) == nfree
  {
    nfree := 0;
    perdev := new int[nswdev](_ => 0);
    for i := 0 to |extents|
      invariant nfree == FreeBlocks(extents[..i])
      invariant forall d: nat :: d < nswdev ==> perdev[d] == FreeOn(extents[..i], d, dmmax, nswdev)
    {
      assert extents[..i + 1][..i] == extents[..i] && Proper(extents[i]);
      nfree := nfree + extents[i].end - extents[i].start + 1;
      SplitExtent(extents[i], dmmax, nswdev, perdev);
    }
    assert extents[..|extents|] == extents;
    FreeConserved(extents, dmmax, nswdev);
    SumIsSumOf(perdev[..], FreePerDevice(extents, dmmax, nswdev));
  }

  // ----- the reported totals

  /** What a device holds while it is active; its first stripe is never allocated. */
  function Room(d: Device, dmmax: nat): int { if d.active then d.blocks - dmmax else 0 }

  ghost function Capacity(devices: seq<Device>, dmmax: nat): int {
    if devices == [] then 0
    else Capacity(devices[..|devices| - 1], dmmax) + Room(devices[|devices| - 1], dmmax)
  }

  /** 64-bit unsigned arithmetic throughout, as in the source. */
  method ReportTotals(devices: seq<Device>, dmmax: nat, nfree: int) returns (used: nat, free: nat, total: nat)
    ensures used == (Capacity(devices, dmmax) - nfree) % TWO64
    ensures free == Capacity(devices, dmmax) % TWO64
    ensures total == (used + free) % TWO64
  {
    var avail := 0;
    for i := 0 to |devices|
      invariant avail == Capacity(devices[..i], dmmax) % TWO64
    {
      assert devices[..i + 1][..i] == devices[..i];
      if !devices[i].active {
        continue;
      }
      var xsize := devices[i].blocks - dmmax;
      ModAdd(Capacity(devices[..i], dmmax), xsize);
      avail := (avail + xsize) % TWO64;
    }
    assert devices[..|devices|] == devices;
    ModAdd(Capacity(devices, dmmax), -nfree);
    var inuse := (avail - nfree) % TWO64;
    return inuse, avail, (inuse + avail) % TWO64;
  }

  lemma ModAdd(a: int, b: int)
    ensures (a % TWO64 + b) % TWO64 == (a + b) % TWO64
  {
    assert a == a / TWO64 * TWO64 + a % TWO64;
  }

  // ----- what the `free` field is worth

  /** No device has more free blocks than it has room, and an inactive one has none. */
  ghost predicate Sane(devices: seq<Device>, extents: seq<Extent>, dmmax: nat)
    requires dmmax > 0 && devices != [] && forall e :: e in extents ==> Proper(e)
  {
    forall d :: 0 <= d < |devices| ==> FreeOn(extents, d, dmmax, |devices|) <= Room(devices[d], dmmax)
  }

  /** Every active device is free throughout. */
  ghost predicate Unused(devices: seq<Device>, extents: seq<Extent>, dmmax: nat)
    requires dmmax > 0 && devices != [] && forall e :: e in extents ==> Proper(e)
  {
    forall d :: 0 <= d < |devices| && devices[d].active ==>
      FreeOn(extents, d, dmmax, |devices|) == devices[d].blocks - dmmax
  }

  lemma {:induction false} CapacityBounds(devices: seq<Device>, dmmax: nat, f: nat -> int, k: nat)
    requires k <= |devices| && forall d: nat :: d < k ==> 0 <= f(d) <= Room(devices[d], dmmax)
    ensures 0 <= SumOf(f, k) <= Capacity(devices[..k], dmmax)
    ensures SumOf(f, k) == Capacity(devices[..k], dmmax) <==> forall d: nat :: d < k ==> f(d) == Room(devices[d], dmmax)
  {
    if k > 0 {
      CapacityBounds(devices, dmmax, f, k - 1);
      assert devices[..k][..k - 1] == devices[..k - 1];
    }
  }

  /** The `free` field holds the capacity.  It is the free space exactly when every active device is
      free throughout. */
  lemma ReportedFreeIsFreeIff(devices: seq<Device>, extents: seq<Extent>, dmmax: nat)
    requires dmmax > 0 && devices != [] && (forall e :: e in extents ==> Proper(e)) && Sane(devices, extents, dmmax)
    ensures 0 <= FreeBlocks(extents) <= Capacity(devices, dmmax)
    ensures Capacity(devices, dmmax) == FreeBlocks(extents) <==> Unused(devices, extents, dmmax)
  {
    var f := FreePerDevice(extents, dmmax, |devices|);
    FreeConserved(extents, dmmax, |devices|);
    CapacityBounds(devices, dmmax, f, |devices|);
    assert devices[..|devices|] == devices;
    assert forall d: nat :: d < |devices| ==> f(d) == FreeOn(extents, d, dmmax, |devices|);
  }

  /** The whole report. */
  method GetSwap(extents: seq<Extent>, devices: seq<Device>, dmmax: nat) returns (used: nat, free: nat, total: nat)
    requires dmmax > 0 && devices != [] && forall e :: e in extents ==> Proper(e)
    ensures used == (Capacity(devices, dmmax) - FreeBlocks(extents)) % TWO64
    ensures free == Capacity(devices, dmmax) % TWO64
    ensures total == (used + free) % TWO64
    ensures Sane(devices, extents, dmmax) && Capacity(devices, dmmax) < TWO64 ==>
              (free == FreeBlocks(extents) <==> Unused(devices, extents, dmmax))
  {
    var perdev, nfree := CountFree(extents, dmmax, |devices|);
    used, free, total := ReportTotals(devices, dmmax, nfree);
    if Sane(devices, extents, dmmax) {
      ReportedFreeIsFreeIff(devices, extents, dmmax);
    }
  }

  /** One device of which half is in use, and the `free` field says that all of it is free. */
  lemma FreeFieldWrong()
    ensures var devices, extents := [Device(10, true)], [Extent(2, 5)];
            && Sane(devices, extents, 2) && !Unused(devices, extents, 2)
            && Capacity(devices, 2) == 8 && FreeBlocks(extents) == 4
  {
    var devices, extents := [Device(10, true)], [Extent(2, 5)];
    assert FreeBlocks(extents[..0]) == 0;
    assert devices[..0] == [] && extents[..0] == [];
    FreeConserved(extents, 2, 1);
    assert SumOf(FreePerDevice(extents, 2, 1), 1) == FreeOn(extents, 0, 2, 1);
  }
}
