/** Apportioning a process's run time to user, system and interrupt time by tick counts. */
module CpuTime {
  import opened Bytes

  const MILLION := 1000000

  /** The part of `struct proc` that is used: tick counts and the time that the process has run. */
  datatype Proc = Proc(sticks: u64, uticks: u64, iticks: u64, sec: int, usec: int)
  {
    ghost predicate Valid() { 0 - TWO63 <= sec * MILLION + usec < TWO63 }

    /** Run time in microseconds; a negative one counts as none. */
    function Total(): nat {
      var t := sec * MILLION + usec;
      if t < 0 then 0 else t
    }

    ghost predicate TicksFit() { sticks + uticks + iticks < TWO64 }

    /** Without any ticks, the whole time is system time. */
    function SystemTicks(): u64 {
      if (sticks + uticks + iticks) % TWO64 == 0 then 1 else sticks
    }

    function AllTicks(): (t: u64)
      ensures t > 0
    {
      var t := (sticks + uticks + iticks) % TWO64;
      if t == 0 then 1 else t
    }
  }

  class Timeval {
    var sec: int
    var usec: int

    constructor ()
      ensures sec == usec == 0
    {
      sec, usec := 0, 0;
    }

    ghost predicate Normal()
      reads this
    {
      0 <= sec && 0 <= usec < MILLION
    }

    /** `tv2sec`, with the wrap-around of 64-bit unsigned arithmetic. */
    function ToMicros(): u64
      reads this
    {
      (sec % TWO64 * MILLION + usec % TWO64) % TWO64
    }

    method SetMicros(micros: u64)
      modifies this
      ensures Normal() && ToMicros() == micros
    {
      sec, usec := micros / MILLION, micros % MILLION;
    }
  }

  /** The exact share of `part` ticks, rounded down. */
  function Share(total: nat, part: nat, all: nat): nat
    requires all > 0
  {
    total * part / all
  }

  /** The share as computed: the product wraps around at 64 bits. */
  function WrappedShare(total: nat, part: nat, all: nat): (s: u64)
    requires all > 0
  {
    QuotientBound(total * part % TWO64, all);
    total * part % TWO64 / all
  }

  lemma QuotientBound(x: nat, m: nat)
    requires m > 0
    ensures 0 <= x / m <= x
  {
    Division(x, m);
    MulMono(1, m, x / m);
  }

  lemma Division(x: nat, m: nat)
    requires m > 0
    ensures x / m * m <= x < x / m * m + m
  {
  }

  /** `calcru`. */
  method Calcru(p: Proc, up: Timeval, sp: Timeval, ip: Timeval?)
    requires p.Valid() && up != sp && ip != up && ip != sp
    modifies up, sp, ip
    ensures up.Normal() && up.ToMicros() == WrappedShare(p.Total(), p.uticks, p.AllTicks())
    ensures sp.Normal() && sp.ToMicros() == WrappedShare(p.Total(), p.SystemTicks(), p.AllTicks())
    ensures ip != null ==> ip.Normal() && ip.ToMicros() == WrappedShare(p.Total(), p.iticks, p.AllTicks())
  {
    var st, ut, it := p.sticks, p.uticks, p.iticks;
    var tot := (st + ut + it) % TWO64;
    if tot == 0 {
      st, tot := 1, 1;
    }
    var totusec := p.sec * MILLION + p.usec;
    if totusec < 0 {
      totusec := 0;
    }
    sp.SetMicros(WrappedShare(totusec, st, tot));
    up.SetMicros(WrappedShare(totusec, ut, tot));
    if ip != null {
      ip.SetMicros(WrappedShare(totusec, it, tot));
    }
  }

  /** A computed share is the exact one exactly when its product fits 64 bits. */
  lemma ShareExactIff(total: nat, part: nat, all: nat)
    requires 0 < all < TWO64
    ensures WrappedShare(total, part, all) == Share(total, part, all) <==> total * part < TWO64
  {
    var x := total * part;
    if x >= TWO64 {
      var y := x % TWO64;
      assert x == x / TWO64 * TWO64 + y;
      assert x >= y + TWO64;
      FloorsDiffer(y, x, all);
    }
  }

  /** A product of 2^64 leaves no share at all. */
  lemma ShareLost()
    ensures WrappedShare(TWO63, 2, 2) == 0 && Share(TWO63, 2, 2) == TWO63
  {
  }

  lemma FloorsDiffer(y: nat, x: nat, m: nat)
    requires m > 0 && x >= y + m
    ensures y / m < x / m
  {
    assert y == y / m * m + y % m && x == x / m * m + x % m;
    if x / m <= y / m {
      MulMono(x / m, y / m, m);
    }
  }

  lemma MulMono(a: nat, b: nat, m: nat)
    requires a <= b
    ensures a * m <= b * m
  {
  }

  function Floors(x: nat, y: nat, z: nat, m: nat): nat
    requires m > 0
  {
    x / m + y / m + z / m
  }

  lemma FloorsBound(x: nat, y: nat, z: nat, m: nat)
    requires m > 0
    ensures Floors(x, y, z, m) * m <= x + y + z < Floors(x, y, z, m) * m + 3 * m
  {
    Division(x, m);
    Division(y, m);
    Division(z, m);
    Distribute(m, x / m, y / m, z / m);
  }

  lemma FloorsConserve(x: nat, y: nat, z: nat, t: nat, m: nat)
    requires m > 0 && x + y + z == m * t
    ensures t - 2 <= Floors(x, y, z, m) <= t
  {
    FloorsBound(x, y, z, m);
    Squeeze(Floors(x, y, z, m), t, m);
  }

  /** Three exact shares of the whole lose at most two microseconds. */
  lemma SharesConserve(total: nat, a: nat, b: nat, c: nat, all: nat)
    requires all > 0 && a + b + c == all
    ensures total - 2 <= Share(total, a, all) + Share(total, b, all) + Share(total, c, all) <= total
  {
    Distribute(total, a, b, c);
    FloorsConserve(total * a, total * b, total * c, total, all);
  }

  lemma Distribute(t: nat, a: nat, b: nat, c: nat)
    ensures a * t + b * t + c * t == (a + b + c) * t
    ensures t * a + t * b + t * c == (a + b + c) * t
  {
  }

  lemma Squeeze(s: nat, t: nat, m: nat)
    requires s * m <= t * m < s * m + 3 * m
    ensures t - 2 <= s <= t
  {
    if s > t { MulMono(t + 1, s, m); }
    if s + 3 <= t { MulMono(s + 3, t, m); }
  }

  /** The bound of two is reached. */
  lemma TwoMicrosecondsLost()
    ensures Share(2, 1, 3) + Share(2, 1, 3) + Share(2, 1, 3) == 2 - 2
  {
  }

  /** Within the 64-bit range the three times of a process add up to its run time, give or take
      two microseconds; without ticks they are the run time. */
  lemma TimesAddUp(p: Proc)
    requires p.Valid() && p.TicksFit() && p.Total() * p.AllTicks() < TWO64
    ensures var u, s, i := WrappedShare(p.Total(), p.uticks, p.AllTicks()),
                           WrappedShare(p.Total(), p.SystemTicks(), p.AllTicks()),
                           WrappedShare(p.Total(), p.iticks, p.AllTicks());
            && p.Total() - 2 <= u + s + i <= p.Total()
            && (p.sticks + p.uticks + p.iticks == 0 ==> s == p.Total() && u == i == 0)
  {
    var t, all := p.Total(), p.AllTicks();
    forall part: nat | part <= all
      ensures WrappedShare(t, part, all) == Share(t, part, all)
    {
      assert t * part <= t * all by { MulMono(part, all, t); }
      ShareExactIff(t, part, all);
    }
    SharesConserve(t, p.uticks, p.SystemTicks(), p.iticks, all);
  }

  /** The same in the numbers of the process: without wrap-around each time is its ticks' part of the
      run time, rounded down, and a negative run time counts as none. */
  lemma SharesOfTicks(p: Proc)
    requires p.Valid()
    ensures var run, all := p.sec * 1000000 + p.usec, p.sticks + p.uticks + p.iticks;
            var t := if run < 0 then 0 else run;
            var u, s, i := WrappedShare(p.Total(), p.uticks, p.AllTicks()),
                           WrappedShare(p.Total(), p.SystemTicks(), p.AllTicks()),
                           WrappedShare(p.Total(), p.iticks, p.AllTicks());
            && (all == 0 ==> s == t && u == i == 0)
            && (0 < all < TWO64 && t * all < TWO64 ==>
                  u == t * p.uticks / all && s == t * p.sticks / all && i == t * p.iticks / all)
  {
    var t, all := p.Total(), p.sticks + p.uticks + p.iticks;
    if all == 0 {
      WholeShare(t);
    } else if all < TWO64 && t * all < TWO64 {
      PartOf(t, p.uticks, all);
      PartOf(t, p.sticks, all);
      PartOf(t, p.iticks, all);
    }
  }

  lemma WholeShare(t: nat)
    requires t < TWO64
    ensures WrappedShare(t, 1, 1) == t && WrappedShare(t, 0, 1) == 0
  {
  }

  lemma PartOf(t: nat, part: nat, all: nat)
    requires part <= all && 0 < all < TWO64 && t * all < TWO64
    ensures WrappedShare(t, part, all) == t * part / all
  {
    MulMono(part, all, t);
    ShareExactIff(t, part, all);
  }
}
