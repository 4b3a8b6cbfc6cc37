/** WRRLoadBlancer: weighted round robin over hosts. */
module WeightedRoundRobin {
  import opened Bits

  // ----- Greatest common divisor

  function Gcd(a: nat, b: nat): nat
    decreases b
  {
    if b == 0 then a else Gcd(b, a % b)
  }

  predicate Divides(d: nat, x: nat)
    requires d > 0
  {
    x % d == 0
  }

  lemma MultipleAdds(q: int, b: int, r: int, d: int)
    requires d > 0 && b % d == 0
    ensures (q * b + r) % d == r % d
  {
    var c := b / d;
    assert b == c * d;
    assert q * b + r == (q * c + r / d) * d + r % d by {
      assert q * (c * d) == (q * c) * d;
    }
    DivModUnique(q * b + r, d, q * c + r / d, r % d);
  }

  /** What the gcd is: its divisors are the common divisors. */
  lemma {:induction false} GcdDivisors(a: nat, b: nat, d: nat)
    requires d > 0
    ensures Divides(d, Gcd(a, b)) <==> Divides(d, a) && Divides(d, b)
    decreases b
  {
    if b > 0 {
      GcdDivisors(b, a % b, d);
      if Divides(d, b) {
        RemainderDivides(a, b, d);
      }
    }
  }

  lemma RemainderDivides(a: nat, b: nat, d: nat)
    requires b > 0 && d > 0 && b % d == 0
    ensures a % d == a % b % d
  {
    MultipleAdds(a / b, b, a % b, d);
  }

  ghost predicate IsGcd(g: nat, ws: seq<nat>) {
    forall d: nat :: d > 0 ==> (Divides(d, g) <==> forall i :: 0 <= i < |ws| ==> Divides(d, ws[i]))
  }

  function Max(a: nat, b: nat): nat { if a < b then b else a }
  function Min(a: nat, b: nat): nat { if a < b then a else b }

  /** get_max_weight_gcd. */
  method GetMaxWeightGcd(ws: seq<nat>) returns (res: nat)
    requires ws != []
    ensures IsGcd(res, ws)
  {
    res := ws[0];
    GcdOfOne(ws[0]);
    assert [ws[0]] + ws[..0] == [ws[0]];
    for i := 0 to |ws|
      invariant IsGcd(res, [ws[0]] + ws[..i])
    {
      ghost var was := res;
      var curMax, curMin := Max(res, ws[i]), Min(res, ws[i]);
      res := Gcd(curMax, curMin);
      GcdExtends(was, res, [ws[0]] + ws[..i], ws[i]);
      assert [ws[0]] + ws[..i] + [ws[i]] == [ws[0]] + ws[..i + 1];
    }
    GcdWithFirst(res, ws);
  }

  lemma GcdOfOne(w: nat)
    ensures IsGcd(w, [w])
  {
    forall d: nat | d > 0
      ensures Divides(d, w) <==> forall i :: 0 <= i < |[w]| ==> Divides(d, [w][i])
    {
      assert [w][0] == w;
    }
  }

  lemma GcdExtends(g: nat, next: nat, ws: seq<nat>, w: nat)
    requires IsGcd(g, ws) && next == Gcd(Max(g, w), Min(g, w))
    ensures IsGcd(next, ws + [w])
  {
    forall d: nat | d > 0
      ensures Divides(d, next) <==> forall i :: 0 <= i < |ws + [w]| ==> Divides(d, (ws + [w])[i])
    {
      GcdDivisors(Max(g, w), Min(g, w), d);
      assert Divides(d, g) <==> forall i :: 0 <= i < |ws| ==> Divides(d, ws[i]);
      var all := ws + [w];
      assert all[|ws|] == w;
      if Divides(d, next) {
        assert forall i :: 0 <= i < |all| ==> Divides(d, all[i]);
      } else if Divides(d, w) {
        var i :| 0 <= i < |ws| && !Divides(d, ws[i]);
        assert all[i] == ws[i];
      }
    }
  }

  lemma GcdWithFirst(g: nat, ws: seq<nat>)
    requires ws != [] && IsGcd(g, [ws[0]] + ws[..|ws|])
    ensures IsGcd(g, ws)
  {
    var all := [ws[0]] + ws[..|ws|];
    assert all[0] == ws[0];
    assert forall i :: 0 <= i < |ws| ==> all[i + 1] == ws[i];
    forall d: nat | d > 0
      ensures Divides(d, g) <==> forall i :: 0 <= i < |ws| ==> Divides(d, ws[i])
    {
      if forall i :: 0 <= i < |ws| ==> Divides(d, ws[i]) {
        assert forall j :: 0 <= j < |all| ==> all[j] == ws[if j == 0 then 0 else j - 1];
      }
    }
  }

  /** With a positive weight the gcd is positive and divides every weight. */
  lemma GcdPositive(g: nat, ws: seq<nat>)
    requires IsGcd(g, ws) && exists i :: 0 <= i < |ws| && ws[i] > 0
    ensures g > 0 && forall i :: 0 <= i < |ws| ==> Divides(g, ws[i])
  {
    var i :| 0 <= i < |ws| && ws[i] > 0;
    assert !Divides(ws[i] + 1, ws[i]);
    assert !Divides(ws[i] + 1, g);
    assert Divides(g, g);
  }

  // ----- The walk

  /** The weights in units of their common divisor g, and the levels between the
      maximum weight and zero. */
  datatype Setup = Setup(units: seq<nat>, g: nat, levels: nat)
  {
    function N(): nat { |units| }

    predicate Ok() {
      && g > 0 && levels > 0
      && (forall i :: 0 <= i < |units| ==> units[i] <= levels)
      && exists i :: 0 <= i < |units| && units[i] == levels
    }
  }

  /** The level of the p-th visit of a host, p counted from the start. */
  function LevelOf(s: Setup, p: nat): (l: nat)
    requires s.Ok()
    ensures l < s.levels
  {
    (p / s.N()) % s.levels
  }

  /** weight_current_ at the p-th visit. */
  function WeightAt(s: Setup, p: nat): int
    requires s.Ok()
  {
    (s.levels - LevelOf(s, p)) * s.g
  }

  lemma ProductsOrder(a: int, b: int, g: int)
    requires g > 0
    ensures a <= b <==> a * g <= b * g
  {
    if a > b {
      MulBound(a - b, g);
      assert (a - b) * g == a * g - b * g;
    } else if a < b {
      MulBound(b - a, g);
      assert (b - a) * g == b * g - a * g;
    }
  }

  /** A host is selected from the level on that its weight reaches. */
  predicate Reaches(s: Setup, level: nat, i: nat)
    requires i < s.N()
  {
    s.units[i] + level >= s.levels
  }

  /** Does the p-th visit select its host? */
  predicate Hit(s: Setup, p: nat)
    requires s.Ok()
  {
    Reaches(s, LevelOf(s, p), p % s.N())
  }

  /** The comparison in the loop: the host's weight against weight_current_. */
  lemma HitMeansWeight(s: Setup, p: nat)
    requires s.Ok()
    ensures Hit(s, p) <==> s.units[p % s.N()] * s.g >= WeightAt(s, p)
  {
    ProductsOrder(s.levels - LevelOf(s, p), s.units[p % s.N()], s.g);
  }

  /** Visit j of round b. */
  lemma VisitOf(s: Setup, b: nat, start: nat, j: nat)
    requires s.Ok() && j < s.N() && start == b * s.N()
    ensures (start + j) % s.N() == j && LevelOf(s, start + j) == b % s.levels
    ensures Hit(s, start + j) <==> Reaches(s, b % s.levels, j)
  {
    DivModUnique(start + j, s.N(), b, j);
  }

  // ----- Selections in a stretch of the walk

  /** How often visits lo..hi select host i. */
  function TimesIn(s: Setup, lo: nat, hi: nat, i: nat): nat
    requires s.Ok() && lo <= hi
  {
    if lo == hi then 0 else TimesIn(s, lo, hi - 1, i) + Picks(s, hi - 1, i)
  }

  function Picks(s: Setup, p: nat, i: nat): nat
    requires s.Ok()
  {
    if Hit(s, p) && p % s.N() == i then 1 else 0
  }

  lemma {:induction false} TimesConcat(s: Setup, lo: nat, mid: nat, hi: nat, i: nat)
    requires s.Ok() && lo <= mid <= hi
    ensures TimesIn(s, lo, mid, i) + TimesIn(s, mid, hi, i) == TimesIn(s, lo, hi, i)
    decreases hi
  {
    if mid < hi {
      TimesConcat(s, lo, mid, hi - 1, i);
    }
  }

  lemma PicksInRound(s: Setup, b: nat, start: nat, j: nat, i: nat)
    requires s.Ok() && j < s.N() && i < s.N() && start == b * s.N()
    ensures Picks(s, start + j, i) == if i == j && Reaches(s, b % s.levels, i) then 1 else 0
  {
    VisitOf(s, b, start, j);
  }

  /** Within a round each host is visited once, in order. */
  lemma {:induction false} RoundTimes(s: Setup, b: nat, start: nat, j: nat, i: nat)
    requires s.Ok() && j <= s.N() && i < s.N() && start == b * s.N()
    ensures TimesIn(s, start, start + j, i) == if i < j && Reaches(s, b % s.levels, i) then 1 else 0
  {
    if j > 0 {
      RoundTimes(s, b, start, j - 1, i);
      PicksInRound(s, b, start, j - 1, i);
    }
  }

  function Above(t: int): nat { if t > 0 then t else 0 }

  /** After t rounds of a period a host has been selected once for each level its
      weight reached. */
  lemma {:induction false} RoundsTimes(s: Setup, first: nat, start: nat, t: nat, end: nat, i: nat)
    requires s.Ok() && t <= s.levels && i < s.N()
    requires first % s.levels == 0 && start == first * s.N() && end == (first + t) * s.N()
    ensures start <= end
    ensures TimesIn(s, start, end, i) == Above(t - (s.levels - s.units[i]))
    decreases t
  {
    RoundStarts(first, t, s.N());
    if t > 0 {
      var b := first + (t - 1);
      var mid := b * s.N();
      RoundsTimes(s, first, start, t - 1, mid, i);
      RoundStarts(b, 1, s.N());
      LevelInPeriod(first, t - 1, s.levels);
      RoundTimes(s, b, mid, s.N(), i);
      TimesConcat(s, start, mid, end, i);
    }
  }

  lemma LevelInPeriod(first: nat, t: nat, levels: nat)
    requires t < levels && first % levels == 0
    ensures (first + t) % levels == t
  {
    DivModUnique(first + t, levels, first / levels, t);
  }

  lemma RoundStarts(base: int, t: int, n: int)
    requires t >= 0 && n >= 0
    ensures (base + t) * n == base * n + t * n && t * n >= 0
  {
  }

  /** Visits in a period. */
  function Period(s: Setup): nat { s.levels * s.N() }

  /** A whole period selects each host as often as its weight has units. */
  lemma PeriodTimes(s: Setup, k: nat, lo: nat, hi: nat, i: nat)
    requires s.Ok() && i < s.N() && lo == k * Period(s) && hi == (k + 1) * Period(s)
    ensures lo <= hi && TimesIn(s, lo, hi, i) == s.units[i]
  {
    var first := k * s.levels;
    DivModUnique(first, s.levels, k, 0);
    PeriodStarts(k, s.levels, s.N());
    RoundsTimes(s, first, lo, s.levels, hi, i);
  }

  lemma PeriodStarts(k: int, l: int, n: int)
    ensures k * l * n == k * (l * n) && (k * l + l) * n == (k + 1) * (l * n)
  {
    assert (k + 1) * l == k * l + l;
  }

  // ----- The selections of a run

  /** What one visit selects. */
  function Picked(s: Setup, p: nat): seq<nat>
    requires s.Ok()
  {
    if Hit(s, p) then [p % s.N()] else []
  }

  /** The hosts selected in the first visits, in order. */
  function Hosts(s: Setup, visits: nat): seq<nat>
    requires s.Ok()
  {
    if visits == 0 then [] else Hosts(s, visits - 1) + Picked(s, visits - 1)
  }

  function Times(hosts: seq<nat>, i: nat): nat {
    if hosts == [] then 0 else Times(hosts[..|hosts| - 1], i) + if hosts[|hosts| - 1] == i then 1 else 0
  }

  lemma TimesAppend(hosts: seq<nat>, host: nat, i: nat)
    ensures Times(hosts + [host], i) == Times(hosts, i) + if host == i then 1 else 0
  {
    assert (hosts + [host])[..|hosts|] == hosts;
  }

  /** Later visits only append. */
  lemma {:induction false} HostsGrow(s: Setup, lo: nat, hi: nat)
    requires s.Ok() && lo <= hi
    ensures |Hosts(s, lo)| <= |Hosts(s, hi)| && Hosts(s, hi)[..|Hosts(s, lo)|] == Hosts(s, lo)
    decreases hi
  {
    if lo < hi {
      HostsGrow(s, lo, hi - 1);
      assert Hosts(s, hi)[..|Hosts(s, lo)|] == Hosts(s, hi - 1)[..|Hosts(s, lo)|];
    }
  }

  lemma {:induction false} TimesAdds(a: seq<nat>, b: seq<nat>, i: nat)
    ensures Times(a + b, i) == Times(a, i) + Times(b, i)
    decreases |b|
  {
    if b == [] {
      assert a + b == a;
    } else {
      var n := |b| - 1;
      assert a + b == (a + b[..n]) + [b[n]] && b == b[..n] + [b[n]];
      TimesAppend(a + b[..n], b[n], i);
      TimesAppend(b[..n], b[n], i);
      TimesAdds(a, b[..n], i);
    }
  }

  lemma {:induction false} HostsCount(s: Setup, visits: nat, i: nat)
    requires s.Ok()
    ensures Times(Hosts(s, visits), i) == TimesIn(s, 0, visits, i)
  {
    if visits > 0 {
      HostsCount(s, visits - 1, i);
      TimesPicked(s, Hosts(s, visits - 1), visits - 1, i);
    }
  }

  lemma HostsTimes(s: Setup, lo: nat, hi: nat, n: nat, i: nat)
    requires s.Ok() && lo <= hi && n == |Hosts(s, lo)|
    ensures n <= |Hosts(s, hi)| && Times(Hosts(s, hi)[n..], i) == TimesIn(s, lo, hi, i)
  {
    HostsGrow(s, lo, hi);
    HostsCount(s, lo, i);
    HostsCount(s, hi, i);
    TimesConcat(s, 0, lo, hi, i);
    TimesOfRest(Hosts(s, hi), Hosts(s, lo), n, i);
  }

  lemma TimesOfRest(all: seq<nat>, first: seq<nat>, n: nat, i: nat)
    requires n == |first| <= |all| && all[..n] == first
    ensures Times(all[n..], i) == Times(all, i) - Times(first, i)
  {
    assert all == first + all[n..];
    TimesAdds(first, all[n..], i);
  }

  lemma TimesPicked(s: Setup, hosts: seq<nat>, p: nat, i: nat)
    requires s.Ok()
    ensures Times(hosts + Picked(s, p), i) == Times(hosts, i) + Picks(s, p, i)
  {
    if Hit(s, p) {
      TimesAppend(hosts, p % s.N(), i);
    } else {
      assert hosts + [] == hosts;
    }
  }

  // ----- How long a period is, in selections

  function Sum(xs: seq<nat>): nat {
    if xs == [] then 0 else Sum(xs[..|xs| - 1]) + xs[|xs| - 1]
  }

  /** Selections of the first n hosts at visits lo..hi. */
  function AllTimes(s: Setup, lo: nat, hi: nat, n: nat): nat
    requires s.Ok() && lo <= hi
  {
    if n == 0 then 0 else AllTimes(s, lo, hi, n - 1) + TimesIn(s, lo, hi, n - 1)
  }

  lemma {:induction false} AllTimesNone(s: Setup, lo: nat, n: nat)
    requires s.Ok()
    ensures AllTimes(s, lo, lo, n) == 0
  {
    if n > 0 {
      AllTimesNone(s, lo, n - 1);
    }
  }

  lemma {:induction false} AllTimesStep(s: Setup, lo: nat, hi: nat, n: nat)
    requires s.Ok() && lo < hi
    ensures AllTimes(s, lo, hi, n) == AllTimes(s, lo, hi - 1, n) + if Hit(s, hi - 1)
            && (hi - 1) % s.N() < n then 1 else 0
  {
    if n > 0 {
      AllTimesStep(s, lo, hi, n - 1);
    }
  }

  lemma {:induction false} HostsLength(s: Setup, lo: nat, hi: nat)
    requires s.Ok() && lo <= hi
    ensures |Hosts(s, hi)| == |Hosts(s, lo)| + AllTimes(s, lo, hi, s.N())
    decreases hi
  {
    if lo == hi {
      AllTimesNone(s, lo, s.N());
    } else {
      HostsLength(s, lo, hi - 1);
      AllTimesStep(s, lo, hi, s.N());
    }
  }

  lemma {:induction false} PeriodTotal(s: Setup, k: nat, lo: nat, hi: nat, n: nat)
    requires s.Ok() && n <= s.N() && lo == k * Period(s) && hi == (k + 1) * Period(s)
    ensures lo <= hi && AllTimes(s, lo, hi, n) == Sum(s.units[..n])
    decreases n
  {
    PeriodTimes(s, k, lo, hi, 0);
    if n > 0 {
      PeriodTotal(s, k, lo, hi, n - 1);
      PeriodTimes(s, k, lo, hi, n - 1);
      assert s.units[..n][..n - 1] == s.units[..n - 1];
    }
  }

  /** k periods make k times the sum of the units in selections. */
  lemma {:induction false} PeriodsLength(s: Setup, k: nat, visits: nat)
    requires s.Ok() && visits == k * Period(s)
    ensures |Hosts(s, visits)| == k * Sum(s.units)
    decreases k
  {
    if k > 0 {
      NextMultiple(k, Period(s));
      NextMultiple(k, Sum(s.units));
      var before := (k - 1) * Period(s);
      PeriodsLength(s, k - 1, before);
      PeriodTotal(s, k - 1, before, visits, s.N());
      HostsLength(s, before, visits);
      assert s.units[..s.N()] == s.units;
    }
  }

  lemma NextMultiple(k: int, x: int)
    ensures k * x == (k - 1) * x + x
  {
  }

  /** Every period of selections from the start picks host i exactly as often as
      its weight has units, whatever visits the run has made. */
  lemma PeriodIsFair(s: Setup, visits: nat, k: nat, from: nat, to: nat, i: nat)
    requires s.Ok() && i < s.N()
    requires from == k * Sum(s.units) && to == (k + 1) * Sum(s.units) && to <= |Hosts(s, visits)|
    ensures from <= to && Times(Hosts(s, visits)[from..to], i) == s.units[i]
  {
    NonNegative(k, Period(s));
    NonNegative(k + 1, Period(s));
    FairStretch(s, visits, k, k * Period(s), (k + 1) * Period(s), from, to, i);
  }

  lemma NonNegative(k: int, x: int)
    requires k >= 0 && x >= 0
    ensures k * x >= 0
  {
  }

  lemma FairStretch(s: Setup, visits: nat, k: nat, lo: nat, hi: nat, from: nat, to: nat, i: nat)
    requires s.Ok() && i < s.N() && lo == k * Period(s) && hi == (k + 1) * Period(s)
    requires from == k * Sum(s.units) && to == (k + 1) * Sum(s.units) && to <= |Hosts(s, visits)|
    ensures from <= to && Times(Hosts(s, visits)[from..to], i) == s.units[i]
  {
    PeriodsLength(s, k, lo);
    PeriodsLength(s, k + 1, hi);
    PeriodTimes(s, k, lo, hi, i);
    StretchTimes(s, visits, lo, hi, i);
  }

  /** The selections of visits lo..hi, found in the log of a run. */
  lemma StretchTimes(s: Setup, visits: nat, lo: nat, hi: nat, i: nat)
    requires s.Ok() && lo <= hi && |Hosts(s, hi)| <= |Hosts(s, visits)|
    ensures |Hosts(s, lo)| <= |Hosts(s, hi)|
    ensures Times(Hosts(s, visits)[|Hosts(s, lo)|..|Hosts(s, hi)|], i) == TimesIn(s, lo, hi, i)
  {
    HostsTimes(s, lo, hi, |Hosts(s, lo)|, i);
    FirstPeriods(s, visits, hi);
    var log, first := Hosts(s, visits), Hosts(s, hi);
    assert log[|Hosts(s, lo)|..|first|] == log[..|first|][|Hosts(s, lo)|..];
  }

  lemma FirstPeriods(s: Setup, visits: nat, hi: nat)
    requires s.Ok() && |Hosts(s, hi)| <= |Hosts(s, visits)|
    ensures Hosts(s, visits)[..|Hosts(s, hi)|] == Hosts(s, hi)
  {
    if hi <= visits {
      HostsGrow(s, hi, visits);
    } else {
      HostsGrow(s, visits, hi);
    }
  }

  // ----- One visit after another

  lemma NextVisit(s: Setup, p: nat)
    requires s.Ok()
    ensures (p + 1) % s.N() == if p % s.N() + 1 == s.N() then 0 else p % s.N() + 1
    ensures (p + 1) % s.N() != 0 ==> WeightAt(s, p + 1) == WeightAt(s, p)
    ensures (p + 1) % s.N() == 0 ==>
      WeightAt(s, p + 1) == if WeightAt(s, p) - s.g <= 0 then s.levels * s.g else WeightAt(s, p) - s.g
  {
    NextResidue(p, s.N());
    if p % s.N() + 1 == s.N() {
      NextResidue(p / s.N(), s.levels);
      NextLevel(s.levels, LevelOf(s, p), s.g);
    }
  }

  lemma NextLevel(levels: nat, l: nat, g: nat)
    requires l < levels && g > 0
    ensures (levels - l) * g - g == (levels - l - 1) * g
    ensures (levels - l - 1) * g <= 0 <==> l + 1 == levels
  {
    ProductsOrder(levels - l - 1, 0, g);
  }

  lemma NextResidue(q: nat, d: nat)
    requires d > 0
    ensures (q + 1) % d == if q % d + 1 == d then 0 else q % d + 1
    ensures (q + 1) / d == if q % d + 1 == d then q / d + 1 else q / d
  {
    if q % d + 1 == d {
      DivModUnique(q + 1, d, q / d + 1, 0);
    } else {
      DivModUnique(q + 1, d, q / d, q % d + 1);
    }
  }

  lemma FirstVisit(s: Setup)
    requires s.Ok()
    ensures 0 % s.N() == 0 && WeightAt(s, 0) == s.levels * s.g
  {
    DivModUnique(0, s.N(), 0, 0);
    DivModUnique(0, s.levels, 0, 0);
  }

  /** A heaviest host is selected at the start of every period, so the walk
      always comes to a selection. */
  lemma SomeHitAhead(s: Setup, p: nat) returns (h: nat)
    requires s.Ok()
    ensures h >= p && Hit(s, h)
  {
    var i :| 0 <= i < |s.units| && s.units[i] == s.levels;
    var start := p * s.levels * s.N();
    VisitOf(s, p * s.levels, start, i);
    DivModUnique(p * s.levels, s.levels, p, 0);
    h := start + i;
    MulBound(s.levels, p + 1);
    FarEnough(p, s.levels, s.N());
  }

  lemma FarEnough(p: nat, l: nat, n: nat)
    requires l >= 1 && n >= 1
    ensures p * l * n >= p
  {
    assert p * l >= p;
    assert (p * l) * n >= p * l;
  }

  // ----- The class

  function InUnits(ws: seq<nat>, g: nat): (units: seq<nat>)
    requires g > 0
    ensures |units| == |ws|
  {
    seq(|ws|, i requires 0 <= i < |ws| => ws[i] / g)
  }

  /** A divisor of all weights gives a setup with the same weights. */
  lemma SetupOk(ws: seq<nat>, g: nat, m: nat)
    requires IsGcd(g, ws) && m > 0 && (forall i :: 0 <= i < |ws| ==> ws[i] <= m)
    requires exists i :: 0 <= i < |ws| && ws[i] == m
    ensures g > 0
    ensures var s := Setup(InUnits(ws, g), g, m / g);
            s.Ok() && m == s.levels * g && forall i :: 0 <= i < |ws| ==> ws[i] == s.units[i] * g
  {
    GcdPositive(g, ws);
    var top :| 0 <= top < |ws| && ws[top] == m;
    var s := Setup(InUnits(ws, g), g, m / g);
    assert Divides(g, ws[top]);
    forall i | 0 <= i < |ws|
      ensures s.units[i] <= s.levels && ws[i] == s.units[i] * g
    {
      assert Divides(g, ws[i]);
      ProductsOrder(s.units[i], s.levels, g);
    }
    assert s.units[top] == s.levels;
    ProductsOrder(1, s.levels, g);
    assert s.levels > 0;
  }

  lemma {:induction false} SumInUnits(ws: seq<nat>, units: seq<nat>, g: nat)
    requires |units| == |ws| && forall i :: 0 <= i < |ws| ==> ws[i] == units[i] * g
    ensures Sum(ws) == Sum(units) * g
  {
    if ws != [] {
      var n := |ws| - 1;
      SumInUnits(ws[..n], units[..n], g);
      assert (Sum(units[..n]) + units[n]) * g == Sum(units[..n]) * g + units[n] * g;
    }
  }

  /** Weighted fairness: of the selections of any run, each period of sum(w) / gcd
      from the start holds host i exactly w_i / gcd times. */
  lemma EveryPeriodIsFair(ws: seq<nat>, g: nat, m: nat, visits: nat, k: nat, from: nat, to: nat, i: nat)
    requires IsGcd(g, ws) && m > 0 && (forall j :: 0 <= j < |ws| ==> ws[j] <= m)
    requires (exists j :: 0 <= j < |ws| && ws[j] == m) && i < |ws|
    ensures g > 0 && Setup(InUnits(ws, g), g, m / g).Ok()
    ensures var log := Hosts(Setup(InUnits(ws, g), g, m / g), visits);
            from == k * (Sum(ws) / g) && to == (k + 1) * (Sum(ws) / g) && to <= |log| ==>
              from <= to && Times(log[from..to], i) == ws[i] / g
  {
    SetupOk(ws, g, m);
    var s := Setup(InUnits(ws, g), g, m / g);
    SumInUnits(ws, s.units, g);
    DivModUnique(Sum(ws), g, Sum(s.units), 0);
    if from == k * (Sum(ws) / g) && to == (k + 1) * (Sum(ws) / g) && to <= |Hosts(s, visits)| {
      PeriodIsFair(s, visits, k, from, to, i);
    }
  }

  lemma GcdOfZeros(g: nat, ws: seq<nat>)
    requires IsGcd(g, ws) && forall i :: 0 <= i < |ws| ==> ws[i] == 0
    ensures g == 0
  {
    assert forall i :: 0 <= i < |ws| ==> Divides(g + 1, ws[i]);
    assert Divides(g + 1, g);
  }

  /** wrr_current_ and weight_current_ after a number of visits. */
  predicate AtVisit(s: Setup, visits: nat, current: int, weight: int)
    requires s.Ok()
  {
    && (visits == 0 ==> current == -1 && weight == 0)
    && (visits > 0 ==> current == (visits - 1) % s.N() && weight == WeightAt(s, visits - 1))
  }

  lemma Advance(s: Setup, visits: nat, current: int, weight: int)
    requires s.Ok() && AtVisit(s, visits, current, weight) && -1 <= current < s.N()
    ensures var c := (current + 1) % s.N();
            AtVisit(s, visits + 1, c, if c != 0 then weight else if weight - s.g <= 0 then s.levels * s.g
              else weight - s.g)
  {
    if visits == 0 {
      FirstVisit(s);
    } else {
      NextVisit(s, visits - 1);
      StepModulo(current, s.N());
    }
  }

  lemma StepModulo(c: nat, n: nat)
    requires c < n
    ensures (c + 1) % n == if c + 1 == n then 0 else c + 1
  {
    if c + 1 == n {
      DivModUnique(c + 1, n, 1, 0);
    } else {
      DivModUnique(c + 1, n, 0, c + 1);
    }
  }

  class LoadBalancer {
    const weights: seq<nat>
    const gcd: nat
    const maxWeight: nat
    var current: int
    var weight: int
    ghost var visits: nat
    ghost var log: seq<nat>

    ghost function Walk(): Setup
      requires gcd > 0
    {
      Setup(InUnits(weights, gcd), gcd, maxWeight / gcd)
    }

    /** The weights as the constructor left them. */
    ghost predicate Weighed() {
      && weights != [] && IsGcd(gcd, weights)
      && (forall i :: 0 <= i < |weights| ==> weights[i] <= maxWeight)
      && exists i :: 0 <= i < |weights| && weights[i] == maxWeight
    }

    /** The fields are those of the last visit of the walk, and the log is what
        the walk selected. */
    ghost predicate OnWalk()
      requires gcd > 0
      reads this
    {
      var s := Walk();
      && s.Ok() && maxWeight == s.levels * gcd && (forall i :: 0 <= i < |weights| ==> weights[i] == s.units[i] * gcd)
      && AtVisit(s, visits, current, weight)
      && log == Hosts(s, visits)
    }

    ghost predicate Valid()
      reads this
    {
      && Weighed() && -1 <= current < |weights|
      && (maxWeight > 0 ==> gcd > 0 && OnWalk())
      && (maxWeight == 0 ==> gcd == 0 && weight == 0)
    }

    constructor (ws: seq<nat>)
      requires ws != []
      ensures weights == ws && Valid() && log == []
    {
      weights := ws;
      var g := GetMaxWeightGcd(ws);
      var m := GetMaxWeight(ws);
      gcd, maxWeight := g, m;
      current, weight, visits, log := -1, 0, 0, [];
      if m > 0 {
        SetupOk(ws, g, m);
      } else {
        GcdOfZeros(g, ws);
      }
    }

    /** One turn of the loop: the next host, at the next level when a round is over. */
    method Visit() returns (done: bool, host: int)
      requires Valid()
      modifies this
      ensures Valid() && (done ==> -1 <= host < |weights| && current == (if host == -1 then 0 else host))
      ensures maxWeight > 0 ==> visits == old(visits) + 1 && (!done ==> !Hit(Walk(), old(visits)))
      ensures maxWeight > 0 ==> 0 <= current && (done ==> host >= 0)
      ensures maxWeight > 0 ==> current >= 0 && log == if done then old(log) + [current] else old(log)
      ensures maxWeight == 0 ==> done && current == (old(current) + 1) % |weights|
    {
      if maxWeight > 0 {
        Advance(Walk(), visits, current, weight);
        HitMeansWeight(Walk(), visits);
      }
      current := (current + 1) % |weights|;
      if current == 0 {
        weight := weight - gcd;
        if weight <= 0 {
          weight := maxWeight;
          if weight == 0 {
            return true, -1;
          }
        }
      }
      visits := visits + 1;
      done, host := weights[current] >= weight, current;
      if done {
        log := log + [current];
      }
    }

    /** select_host_with_weight_round_robin: walk on to the next visit that
        selects; -1 only when all weights are zero. */
    method SelectHost() returns (host: int)
      requires Valid()
      modifies this
      ensures Valid() && -1 <= host < |weights| && current == (if host == -1 then 0 else host)
      ensures maxWeight > 0 ==> host >= 0 && log == old(log) + [host]
      ensures maxWeight == 0 ==> current == (old(current) + 1) % |weights|
    {
      ghost var h := visits;
      if maxWeight > 0 {
        h := SomeHitAhead(Walk(), visits);
      }
      while true
        invariant Valid() && (maxWeight == 0 ==> current == old(current))
        invariant maxWeight > 0 ==> log == old(log) && visits <= h
        decreases h - visits
      {
        var done;
        done, host := Visit();
        if done {
          return;
        }
      }
    }

    /** operator(): the index of the chosen pool. */
    method Select() returns (selected: nat)
      requires Valid()
      modifies this
      ensures Valid() && selected < |weights|
      ensures maxWeight > 0 ==> log == old(log) + [selected]
      ensures maxWeight == 0 ==> selected == (old(current) + 1) % |weights|
    {
      var host := SelectHost();
      selected := if host == -1 then 0 else host;
      current := selected;
    }
  }

  /** get_max_weight. */
  method GetMaxWeight(ws: seq<nat>) returns (m: nat)
    requires ws != []
    ensures (forall i :: 0 <= i < |ws| ==> ws[i] <= m) && exists i :: 0 <= i < |ws| && ws[i] == m
  {
    m := ws[0];
    for i := 0 to |ws|
      invariant forall j :: 0 <= j < i ==> ws[j] <= m
      invariant exists j :: 0 <= j < |ws| && ws[j] == m
    {
      if m < ws[i] {
        m := ws[i];
      }
    }
  }
}
