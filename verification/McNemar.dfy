/** The exact two-sided test for paired wins, over exact integers and reals, against the enumeration of all outcomes
    of fair coins. */
module McNemar {
  import opened Text

  /** Binomial coefficients by Pascal's rule. */
  function Comb(n: nat, k: nat): nat {
    if k == 0 then 1 else if n == 0 then 0 else Comb(n - 1, k - 1) + Comb(n - 1, k)
  }

  /** The coefficients up to and including `t`. */
  function Tail(n: nat, t: int): nat
    decreases t
  {
    if t < 0 then 0 else Tail(n, t - 1) + Comb(n, t)
  }

  function Power(n: nat): (r: nat)
    ensures r > 0
  {
    if n == 0 then 1 else 2 * Power(n - 1)
  }

  function Min(a: int, b: int): int { if a <= b then a else b }

  function Abs(x: int): nat { if x < 0 then -x else x }

  /** `2 * tail / 2 ** discordant` */
  function Doubled(onlyFirst: nat, onlySecond: nat): real {
    (2 * Tail(onlyFirst + onlySecond, Min(onlyFirst, onlySecond))) as real / Power(onlyFirst + onlySecond) as real
  }

  /** The p value, or nothing for a negative count. */
  function McNemarExact(onlyFirst: int, onlySecond: int): Option<real> {
    if onlyFirst < 0 || onlySecond < 0 then None
    else if onlyFirst + onlySecond == 0 then Some(1.0)
    else Some(if Doubled(onlyFirst, onlySecond) <= 1.0 then Doubled(onlyFirst, onlySecond) else 1.0)
  }

  predicate Separates(onlyFirst: nat, onlySecond: nat) {
    McNemarExact(onlyFirst, onlySecond).value < 0.05
  }

  // ----- Fair coins -----

  /** Of all ways that `n` coins can fall, each moving the lead by one, how many end with a lead of at least `gap` on
      either side. */
  function Walks(n: nat, lead: int, gap: nat): nat {
    if n == 0 then (if Abs(lead) >= gap then 1 else 0) else Walks(n - 1, lead + 1, gap) + Walks(n - 1, lead - 1, gap)
  }

  /** How many have at most `t` heads. */
  function AtMost(n: nat, t: int): nat {
    if n == 0 then (if t >= 0 then 1 else 0) else AtMost(n - 1, t - 1) + AtMost(n - 1, t)
  }

  /** The chance that a fair coin splits the disagreements at least as unevenly as they fell. */
  function Chance(onlyFirst: nat, onlySecond: nat): real {
    var n := onlyFirst + onlySecond;
    Walks(n, 0, Abs(onlyFirst - onlySecond)) as real / Power(n) as real
  }

  /** Pascal's rule sums up. */
  lemma {:induction false} TailStep(n: nat, t: int)
    requires n > 0
    ensures Tail(n, t) == Tail(n - 1, t - 1) + Tail(n - 1, t)
    decreases t
  {
    if t > 0 { TailStep(n, t - 1); }
  }

  /** The sum of coefficients counts falls of coins. */
  lemma {:induction false} TailCounts(n: nat, t: int)
    ensures Tail(n, t) == AtMost(n, t)
    decreases n, t
  {
    if n > 0 {
      TailStep(n, t);
      TailCounts(n - 1, t - 1);
      TailCounts(n - 1, t);
    } else if t > 0 {
      TailCounts(n, t - 1);
    }
  }

  /** A lead on one side is a shortage of heads, on the other a shortage of tails. */
  lemma {:induction false} LeadsAreShortages(n: nat, lead: int, gap: nat)
    requires gap > 0
    ensures Walks(n, lead, gap) == AtMost(n, (n - gap - lead) / 2) + AtMost(n, (n - gap + lead) / 2)
  {
    if n > 0 {
      LeadsAreShortages(n - 1, lead + 1, gap);
      LeadsAreShortages(n - 1, lead - 1, gap);
      assert (n - gap - lead) / 2 - 1 == (n - gap - lead - 2) / 2;
      assert (n - gap + lead) / 2 - 1 == (n - gap + lead - 2) / 2;
    }
  }

  /** Few heads or few tails: every fall is one of them. */
  lemma {:induction false} Complement(n: nat, t: int)
    ensures AtMost(n, t) + AtMost(n, n - t - 1) == Power(n)
  {
    if n > 0 {
      Complement(n - 1, t);
      Complement(n - 1, t - 1);
    }
  }

  lemma {:induction false} WalksBound(n: nat, lead: int, gap: nat)
    ensures Walks(n, lead, gap) <= Power(n) && (gap == 0 ==> Walks(n, lead, gap) == Power(n))
  {
    if n > 0 {
      WalksBound(n - 1, lead + 1, gap);
      WalksBound(n - 1, lead - 1, gap);
    }
  }

  lemma {:induction false} CombPositive(n: nat, k: nat)
    ensures Comb(n, k) > 0 <==> k <= n
  {
    if k > 0 && n > 0 {
      CombPositive(n - 1, k - 1);
      CombPositive(n - 1, k);
    }
  }

  function Factorial(n: nat): nat {
    if n == 0 then 1 else n * Factorial(n - 1)
  }

  /** The coefficients are the quotients of factorials that the library function computes. */
  lemma {:induction false} CombIsQuotient(n: nat, k: nat)
    requires k <= n
    ensures Comb(n, k) * (Factorial(k) * Factorial(n - k)) == Factorial(n)
  {
    if 0 < k {
      var a, b := Comb(n - 1, k - 1), Comb(n - 1, k);
      var f, g := Factorial(k - 1), Factorial(n - k);
      CombIsQuotient(n - 1, k - 1);
      if k == n {
        CombPositive(n - 1, k);
        assert b == 0;
        Rearrange(a, 0, f, 1, k, 0, Factorial(n - 1));
      } else {
        CombIsQuotient(n - 1, k);
        Rearrange(a, b, f, Factorial(n - k - 1), k, n - k, Factorial(n - 1));
      }
    }
  }

  lemma Rearrange(a: nat, b: nat, f: nat, h: nat, k: nat, m: nat, total: nat)
    requires a * (f * (if m == 0 then 1 else m * h)) == total
    requires m > 0 ==> b * ((k * f) * h) == total
    requires m == 0 ==> b == 0
    ensures (a + b) * ((k * f) * (if m == 0 then 1 else m * h)) == (k + m) * total
  {
    var g := if m == 0 then 1 else m * h;
    calc {
      (a + b) * ((k * f) * g);
      a * ((k * f) * g) + b * ((k * f) * g);
      { assert a * ((k * f) * g) == k * (a * (f * g)); }
      k * total + b * ((k * f) * g);
      { if m > 0 { assert b * ((k * f) * (m * h)) == m * (b * ((k * f) * h)); } }
      k * total + m * total;
    }
  }

  // ----- The test -----

  /** Unless the counts are equal, twice the lower tail counts exactly the falls that are as uneven. */
  lemma TwiceTail(onlyFirst: nat, onlySecond: nat)
    ensures var n := onlyFirst + onlySecond; var twice := 2 * Tail(n, Min(onlyFirst, onlySecond));
            && (onlyFirst != onlySecond ==> twice == Walks(n, 0, Abs(onlyFirst - onlySecond)) <= Power(n))
            && (onlyFirst == onlySecond ==> twice == Power(n) + Comb(n, onlyFirst))
  {
    var n, m := onlyFirst + onlySecond, Min(onlyFirst, onlySecond);
    TailCounts(n, m);
    if onlyFirst != onlySecond {
      LeadsAreShortages(n, 0, Abs(onlyFirst - onlySecond));
      WalksBound(n, 0, Abs(onlyFirst - onlySecond));
    } else {
      Complement(n, m);
      TailCounts(n, m - 1);
    }
  }

  lemma Ratio(a: nat, b: nat, whole: nat)
    requires whole > 0
    ensures a as real / whole as real <= b as real / whole as real <==> a <= b
    ensures whole as real / whole as real == 1.0
  {
    if a <= b {
      assert a as real / whole as real <= b as real / whole as real;
    } else {
      assert a as real / whole as real > b as real / whole as real;
    }
  }

  /** For all counts the p value is the exact two-sided chance, and it lies in (0, 1]. */
  lemma PIsChance(onlyFirst: nat, onlySecond: nat)
    ensures McNemarExact(onlyFirst, onlySecond) == Some(Chance(onlyFirst, onlySecond))
    ensures 0.0 < Chance(onlyFirst, onlySecond) <= 1.0
  {
    var n := onlyFirst + onlySecond;
    var twice := 2 * Tail(n, Min(onlyFirst, onlySecond));
    TwiceTail(onlyFirst, onlySecond);
    Ratio(twice, Power(n), Power(n));
    WalksBound(n, 0, Abs(onlyFirst - onlySecond));
    TailPositive(n, Min(onlyFirst, onlySecond));
  }

  lemma {:induction false} TailPositive(n: nat, t: nat)
    ensures Tail(n, t) >= 1
  {
    if t > 0 { TailPositive(n, t - 1); }
  }

  /** The minimum with one changes the result exactly for two equal counts other than zero. */
  lemma ClampActsOnTies(onlyFirst: nat, onlySecond: nat)
    ensures Doubled(onlyFirst, onlySecond) > 1.0 <==> onlyFirst == onlySecond
    ensures onlyFirst + onlySecond > 0 ==>
      (McNemarExact(onlyFirst, onlySecond) != Some(Doubled(onlyFirst, onlySecond)) <==> onlyFirst == onlySecond)
  {
    var n := onlyFirst + onlySecond;
    TwiceTail(onlyFirst, onlySecond);
    CombPositive(n, onlyFirst);
    Ratio(2 * Tail(n, Min(onlyFirst, onlySecond)), Power(n), Power(n));
  }

  /** A negative count is refused, and the order of the two systems does not matter. */
  lemma SymmetricOrRefused(onlyFirst: int, onlySecond: int)
    ensures McNemarExact(onlyFirst, onlySecond).None? <==> onlyFirst < 0 || onlySecond < 0
    ensures McNemarExact(onlyFirst, onlySecond) == McNemarExact(onlySecond, onlyFirst)
  {
    assert Min(onlyFirst, onlySecond) == Min(onlySecond, onlyFirst);
  }

  // ----- Monotonicity -----

  function PValue(onlyFirst: nat, onlySecond: nat): real {
    McNemarExact(onlyFirst, onlySecond).value
  }

  lemma POfUnequal(few: nat, many: nat)
    requires few < many
    ensures PValue(few, many) == (2 * Tail(few + many, few)) as real / Power(few + many) as real
  {
    hide Tail, Walks, Power, McNemarExact;
    PIsChance(few, many);
    TwiceTail(few, many);
    assert Min(few, many) == few;
  }

  lemma POfTie(few: nat)
    ensures PValue(few, few) == 1.0 && PValue(few, few + 1) == 1.0
  {
    hide Tail, Walks, Power, McNemarExact;
    PIsChance(few, few);
    WalksBound(2 * few, 0, 0);
    Ratio(0, 0, Power(2 * few));
    POfUnequal(few, few + 1);
    TailCounts(2 * few + 1, few);
    Complement(2 * few + 1, few);
    Ratio(0, 0, Power(2 * few + 1));
  }

  /** One more win for the side that is not behind: the p value falls, except that it stays one when a tie is broken. */
  lemma OneMoreWin(few: nat, many: nat)
    requires few <= many
    ensures if few < many then PValue(few, many + 1) < PValue(few, many)
            else PValue(few, many + 1) == PValue(few, many) == 1.0
  {
    hide McNemarExact, Tail;
    if few == many {
      POfTie(few);
    } else {
      var n := few + many;
      POfUnequal(few, many);
      POfUnequal(few, many + 1);
      TailStep(n + 1, few);
      TailGrows(n, few - 1, few);
      Halves(2 * Tail(n + 1, few), 2 * Tail(n, few), Power(n));
    }
  }

  lemma Halves(a: nat, b: nat, whole: nat)
    requires whole > 0 && a < 2 * b
    ensures a as real / (2 * whole) as real < b as real / whole as real
  {
    assert (2 * whole) as real == 2.0 * whole as real;
    assert a as real < 2.0 * b as real;
    assert a as real / (2.0 * whole as real) == (a as real / 2.0) / whole as real;
  }

  /** With one count fixed the p value never rises as the larger one grows. */
  lemma {:induction false} LargerCountLowersP(few: nat, many: nat, more: nat)
    requires few <= many <= more
    ensures PValue(few, more) <= PValue(few, many)
    decreases more
  {
    if many < more {
      LargerCountLowersP(few, many, more - 1);
      OneMoreWin(few, more - 1);
    }
  }

  /** Of the same number of disagreements a more uneven split has a strictly smaller p value. */
  lemma WiderGapLowersP(few: nat, many: nat, shift: nat)
    requires few <= many && 0 < shift <= few
    ensures PValue(few - shift, many + shift) < PValue(few, many)
  {
    hide McNemarExact, Tail, Power;
    var n := few + many;
    POfUnequal(few - shift, many + shift);
    TailGrows(n, few - shift, few);
    if few < many {
      POfUnequal(few, many);
      Ratio(2 * Tail(n, few), 2 * Tail(n, few - shift), Power(n));
    } else {
      POfTie(few);
      Complement(n, few);
      TailCounts(n, few);
      TailCounts(n, few - 1);
      TailGrows(n, few - 1, few);
      if shift > 1 { TailGrows(n, few - shift, few - 1); }
      Ratio(Power(n), 2 * Tail(n, few - shift), Power(n));
    }
  }

  lemma {:induction false} TailGrows(n: nat, s: int, t: nat)
    requires -1 <= s < t <= n
    ensures Tail(n, s) + Comb(n, t) <= Tail(n, t) && Tail(n, s) < Tail(n, t)
  {
    CombPositive(n, t);
    if s + 1 < t { TailGrows(n, s, t - 1); }
  }

  /** No split of fewer than six disagreements separates two systems, and of six or more the most uneven one does. */
  lemma SixDisagreements(onlyFirst: nat, onlySecond: nat)
    ensures Separates(onlyFirst, onlySecond) ==> onlyFirst + onlySecond >= 6
    ensures Separates(0, onlyFirst) <==> onlyFirst >= 6
  {
    LeastP(onlyFirst, onlySecond);
    SweepP(onlyFirst);
  }

  lemma {:induction false} PowerGrows(n: nat, m: nat)
    requires n <= m
    ensures Power(n) <= Power(m)
  {
    if n < m { PowerGrows(n, m - 1); }
  }

  lemma LeastP(onlyFirst: nat, onlySecond: nat)
    ensures onlyFirst + onlySecond <= 5 ==> PValue(onlyFirst, onlySecond) >= 0.0625
  {
    var n := onlyFirst + onlySecond;
    TailPositive(n, Min(onlyFirst, onlySecond));
    if n <= 5 {
      PowerGrows(n, 5);
      assert Power(5) == 32;
      AtLeast((2 * Tail(n, Min(onlyFirst, onlySecond))), Power(n));
    }
  }

  lemma AtLeast(a: nat, whole: nat)
    requires a >= 2 && 0 < whole <= 32
    ensures a as real / whole as real >= 0.0625
  {
    assert a as real >= 0.0625 * whole as real;
  }

  lemma SweepP(n: nat)
    ensures n >= 6 ==> PValue(0, n) < 0.05
    ensures n <= 5 ==> PValue(0, n) >= 0.05
  {
    LeastP(0, n);
    if n >= 6 {
      PowerGrows(6, n);
      assert Power(6) == 64;
      assert Tail(n, 0) == 1;
      assert 2.0 / Power(n) as real < 0.05 by { assert 2.0 < 0.05 * Power(n) as real; }
    }
  }
}
