/** The heights skip links lead to, and how many links a walk to an ancestor takes. */
module SkipHeights {
  import opened Bits

  /** n & (n - 1). */
  function InvertLowestOne(n: nat): nat {
    if n == 0 then 0 else And(n, n - 1)
  }

  function GetSkipHeight(height: nat): nat {
    if height < 2 then 0
    else if height % 2 == 1 then InvertLowestOne(InvertLowestOne(height - 1)) + 1
    else InvertLowestOne(height)
  }

  /** The largest power of two that divides a number. */
  function LowestOne(n: nat): (p: nat)
    requires n > 0
    ensures 0 < p <= n
  {
    if n % 2 == 1 then 1 else 2 * LowestOne(n / 2)
  }

  lemma {:induction false} LowestOneCleared(n: nat)
    requires n > 0
    ensures InvertLowestOne(n) == n - LowestOne(n)
  {
    if n % 2 == 1 {
      AndSame(n / 2);
      assert (n - 1) / 2 == n / 2;
    } else {
      LowestOneCleared(n / 2);
      assert (n - 1) / 2 == n / 2 - 1;
    }
  }

  lemma {:induction false} AndSame(n: nat)
    ensures And(n, n) == n
  {
    if n > 0 {
      AndSame(n / 2);
    }
  }

  /** A number without its lowest one bit. */
  function Clear(n: nat): (c: nat)
    ensures n > 0 ==> c < n
  {
    if n == 0 then 0 else n - LowestOne(n)
  }

  /**
   An even height skips to itself without its lowest one bit, an odd one to its predecessor without
   the lowest two, plus one.
   */
  lemma SkipClears(height: nat)
    requires height >= 2
    ensures GetSkipHeight(height) == if height % 2 == 0 then Clear(height) else Clear(Clear(height - 1)) + 1
  {
    hide And, LowestOne;
    if height % 2 == 1 {
      LowestOneCleared(height - 1);
      if Clear(height - 1) > 0 {
        LowestOneCleared(Clear(height - 1));
      }
    } else {
      LowestOneCleared(height);
    }
  }

  /** A skip goes strictly back. */
  lemma SkipsBack(height: nat)
    requires height > 0
    ensures GetSkipHeight(height) < height
  {
    if height >= 2 {
      SkipClears(height);
    }
  }

  // ---------- the walk ----------

  /** Where a walk towards height `t` goes next when every block has its skip link. */
  function NextHeight(h: nat, t: nat): (r: nat)
    requires t < h
    ensures t <= r < h
  {
    var skip, skipPrev := GetSkipHeight(h), GetSkipHeight(h - 1);
    SkipsBack(h);
    if skip == t || (skip > t && !(skipPrev < skip - 2 && skipPrev >= t)) then skip else h - 1
  }

  /** How many links the walk follows. */
  function Steps(h: nat, t: nat): nat {
    if h <= t then 0 else 1 + Steps(NextHeight(h, t), t)
  }

  lemma StepsNext(h: nat, t: nat)
    requires t < h
    ensures Steps(h, t) == 1 + Steps(NextHeight(h, t), t)
    ensures var skip, skipPrev := GetSkipHeight(h), GetSkipHeight(h - 1);
            NextHeight(h, t) ==
              if skip == t || (skip > t && !(skipPrev < skip - 2 && skipPrev >= t)) then skip else h - 1
  {
  }

  /** The number of bits up to the highest in which two numbers differ. */
  function Gap(h: nat, t: nat): nat
    decreases h + t
  {
    if h == t then 0 else 1 + Gap(h / 2, t / 2)
  }

  /** The ones of `h` among these bits. */
  function Ones(h: nat, t: nat): nat
    decreases h + t
  {
    if h == t then 0 else h % 2 + Ones(h / 2, t / 2)
  }

  function Pop(n: nat): nat {
    if n == 0 then 0 else n % 2 + Pop(n / 2)
  }

  lemma {:induction false} PopClear(n: nat)
    requires n > 0
    ensures Pop(Clear(n)) == Pop(n) - 1
  {
    if n % 2 == 1 {
      assert Clear(n) == n - 1 && (n - 1) / 2 == n / 2;
    } else {
      PopClear(n / 2);
      assert Clear(n) == 2 * Clear(n / 2);
    }
  }

  lemma {:induction false} OnesRange(h: nat, t: nat)
    ensures Ones(h, t) <= Gap(h, t)
    ensures h > t ==> Ones(h, t) >= 1
    decreases h + t
  {
    if h != t {
      OnesRange(h / 2, t / 2);
    }
  }

  /** What lies between has no larger gap, and ones differ as they do in all. */
  lemma {:induction false} Between(h: nat, r: nat, t: nat)
    requires t <= r <= h
    ensures Gap(r, t) <= Gap(h, t)
    ensures Gap(r, t) == Gap(h, t) ==> Ones(h, t) - Ones(r, t) == Pop(h) - Pop(r)
    decreases h + t
  {
    if h != t && r != t {
      Between(h / 2, r / 2, t / 2);
    }
  }

  /** When the lowest one bit of `h` is all that is above `t`, a step to the parent closes the gap by a bit. */
  lemma {:induction false} GapCloses(h: nat, t: nat)
    requires Clear(h) <= t < h
    ensures Gap(h - 1, t) < Gap(h, t)
  {
    if h % 2 == 0 {
      assert Clear(h) == 2 * Clear(h / 2) && (h - 1) / 2 == h / 2 - 1;
      GapCloses(h / 2, t / 2);
    }
  }

  function Potential(h: nat, t: nat): nat {
    2 * Ones(h, t) + Gap(h, t) * Gap(h, t) - Gap(h, t)
  }

  lemma Squares(g: nat, r: nat)
    requires r < g
    ensures r * r + r <= g * g - g
  {
    assert r * (r + 1) <= (g - 1) * g;
  }

  /** Losing a one, or closing the gap by a bit, pays for two steps. */
  lemma Descends(h: nat, r: nat, t: nat)
    requires t <= r < h && (Pop(r) < Pop(h) || Gap(r, t) < Gap(h, t))
    ensures Potential(r, t) + 2 <= Potential(h, t)
  {
    hide Gap, Ones, Pop;
    Between(h, r, t);
    OnesRange(h, t);
    OnesRange(r, t);
    if Gap(r, t) < Gap(h, t) {
      Squares(Gap(h, t), Gap(r, t));
    }
  }

  lemma ClearDouble(n: nat)
    ensures Clear(2 * n) == 2 * Clear(n) && Clear(2 * n + 1) == 2 * n && Clear(0) == 0
  {
    assert 2 * n / 2 == n;
  }

  lemma PopDouble(n: nat)
    ensures Pop(2 * n) == Pop(n) && Pop(2 * n + 1) == Pop(n) + 1 && Pop(0) == 0
  {
    assert 2 * n / 2 == n && (2 * n + 1) / 2 == n;
  }

  /** Dropping the two lowest ones of an even number and adding one leaves no more ones. */
  lemma PopTwoCleared(m: nat)
    requires m > 0
    ensures Clear(Clear(2 * m)) == 2 * Clear(Clear(m)) && Pop(2 * Clear(Clear(m)) + 1) <= Pop(m)
  {
    hide Clear, Pop;
    ClearDouble(m);
    ClearDouble(Clear(m));
    PopClear(m);
    PopDouble(Clear(Clear(m)));
    if Clear(m) > 0 {
      PopClear(Clear(m));
    }
  }

  /** From an odd height a skip that does not overshoot is taken; either way a one is lost. */
  lemma OddStep(h: nat, t: nat)
    requires t < h && h % 2 == 1 && h >= 3
    ensures GetSkipHeight(h) >= t ==> NextHeight(h, t) == GetSkipHeight(h)
    ensures Pop(NextHeight(h, t)) < Pop(h)
  {
    hide GetSkipHeight, Clear, Pop;
    var m := h / 2;
    assert h == 2 * m + 1;
    SkipClears(h);
    SkipClears(h - 1);
    ClearBelow(Clear(h - 1));
    PopTwoCleared(m);
    PopDouble(m);
  }

  lemma ClearBelow(n: nat)
    ensures Clear(n) <= n
  {
  }

  /** From an even height a skip is taken, or an overshooting one is not, or the parent's skip is better by a one. */
  lemma EvenStep(h: nat, t: nat)
    requires t < h && h % 2 == 0
    ensures NextHeight(h, t) == GetSkipHeight(h) ==> Pop(NextHeight(h, t)) < Pop(h)
    ensures GetSkipHeight(h) < t ==> NextHeight(h, t) == h - 1 && Gap(h - 1, t) < Gap(h, t)
    ensures NextHeight(h, t) != GetSkipHeight(h) && GetSkipHeight(h) >= t ==>
              && NextHeight(h, t) == h - 1 && h - 1 >= 3 && t <= GetSkipHeight(h - 1) < h - 1
              && Pop(GetSkipHeight(h - 1)) < Pop(h)
  {
    SkipClears(h);
    SkipsBack(h - 1);
    var skip := GetSkipHeight(h);
    if skip < t {
      GapCloses(h, t);
    }
    PopClear(h);
    hide GetSkipHeight, Clear, Pop, Gap;
    if skip > t && GetSkipHeight(h - 1) < skip - 2 && GetSkipHeight(h - 1) >= t {
      ParentBetter(h);
    }
  }

  /** Where the parent of an even height skips much further, it does so by one more one bit. */
  lemma ParentBetter(h: nat)
    requires h % 2 == 0 && h >= 4 && GetSkipHeight(h - 1) < GetSkipHeight(h) - 2
    ensures Pop(GetSkipHeight(h - 1)) < Pop(h)
  {
    hide Clear, Pop, GetSkipHeight;
    if h % 4 == 0 {
      AtFour(h / 4);
    } else {
      AtTwo(h / 4);
    }
  }

  lemma SkipDouble(m: nat)
    requires m > 0
    ensures GetSkipHeight(2 * m) == Clear(2 * m) && GetSkipHeight(2 * m + 1) == Clear(Clear(2 * m)) + 1
  {
    SkipClears(2 * m);
    SkipClears(2 * m + 1);
  }

  lemma AtTwo(u: nat)
    requires u > 0
    ensures Pop(GetSkipHeight(4 * u + 1)) < Pop(4 * u + 2)
  {
    hide Clear, Pop, GetSkipHeight;
    SkipDouble(2 * u);
    PopTwoCleared(2 * u);
    PopDouble(2 * u);
    PopDouble(2 * u + 1);
    PopDouble(u);
    assert 4 * u == 2 * (2 * u) && 4 * u + 2 == 2 * (2 * u + 1);
  }

  lemma AtFour(u: nat)
    requires u > 0 && GetSkipHeight(4 * u - 1) < GetSkipHeight(4 * u) - 2
    ensures Pop(GetSkipHeight(4 * u - 1)) < Pop(4 * u)
  {
    hide Clear, Pop, GetSkipHeight;
    SkipDouble(2 * u - 1);
    SkipDouble(2 * u);
    assert 4 * u - 1 == 2 * (2 * u - 1) + 1 && 4 * u == 2 * (2 * u) && 4 * u - 2 == 4 * (u - 1) + 2;
    ClearFour(u - 1);
    ClearFour(u);
    OnlyOdd(u);
    FourBetter(u / 2);
  }

  lemma ClearFour(u: nat)
    ensures Clear(4 * u) == 4 * Clear(u) && Clear(Clear(4 * u + 2)) == 4 * Clear(u)
  {
    hide Clear;
    ClearDouble(u);
    ClearDouble(2 * u);
    ClearDouble(2 * u + 1);
    assert 4 * u == 2 * (2 * u) && 4 * u + 2 == 2 * (2 * u + 1);
  }

  lemma OnlyOdd(u: nat)
    requires u > 0 && Clear(u - 1) < Clear(u)
    ensures u == 2 * (u / 2) + 1 && u > 1
  {
    hide Clear;
    var v := u / 2;
    ClearDouble(v);
    EvenClears(v);
    assert u == 2 * v || u == 2 * v + 1;
  }

  lemma EvenClears(v: nat)
    ensures v > 0 ==> Clear(2 * v) <= Clear(2 * v - 1)
  {
    hide Clear;
    ClearDouble(v);
    if v > 0 {
      ClearDouble(v - 1);
      assert 2 * v - 1 == 2 * (v - 1) + 1;
    }
  }

  lemma FourBetter(v: nat)
    requires v > 0
    ensures Pop(4 * Clear(2 * v) + 1) < Pop(4 * (2 * v + 1))
  {
    hide Clear, Pop;
    var c := Clear(v);
    ClearDouble(v);
    PopDouble(4 * c);
    PopDouble(2 * c);
    PopDouble(c);
    PopClear(v);
    PopDouble(v);
    PopDouble(2 * v + 1);
    PopDouble(2 * (2 * v + 1));
    assert 4 * (2 * c) + 1 == 2 * (4 * c) + 1 && 4 * c == 2 * (2 * c) && 4 * (2 * v + 1) == 2 * (2 * (2 * v + 1));
  }

  /** The potential bounds the walk. */
  lemma {:induction false} FewSteps(h: nat, t: nat)
    ensures Steps(h, t) <= Potential(h, t)
    decreases h
  {
    if t < h {
      hide GetSkipHeight, Clear, Pop, Gap, Ones, Potential;
      var r := NextHeight(h, t);
      if h == 1 {
        One();
      } else if h % 2 == 1 {
        OddStep(h, t);
        Descends(h, r, t);
        FewSteps(r, t);
      } else {
        EvenStep(h, t);
        if r == GetSkipHeight(h) || GetSkipHeight(h) < t {
          Descends(h, r, t);
          FewSteps(r, t);
        } else {
          var q := GetSkipHeight(h - 1);
          OddStep(h - 1, t);
          Descends(h, q, t);
          FewSteps(q, t);
        }
      }
    }
  }

  lemma One()
    ensures Potential(1, 0) >= 1 && NextHeight(1, 0) == 0
  {
  }

  lemma {:induction false} GapWithin(h: nat, t: nat)
    requires t <= h
    ensures Gap(h, t) <= Gap(h, 0)
  {
    if h > 0 && h != t {
      GapWithin(h / 2, t / 2);
    }
  }

  /**
   A walk to an ancestor follows at most g(g + 1) links, where g is the number of bits up to the
   highest in which the two heights differ; so at most n(n + 1) from a height of n bits.
   */
  lemma StepsBound(h: nat, t: nat)
    requires t <= h
    ensures Steps(h, t) <= Gap(h, t) * (Gap(h, t) + 1) <= Gap(h, 0) * (Gap(h, 0) + 1)
  {
    hide Gap, Ones, Steps;
    FewSteps(h, t);
    OnesRange(h, t);
    GapWithin(h, t);
    Product(Gap(h, t), Gap(h, 0));
  }

  lemma Product(a: nat, b: nat)
    requires a <= b
    ensures a * (a + 1) <= b * (b + 1)
  {
    assert a * (a + 1) <= b * (a + 1) <= b * (b + 1);
  }
}
