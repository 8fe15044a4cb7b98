// Vocabulary shared by the protocol models: optional values, runs of a step
// function, and weighted sums over the threads of a program.

module Wrappers {
  datatype Option<+T> = None | Some(value: T)
}

/** Runs of a transition system.  `step(s, a)` is `None` when action `a` is not
    enabled in `s`; a run is a sequence of actions, each enabled in its turn. */
module Traces {
  import opened Wrappers

  function Run<S, A>(step: (S, A) -> Option<S>, s: S, actions: seq<A>): Option<S> {
    if actions == [] then Some(s)
    else match step(s, actions[0])
      case None => None
      case Some(next) => Run(step, next, actions[1..])
  }

  /** Whatever one step keeps, every run keeps. */
  lemma {:induction false} Invariance<S(!new), A(!new)>(
      step: (S, A) -> Option<S>, inv: S -> bool, s: S, actions: seq<A>)
    requires inv(s)
    requires forall s, a :: inv(s) && step(s, a).Some? ==> inv(step(s, a).value)
    ensures Run(step, s, actions).Some? ==> inv(Run(step, s, actions).value)
    decreases |actions|
  {
    if actions != [] && step(s, actions[0]).Some? {
      Invariance(step, inv, step(s, actions[0]).value, actions[1..]);
    }
  }

  /** A run followed by a run is a run. */
  lemma {:induction false} RunConcat<S, A>(step: (S, A) -> Option<S>, s: S, first: seq<A>, second: seq<A>)
    ensures Run(step, s, first + second) ==
            (match Run(step, s, first) case None => None case Some(mid) => Run(step, mid, second))
    decreases |first|
  {
    if first == [] {
      assert first + second == second;
    } else {
      assert (first + second)[1..] == first[1..] + second;
      if step(s, first[0]).Some? {
        RunConcat(step, step(s, first[0]).value, first[1..], second);
      }
    }
  }
}

/** Sums of a weight over a sequence; with 0/1 weights they count threads. */
module Counting {
  function Total<T>(s: seq<T>, w: T -> int): int {
    if s == [] then 0 else w(s[0]) + Total(s[1..], w)
  }

  function One(b: bool): nat { if b then 1 else 0 }

  lemma {:induction false} TotalUpdate<T>(s: seq<T>, w: T -> int, i: nat, x: T)
    requires i < |s|
    ensures Total(s[i := x], w) == Total(s, w) - w(s[i]) + w(x)
  {
    if i == 0 {
      assert s[i := x][1..] == s[1..];
    } else {
      assert s[i := x][1..] == s[1..][i - 1 := x];
      TotalUpdate(s[1..], w, i - 1, x);
    }
  }

  lemma {:induction false} TotalAtLeast<T>(s: seq<T>, w: T -> int, i: nat)
    requires i < |s|
    requires forall k :: 0 <= k < |s| ==> w(s[k]) >= 0
    ensures Total(s, w) >= w(s[i])
  {
    TotalNonNegative(s[1..], w);
    if i > 0 {
      TotalAtLeast(s[1..], w, i - 1);
    }
  }

  lemma {:induction false} TotalNonNegative<T>(s: seq<T>, w: T -> int)
    requires forall k :: 0 <= k < |s| ==> w(s[k]) >= 0
    ensures Total(s, w) >= 0
  {
    if s != [] {
      TotalNonNegative(s[1..], w);
    }
  }

  lemma {:induction false} TotalAtLeastTwo<T>(s: seq<T>, w: T -> int, i: nat, j: nat)
    requires i < j < |s|
    requires forall k :: 0 <= k < |s| ==> w(s[k]) >= 0
    ensures Total(s, w) >= w(s[i]) + w(s[j])
  {
    if i == 0 {
      TotalAtLeast(s[1..], w, j - 1);
    } else {
      TotalAtLeastTwo(s[1..], w, i - 1, j - 1);
    }
  }

  /** A positive total has a positive summand. */
  lemma {:induction false} TotalWitness<T>(s: seq<T>, w: T -> int) returns (i: nat)
    requires Total(s, w) > 0
    ensures i < |s| && w(s[i]) > 0
  {
    if w(s[0]) > 0 {
      i := 0;
    } else {
      var k := TotalWitness(s[1..], w);
      i := k + 1;
    }
  }

  lemma {:induction false} TotalZero<T>(s: seq<T>, w: T -> int)
    requires forall k :: 0 <= k < |s| ==> w(s[k]) == 0
    ensures Total(s, w) == 0
  {
    if s != [] {
      TotalZero(s[1..], w);
    }
  }

  lemma {:induction false} TotalCongruent<S, T>(a: seq<S>, b: seq<T>, v: S -> int, w: T -> int)
    requires |a| == |b| && forall k :: 0 <= k < |a| ==> v(a[k]) == w(b[k])
    ensures Total(a, v) == Total(b, w)
  {
    if a != [] {
      TotalCongruent(a[1..], b[1..], v, w);
    }
  }

  lemma {:induction false} TotalConcat<T>(a: seq<T>, b: seq<T>, w: T -> int)
    ensures Total(a + b, w) == Total(a, w) + Total(b, w)
  {
    if a == [] {
      assert a + b == b;
    } else {
      assert (a + b)[1..] == a[1..] + b;
      TotalConcat(a[1..], b, w);
    }
  }

  lemma {:induction false} TotalConstant<T>(a: seq<T>, w: T -> int, c: int)
    requires forall k :: 0 <= k < |a| ==> w(a[k]) == c
    ensures Total(a, w) == |a| * c
  {
    if a != [] {
      TotalConstant(a[1..], w, c);
      assert |a| * c == c + (|a| - 1) * c;
    }
  }

  /** Pointwise comparison of two weights. */
  lemma {:induction false} TotalMonotone<T>(s: seq<T>, v: T -> int, w: T -> int)
    requires forall k :: 0 <= k < |s| ==> v(s[k]) <= w(s[k])
    ensures Total(s, v) <= Total(s, w)
  {
    if s != [] {
      TotalMonotone(s[1..], v, w);
    }
  }

  lemma {:induction false} TotalStrict<T>(s: seq<T>, v: T -> int, w: T -> int, t: nat)
    requires t < |s| && v(s[t]) < w(s[t])
    requires forall k :: 0 <= k < |s| ==> v(s[k]) <= w(s[k])
    ensures Total(s, v) < Total(s, w)
  {
    if t == 0 {
      TotalMonotone(s[1..], v, w);
    } else {
      TotalStrict(s[1..], v, w, t - 1);
    }
  }
}

/** Division with remainder, for ring indices and repeated transfers. */
module Modular {
  lemma MultipleIsFar(d: int, m: nat)
    requires m > 0
    ensures d >= 1 ==> d * m >= m
    ensures d <= -1 ==> d * m <= 0 - m
  {
    if d >= 1 {
      assert (d - 1) * m >= 0;
    } else if d <= -1 {
      assert (d + 1) * m <= 0;
    }
  }

  lemma ModUnique(n: int, m: nat, q: int, r: nat)
    requires r < m && n == q * m + r
    ensures n % m == r && n / m == q
  {
    var d := n / m - q;
    assert n == (n / m) * m + n % m;
    assert d * m == r - n % m;
    MultipleIsFar(d, m);
  }

  lemma ModStep(n: int, m: nat)
    requires m > 0
    ensures (n + 1) % m == if n % m + 1 == m then 0 else n % m + 1
  {
    var q, r := n / m, n % m;
    assert n == q * m + r;
    if r + 1 == m {
      assert n + 1 == (q + 1) * m;
      ModUnique(n + 1, m, q + 1, 0);
    } else {
      ModUnique(n + 1, m, q, r + 1);
    }
  }

  /** The next place on a ring, from the place of the one before. */
  lemma ModNext(n: int, m: nat)
    requires m > 0
    ensures ((n - 1) % m + 1) % m == n % m
  {
    ModStep(n - 1, m);
    var v := (n - 1) % m + 1;
    ModUnique(v, m, if v == m then 1 else 0, if v == m then 0 else v);
  }

  lemma ModShift(n: int, m: nat)
    requires m > 0
    ensures (m + n) % m == n % m && (m + n) / m == n / m + 1
  {
    assert n == (n / m) * m + n % m;
    assert m + n == (n / m + 1) * m + n % m;
    ModUnique(m + n, m, n / m + 1, n % m);
  }

  /** Numbers less than a whole turn apart fall on different places of a ring. */
  lemma ModApart(a: int, b: int, m: nat)
    requires m > 0 && a < b < a + m
    ensures a % m != b % m
  {
    assert a == (a / m) * m + a % m;
    assert b == (b / m) * m + b % m;
    var d := b / m - a / m;
    assert b - a == d * m + (b % m - a % m);
    MultipleIsFar(d, m);
  }
}
