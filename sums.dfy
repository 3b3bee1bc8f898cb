/** Finite sums and counts used to state the lattice properties. */
module Sums {

  /** The sum of a sequence of reals, last element added last. */
  function Sum(s: seq<real>): real
  {
    if |s| == 0 then 0.0 else Sum(s[..|s| - 1]) + s[|s| - 1]
  }

  /** The sum of a sequence of integers, last element added last. */
  function IntSum(s: seq<int>): int
  {
    if |s| == 0 then 0 else IntSum(s[..|s| - 1]) + s[|s| - 1]
  }

  /** Splitting off the last of n elements. */
  lemma SumLast(s: seq<real>, n: nat)
    requires |s| == n > 0
    ensures Sum(s) == Sum(s[..n - 1]) + s[n - 1]
  {
  }

  /** Splitting off the first element. */
  lemma {:induction false} SumCons(s: seq<real>)
    requires |s| > 0
    ensures Sum(s) == s[0] + Sum(s[1..])
  {
    if |s| > 1 {
      var init := s[..|s| - 1];
      SumCons(init);
      assert init[1..] == s[1..][..|s| - 2];
    }
  }

  lemma {:induction false} SumConcat(a: seq<real>, b: seq<real>)
    ensures Sum(a + b) == Sum(a) + Sum(b)
    decreases |b|
  {
    if |b| > 0 {
      assert (a + b)[..|a + b| - 1] == a + b[..|b| - 1];
      SumConcat(a, b[..|b| - 1]);
    } else {
      assert a + b == a;
    }
  }

  /** Replacing one element changes the sum by the difference. */
  lemma {:induction false} SumUpdate(s: seq<real>, p: int, x: real)
    requires 0 <= p < |s|
    ensures Sum(s[p := x]) == Sum(s) - s[p] + x
  {
    var t := s[p := x];
    if p == |s| - 1 {
      assert t[..|t| - 1] == s[..|s| - 1];
    } else {
      assert t[..|t| - 1] == s[..|s| - 1][p := x];
      SumUpdate(s[..|s| - 1], p, x);
    }
  }

  lemma {:induction false} IntSumUpdate(s: seq<int>, p: int, x: int)
    requires 0 <= p < |s|
    ensures IntSum(s[p := x]) == IntSum(s) - s[p] + x
  {
    var t := s[p := x];
    if p == |s| - 1 {
      assert t[..|t| - 1] == s[..|s| - 1];
    } else {
      assert t[..|t| - 1] == s[..|s| - 1][p := x];
      IntSumUpdate(s[..|s| - 1], p, x);
    }
  }

  /** Adding two sequences and a constant element by element adds their sums. */
  lemma {:induction false} IntSumPointwise(x: seq<int>, y: seq<int>, z: seq<int>, c: int)
    requires |x| == |y| == |z|
    requires forall i :: 0 <= i < |z| ==> z[i] == x[i] + y[i] + c
    ensures IntSum(z) == IntSum(x) + IntSum(y) + |z| * c
  {
    if |z| > 0 {
      var n := |z| - 1;
      IntSumPointwise(x[..n], y[..n], z[..n], c);
    }
  }

  /** Scaling every element scales the sum. */
  lemma {:induction false} SumScaled(s: seq<real>, t: seq<real>, m: real)
    requires |s| == |t| && forall i :: 0 <= i < |s| ==> t[i] == s[i] * m
    ensures Sum(t) == Sum(s) * m
  {
    if |s| > 0 {
      var n := |s| - 1;
      SumScaled(s[..n], t[..n], m);
    }
  }

  /** Pigeonhole: pairwise different naturals below `n` number at most `n`. */
  lemma {:induction false} DistinctBelow(s: seq<int>, n: nat)
    requires forall i :: 0 <= i < |s| ==> 0 <= s[i] < n
    requires forall a, b :: 0 <= a < b < |s| ==> s[a] != s[b]
    ensures |s| <= n
    decreases |s|
  {
    if |s| > 0 {
      var last := s[|s| - 1];
      // renumber: the value n - 1, if it occurs before the end, takes the last value
      var s' := seq(|s| - 1, i requires 0 <= i < |s| - 1 => if s[i] == n - 1 then last else s[i]);
      forall i | 0 <= i < |s'|
        ensures 0 <= s'[i] < n - 1
      {
        if s[i] == n - 1 {
          assert s[i] != last;
        }
      }
      forall a, b | 0 <= a < b < |s'|
        ensures s'[a] != s'[b]
      {
        assert s[a] != s[b] && s[a] != last && s[b] != last;
      }
      DistinctBelow(s', n - 1);
    }
  }

  /** A permutation of 0..n-1 sums to n(n-1)/2. */
  lemma {:induction false} PermutationSum(s: seq<int>)
    requires forall i :: 0 <= i < |s| ==> 0 <= s[i] < |s|
    requires forall a, b :: 0 <= a < b < |s| ==> s[a] != s[b]
    ensures 2 * IntSum(s) == |s| * (|s| - 1)
    decreases |s|
  {
    var n := |s|;
    if n > 0 {
      if forall i :: 0 <= i < n ==> s[i] != n - 1 {
        DistinctBelow(s, n - 1);
        assert false;
      }
      var j :| 0 <= j < n && s[j] == n - 1;
      DropTopPermutation(s, j);
      DropTopSum(s, j);
      PermutationSum(DropTop(s, j));
      TriangleStep(n, IntSum(DropTop(s, j)), IntSum(s));
    }
  }

  /** `s` without its element at `j`, the last element taking its place. */
  function DropTop(s: seq<int>, j: nat): (t: seq<int>)
    requires j < |s|
    ensures |t| == |s| - 1
  {
    seq(|s| - 1, i requires 0 <= i < |s| - 1 => if i == j then s[|s| - 1] else s[i])
  }

  /** Dropping the largest value of a permutation of 0..n-1 leaves a
      permutation of 0..n-2. */
  lemma DropTopPermutation(s: seq<int>, j: nat)
    requires j < |s| && s[j] == |s| - 1
    requires forall i :: 0 <= i < |s| ==> 0 <= s[i] < |s|
    requires forall a, b :: 0 <= a < b < |s| ==> s[a] != s[b]
    ensures var t := DropTop(s, j);
            (forall i :: 0 <= i < |t| ==> 0 <= t[i] < |t|) && (forall a, b :: 0 <= a < b < |t| ==> t[a] != t[b])
  {
    var t := DropTop(s, j);
    forall i | 0 <= i < |t|
      ensures 0 <= t[i] < |t|
    {
      if i == j {
        assert s[|s| - 1] != s[j];
      } else {
        assert s[i] != s[j];
      }
    }
    forall a, b | 0 <= a < b < |t|
      ensures t[a] != t[b]
    {
      assert a != j ==> s[a] != s[j];
      assert b != j ==> s[b] != s[j];
    }
  }

  /** Dropping the element at `j` takes it off the sum. */
  lemma DropTopSum(s: seq<int>, j: nat)
    requires j < |s|
    ensures IntSum(s) == IntSum(DropTop(s, j)) + s[j]
  {
    var n := |s|;
    var t := DropTop(s, j);
    assert IntSum(s) == IntSum(s[..n - 1]) + s[n - 1];
    if j < n - 1 {
      assert t == s[..n - 1][j := s[n - 1]];
      IntSumUpdate(s[..n - 1], j, s[n - 1]);
    } else {
      assert t == s[..n - 1];
    }
  }

  /** One more term of the triangle numbers. */
  lemma TriangleStep(n: int, st: int, ss: int)
    requires ss == st + (n - 1) && 2 * st == (n - 1) * (n - 2)
    ensures 2 * ss == n * (n - 1)
  {
    assert n * (n - 1) == (n - 1) * (n - 2) + 2 * (n - 1);
  }

  /** The number of `y` in `0..n-1` satisfying `p`. */
  function CountIf(n: nat, p: int -> bool): (c: nat)
    ensures c <= n
  {
    if n == 0 then 0 else CountIf(n - 1, p) + (if p(n - 1) then 1 else 0)
  }

  /** Counting is monotone in the predicate. */
  lemma {:induction false} CountIfMono(n: nat, p: int -> bool, q: int -> bool)
    requires forall y :: 0 <= y < n && p(y) ==> q(y)
    ensures CountIf(n, p) <= CountIf(n, q)
  {
    if n > 0 {
      CountIfMono(n - 1, p, q);
    }
  }

  /** A predicate that also holds at one more point counts strictly more. */
  lemma {:induction false} CountIfStrict(n: nat, p: int -> bool, q: int -> bool, w: int)
    requires forall y :: 0 <= y < n && p(y) ==> q(y)
    requires 0 <= w < n && q(w) && !p(w)
    ensures CountIf(n, p) < CountIf(n, q)
  {
    if w == n - 1 {
      CountIfMono(n - 1, p, q);
    } else {
      CountIfStrict(n - 1, p, q, w);
    }
  }

  /** Predicates that differ exactly at `w`, where only `q` holds, count one apart. */
  lemma {:induction false} CountIfOneMore(n: nat, p: int -> bool, q: int -> bool, w: int)
    requires forall y :: 0 <= y < n && y != w ==> (p(y) <==> q(y))
    requires 0 <= w < n && q(w) && !p(w)
    ensures CountIf(n, q) == CountIf(n, p) + 1
  {
    if w == n - 1 {
      CountIfSame(n - 1, p, q);
    } else {
      CountIfOneMore(n - 1, p, q, w);
    }
  }

  lemma {:induction false} CountIfSame(n: nat, p: int -> bool, q: int -> bool)
    requires forall y :: 0 <= y < n ==> (p(y) <==> q(y))
    ensures CountIf(n, q) == CountIf(n, p)
  {
    if n > 0 {
      CountIfSame(n - 1, p, q);
    }
  }

  /** A point where the predicate fails leaves at most n - 1. */
  lemma {:induction false} CountIfMissing(n: nat, p: int -> bool, w: int)
    requires 0 <= w < n && !p(w)
    ensures CountIf(n, p) <= n - 1
  {
    if w < n - 1 {
      CountIfMissing(n - 1, p, w);
    }
  }

  /** A predicate that holds nowhere counts zero. */
  lemma {:induction false} CountIfNone(n: nat, p: int -> bool)
    requires forall y :: 0 <= y < n ==> !p(y)
    ensures CountIf(n, p) == 0
  {
    if n > 0 {
      CountIfNone(n - 1, p);
    }
  }

  /** Euclidean division is unique: a quotient and a remainder in 0..n-1
      that rebuild `a` are `a / n` and `a % n`. */
  lemma DivModUnique(a: int, n: int, q: int, r: int)
    requires n > 0 && a == q * n + r && 0 <= r < n
    ensures a % n == r && a / n == q
  {
    var q0, r0 := a / n, a % n;
    assert (q - q0) * n == r0 - r;
    if q > q0 {
      MulAtLeast(q - q0, n);
    } else if q < q0 {
      MulAtLeast(q0 - q, n);
    }
  }

  lemma {:induction false} MulAtLeast(m: int, n: int)
    requires m >= 1 && n > 0
    ensures m * n >= n
  {
    if m > 1 {
      MulAtLeast(m - 1, n);
      assert m * n == (m - 1) * n + n;
    }
  }

  /** Adding a multiple of n leaves the remainder modulo n unchanged. */
  lemma ModAddMultiple(x: int, k: int, n: int)
    requires n > 0
    ensures (k * n + x) % n == x % n
  {
    var q := x / n;
    assert k * n + x == (k + q) * n + x % n;
    DivModUnique(k * n + x, n, k + q, x % n);
  }

  /** Equal remainders stay equal after adding the same amount. */
  lemma ShiftMod(a: int, b: int, t: int, n: int)
    requires n > 0 && a % n == b % n
    ensures (a + t) % n == (b + t) % n
  {
    var k := a / n - b / n;
    assert a + t == k * n + (b + t);
    ModAddMultiple(b + t, k, n);
  }
}
