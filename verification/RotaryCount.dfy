/**
 How many (sequence index, head) pairs keep their own position when a rank-3 rotary
 embedding is reshaped without a transpose.
 */
module RotaryCount {
  import opened Counting
  import opened Rotary

  // ----- greatest common divisors -----

  function Gcd(a: nat, b: nat): (g: nat)
    ensures a + b > 0 ==> g > 0
    decreases b
  {
    if b == 0 then a else Gcd(b, a % b)
  }

  /** `p` and `q` are the cofactors of `a` and `b`, and `u`, `v` combine them to `g`. */
  predicate Combines(a: int, b: int, g: int, p: int, q: int, u: int, v: int) {
    a == p * g && b == q * g && u * a + v * b == g
  }

  /** `Gcd` divides both numbers and is a combination of them. */
  lemma {:induction false} Bezout(a: nat, b: nat) returns (p: nat, q: nat, u: int, v: int)
    ensures Combines(a, b, Gcd(a, b), p, q, u, v)
    decreases b
  {
    if b == 0 {
      p, q, u, v := 1, 0, 1, 0;
    } else {
      hide Combines;
      var p', q', u', v' := Bezout(b, a % b);
      p, q, u, v := Combine(a, b, Gcd(b, a % b), p', q', u', v');
    }
  }

  lemma Combine(a: nat, b: nat, g: nat, p': nat, q': nat, u': int, v': int)
    returns (p: nat, q: nat, u: int, v: int)
    requires b > 0 && Combines(b, a % b, g, p', q', u', v')
    ensures Combines(a, b, g, p, q, u, v)
  {
    var k := a / b;
    p, q, u, v := k * p' + q', p', v', u' - v' * k;
    Substitute(a, b, k, a % b, g, p', q', u', v');
  }

  lemma Substitute(a: int, b: int, k: int, m: int, g: int, p: int, q: int, u: int, v: int)
    requires a == k * b + m && b == p * g && m == q * g && u * b + v * m == g
    ensures a == (k * p + q) * g && v * a + (u - v * k) * b == g
  {
    assert k * b == (k * p) * g;
    assert v * a == v * (k * b) + v * m;
    assert (v * k) * b == v * (k * b);
    assert (u - v * k) * b == u * b - (v * k) * b;
  }

  // ----- counting -----

  lemma CountOne(p: int -> bool, lo: int, at: int, hi: int)
    requires lo <= at < hi && forall s :: lo <= s < hi ==> (p(s) <==> s == at)
    ensures CountIn(p, lo, hi) == 1
  {
    CountSplit(p, lo, at, hi);
    CountConst(p, false, lo, at);
    CountConst(p, false, at + 1, hi);
  }

  /** A residue class meets every block of `m` once. */
  lemma {:induction false} CountResidue(p: int -> bool, m: nat, r: nat, g: nat)
    requires r < m && forall s :: 0 <= s < g * m ==> (p(s) <==> s % m == r)
    ensures CountIn(p, 0, g * m) == g
    decreases g
  {
    if g > 0 {
      var lo := (g - 1) * m;
      assert g * m == lo + m;
      CountResidue(p, m, r, g - 1);
      CountSplit(p, 0, lo, g * m);
      forall s | lo <= s < lo + m ensures p(s) <==> s == lo + r {
        DivMod(g - 1, s - lo, m);
      }
      CountOne(p, lo, lo + r, lo + m);
    }
  }

  // ----- the survivors -----

  /** The pair keeps its own position. */
  predicate Survives(N: nat, S: nat, n: int, s: int)
    requires S > 0
  {
    (N * s + n) % S == s
  }

  /** The surviving pairs of one head. */
  function HeadSurvivors(N: nat, S: nat, n: int): nat
    requires S > 0
  {
    CountIn(s => Survives(N, S, n, s), 0, S)
  }

  /** The surviving pairs of heads `n` and up. */
  function Survivors(N: nat, S: nat, n: nat): nat
    requires S > 0
    decreases N - n
  {
    if n >= N then 0 else HeadSurvivors(N, S, n) + Survivors(N, S, n + 1)
  }

  lemma ModZero(x: int, k: nat, q: int)
    requires k > 0 && x == q * k
    ensures x % k == 0
  {
    if q >= 0 {
      DivMod(q, 0, k);
    } else {
      var y, m := x / k, x % k;
      assert x == y * k + m && 0 <= m < k;
      assert (q - y) * k == m;
      if q - y >= 1 {
        Grows(1, q - y, k);
      } else if q - y <= -1 {
        Grows(1, y - q, k);
        assert (y - q) * k == -m;
      }
    }
  }

  /** Two numbers leave the same remainder exactly when their difference is a multiple. */
  lemma SameResidue(x: int, y: int, k: nat)
    requires k > 0
    ensures x % k == y % k <==> (x - y) % k == 0
  {
    var a, b, c := x / k, y / k, (x - y) / k;
    assert x == a * k + x % k && y == b * k + y % k && x - y == c * k + (x - y) % k;
    if x % k == y % k {
      assert x - y == (a - b) * k;
      ModZero(x - y, k, a - b);
    }
    if (x - y) % k == 0 {
      assert x % k - y % k == (c - a + b) * k;
      Small(x % k - y % k, c - a + b, k);
    }
  }

  lemma Small(d: int, q: int, k: int)
    requires k > 0 && d == q * k && -k < d < k
    ensures d == 0
  {
    AtLeast(q, k);
  }

  lemma AtLeast(q: int, k: int)
    requires k > 0
    ensures q >= 1 ==> q * k >= k
    ensures q <= -1 ==> q * k <= -k
  {
    if q >= 1 {
      Grows(1, q, k);
    } else if q <= -1 {
      Grows(1, -q, k);
      assert (-q) * k == -(q * k);
    }
  }

  /** A pair survives exactly when S divides (N-1)*s + n. */
  lemma OneLess(N: nat, s: int, n: int)
    ensures N * s + n - s == (N - 1) * s + n
  {
  }

  lemma SurvivesWhen(N: nat, S: nat, n: int, s: int)
    requires S > 0 && N > 0 && 0 <= s < S
    ensures Survives(N, S, n, s) <==> ((N - 1) * s + n) % S == 0
  {
    SameResidue(N * s + n, s, S);
    OneLess(N, s, n);
    DivMod(0, s, S);
  }

  /**
   With k = g*a and S = g*m, S divides k*s + n exactly when g divides n and m divides
   a*s + n/g; with a*u = 1 modulo m that fixes s modulo m.
   */
  lemma Solves(k: nat, S: nat, g: nat, a: nat, m: nat, u: int, v: int, n: int, s: int)
    requires g > 0 && m > 0 && k == g * a && S == g * m && u * a + v * m == 1
    ensures S > 0
    ensures n % g != 0 ==> (k * s + n) % S != 0
    ensures n % g == 0 ==> ((k * s + n) % S == 0 <==> s % m == (-(n / g) * u) % m)
  {
    assert S > 0 by { Grows(1, m, g); }
    var x := k * s + n;
    if x % S == 0 {
      var q := x / S;
      assert x == q * S;
      assert n == (q * m - a * s) * g by {
        assert q * (g * m) == (q * m) * g;
        assert (g * a) * s == (a * s) * g;
        assert (q * m - a * s) * g == (q * m) * g - (a * s) * g;
      }
      ModZero(n, g, q * m - a * s);
    }
    if n % g == 0 {
      var c := n / g;
      assert n == c * g;
      Scaled(k, S, g, a, m, c, s);
      Inverse(a, m, u, v, c, s);
      SameResidue(s, -c * u, m);
    }
  }

  lemma Scaled(k: nat, S: nat, g: nat, a: nat, m: nat, c: int, s: int)
    requires g > 0 && m > 0 && S > 0 && k == g * a && S == g * m
    ensures (k * s + c * g) % S == 0 <==> (a * s + c) % m == 0
  {
    var x, y := k * s + c * g, a * s + c;
    assert x == y * g by {
      assert (g * a) * s == (a * s) * g;
    }
    if y % m == 0 {
      var q := y / m;
      assert y == q * m;
      assert x == q * S by { assert (q * m) * g == q * (g * m); }
      ModZero(x, S, q);
    }
    if x % S == 0 {
      var q := x / S;
      assert x == q * S;
      assert (y - q * m) * g == 0 by { assert q * (g * m) == (q * m) * g; }
      NoZeroDivisor(y - q * m, g);
      ModZero(y, m, q);
    }
  }

  lemma NoZeroDivisor(x: int, g: nat)
    requires g > 0 && x * g == 0
    ensures x == 0
  {
    AtLeast(x, g);
  }

  lemma Inverse(a: nat, m: nat, u: int, v: int, c: int, s: int)
    requires m > 0 && u * a + v * m == 1
    ensures (a * s + c) % m == 0 <==> (s - (-c * u)) % m == 0
  {
    var y, z := a * s + c, s + c * u;
    assert s - (-c * u) == z;
    Forth(a, m, u, v, c, s);
    Back(a, m, u, v, c, s);
    MultipleOf(z, m, u, y, s * v);
    MultipleOf(y, m, a, z, c * v);
  }

  lemma Forth(a: int, m: int, u: int, v: int, c: int, s: int)
    requires u * a + v * m == 1
    ensures s + c * u == u * (a * s + c) + (s * v) * m
  {
    assert u * (a * s + c) == u * (a * s) + u * c;
    assert u * (a * s) == (u * a) * s;
    assert (u * a) * s == s - (v * m) * s;
    assert (v * m) * s == (s * v) * m;
  }

  lemma Back(a: int, m: int, u: int, v: int, c: int, s: int)
    requires u * a + v * m == 1
    ensures a * s + c == a * (s + c * u) + (c * v) * m
  {
    assert a * (s + c * u) == a * s + a * (c * u);
    assert a * (c * u) == (u * a) * c;
    assert (u * a) * c == c - (v * m) * c;
    assert (v * m) * c == (c * v) * m;
  }

  /** A multiple of a multiple of `m`, and more multiples. */
  lemma MultipleOf(z: int, m: nat, u: int, y: int, w: int)
    requires m > 0 && z == u * y + w * m
    ensures y % m == 0 ==> z % m == 0
  {
    if y % m == 0 {
      var q := y / m;
      assert y == q * m;
      assert u * (q * m) == (u * q) * m;
      assert (u * q) * m + w * m == (u * q + w) * m;
      ModZero(z, m, u * q + w);
    }
  }

  lemma Reduced(k: nat, S: nat, g: nat, a: nat, m: nat, u: int, v: int)
    requires g > 0 && S > 0 && k == a * g && S == m * g && u * k + v * S == g
    ensures m > 0 && k == g * a && S == g * m && u * a + v * m == 1
  {
    assert m != 0;
    assert u * (a * g) + v * (m * g) == (u * a + v * m) * g;
    assert (u * a + v * m - 1) * g == 0;
    NoZeroDivisor(u * a + v * m - 1, g);
  }

  /** A head keeps gcd(N-1, S) positions when the gcd divides its number, and none otherwise. */
  lemma HeadSurvivorsAre(N: nat, S: nat, n: nat)
    requires N > 0 && S > 0
    ensures HeadSurvivors(N, S, n) == if n % Gcd(N - 1, S) == 0 then Gcd(N - 1, S) else 0
  {
    var g := Gcd(N - 1, S);
    var a, m, u0, v0 := Bezout(N - 1, S);
    Reduced(N - 1, S, g, a, m, u0, v0);
    hide Gcd;
    var p := s => Survives(N, S, n, s);
    forall s | 0 <= s < S
      ensures n % g != 0 ==> !p(s)
      ensures n % g == 0 ==> (p(s) <==> s % m == (-(n / g) * u0) % m)
    {
      SurvivesWhen(N, S, n, s);
      Solves(N - 1, S, g, a, m, u0, v0, n, s);
    }
    if n % g == 0 {
      CountResidue(p, m, (-(n / g) * u0) % m, g);
    } else {
      CountConst(p, false, 0, S);
    }
  }

  /** The multiples of `g` in `[n, N)`, with `N` one past a multiple. */
  lemma {:induction false} SurvivorsFrom(N: nat, S: nat, n: nat)
    requires N > 0 && S > 0 && n <= N
    ensures Survivors(N, S, n) == CountIn(x => x % Gcd(N - 1, S) == 0, n, N) * Gcd(N - 1, S)
    decreases N - n
  {
    var g := Gcd(N - 1, S);
    var p := x => x % g == 0;
    if n < N {
      HeadSurvivorsAre(N, S, n);
      SurvivorsFrom(N, S, n + 1);
      var c := CountIn(p, n + 1, N);
      assert (1 + c) * g == g + c * g;
    }
  }

  /**
   Of the heads*seq pairs exactly heads - 1 + gcd(heads - 1, seq) keep their own position;
   when that gcd is 1, exactly one per head.
   */
  lemma SurvivorsExact(N: nat, S: nat)
    requires N > 0 && S > 0
    ensures Survivors(N, S, 0) == N - 1 + Gcd(N - 1, S)
    ensures Gcd(N - 1, S) == 1 ==>
              Survivors(N, S, 0) == N && forall n: nat :: HeadSurvivors(N, S, n) == 1
  {
    var g := Gcd(N - 1, S);
    var a, m, u, v := Bezout(N - 1, S);
    SurvivorsFrom(N, S, 0);
    var p := x => x % g == 0;
    assert N - 1 == a * g;
    CountSplit(p, 0, N - 1, N);
    CountResidue(p, g, 0, a);
    DivMod(a, 0, g);
    assert CountIn(p, N - 1, N) == 1 + CountIn(p, N, N);
    assert (a + 1) * g == a * g + g;
    forall n: nat ensures g == 1 ==> HeadSurvivors(N, S, n) == 1 {
      HeadSurvivorsAre(N, S, n);
    }
  }

  /** Eight heads over 128 positions: 8 of the 1024 pairs survive. */
  lemma EightOf1024()
    ensures Survivors(8, 128, 0) == 8
  {
    assert Gcd(7, 128) == Gcd(128, 7) == Gcd(7, 2) == Gcd(2, 1) == Gcd(1, 0) == 1;
    SurvivorsExact(8, 128);
  }
}
