/**
 * Big-endian counter arithmetic on byte blocks. A counter block of n bytes
 * denotes an unsigned integer below 256^n, first byte most significant; one
 * step of the counter adds one to that integer modulo 256^n.
 */
module BigEndianCounter {

  /** 256^n: the number of distinct values of an n-byte counter. */
  function Pow256(n: nat): (p: nat)
    ensures p >= 1
  {
    if n == 0 then 1 else 256 * Pow256(n - 1)
  }

  /** The unsigned integer that a byte block denotes, first byte most significant. */
  function BigEndian(s: seq<bv8>): (v: nat)
    ensures v < Pow256(|s|)
  {
    if s == [] then 0 else BigEndian(s[..|s| - 1]) * 256 + s[|s| - 1] as int
  }

  /** n copies of the byte b. */
  function Fill(n: nat, b: bv8): seq<bv8>
  {
    seq(n, _ => b)
  }

  /**
   * One step of the counter: the last byte is incremented, and while a byte
   * overflows from 0xFF to 0x00 the carry moves one byte towards the front.
   * A block of all 0xFF silently becomes all zero.
   */
  function Increment(s: seq<bv8>): (r: seq<bv8>)
    ensures |r| == |s|
  {
    if s == [] then []
    else if s[|s| - 1] == 0xFF then Increment(s[..|s| - 1]) + [0]
    else s[..|s| - 1] + [s[|s| - 1] + 1]
  }

  /** The counter after k steps from s. */
  function IncrementN(s: seq<bv8>, k: nat): (r: seq<bv8>)
    ensures |r| == |s|
    decreases k
  {
    if k == 0 then s else IncrementN(Increment(s), k - 1)
  }

  /** Taking k + 1 steps is taking k steps and then one more. */
  lemma {:induction false} IncrementNSucc(s: seq<bv8>, k: nat)
    ensures IncrementN(s, k + 1) == Increment(IncrementN(s, k))
    decreases k
  {
    if k > 0 {
      IncrementNSucc(Increment(s), k - 1);
    }
  }

  // ---------------------------------------------------------------------
  // Arithmetic helpers
  // ---------------------------------------------------------------------

  lemma MulAtLeast(d: int, m: int)
    requires d >= 1 && m > 0
    ensures d * m >= m
  {
  }

  /** Euclidean division has a unique remainder. */
  lemma ModUnique(a: int, m: int, q: int, r: int)
    requires m > 0 && 0 <= r < m && a == q * m + r
    ensures a % m == r
  {
    var d := q - a / m;
    assert d * m == a % m - r;
    if d >= 1 { MulAtLeast(d, m); assert false; }
    if d <= -1 { MulAtLeast(-d, m); assert false; }
  }

  lemma ModAdd(a: nat, b: nat, m: nat)
    requires m > 0
    ensures (a % m + b) % m == (a + b) % m
  {
    var q, r := a / m, a % m;
    var q2, r2 := (r + b) / m, (r + b) % m;
    assert a + b == (q + q2) * m + r2;
    ModUnique(a + b, m, q + q2, r2);
  }

  /**
   * q * m as repeated addition. The counter lemmas count wrap-arounds with it,
   * which keeps their arithmetic linear.
   */
  function Multiple(q: nat, m: nat): nat
  {
    if q == 0 then 0 else Multiple(q - 1, m) + m
  }

  lemma {:induction false} MultipleIsProduct(q: nat, m: nat)
    ensures Multiple(q, m) == q * m
  {
    if q > 0 {
      MultipleIsProduct(q - 1, m);
      assert q * m == (q - 1) * m + m;
    }
  }

  /** A block that continues a prefix with n copies of b is that prefix followed by Fill(n, b). */
  lemma FillSuffix(a: seq<bv8>, p: seq<bv8>, n: nat, b: bv8)
    requires |a| == |p| + n && a[..|p|] == p
    requires forall t :: |p| <= t < |a| ==> a[t] == b
    ensures a == p + Fill(n, b)
  {
    assert forall t :: 0 <= t < |p| ==> a[t] == a[..|p|][t];
  }

  /** A two-digit base-256 numeral has unique digits. */
  lemma DigitSplit(x: int, y: int, u: int, v: int)
    requires 0 <= u < 256 && 0 <= v < 256 && x * 256 + u == y * 256 + v
    ensures u == v && x == y
  {
  }

  lemma ByteOfInt(x: bv8, y: bv8)
    requires x as int == y as int
    ensures x == y
  {
  }

  lemma ByteSucc(b: bv8)
    requires b != 0xFF
    ensures (b + 1) as int == b as int + 1
  {
  }

  lemma {:induction false} BigEndianSnoc(p: seq<bv8>, b: bv8)
    ensures BigEndian(p + [b]) == BigEndian(p) * 256 + b as int
  {
    assert (p + [b])[..|p|] == p;
  }

  // ---------------------------------------------------------------------
  // Properties of the counter
  // ---------------------------------------------------------------------

  /** Two blocks of one length that denote the same number are the same block. */
  lemma {:induction false} BigEndianInjective(a: seq<bv8>, b: seq<bv8>)
    requires |a| == |b| && BigEndian(a) == BigEndian(b)
    ensures a == b
  {
    if a != [] {
      var n := |a|;
      var pa, pb := a[..n - 1], b[..n - 1];
      assert BigEndian(pa) == BigEndian(pb) && a[n - 1] == b[n - 1] by {
        DigitSplit(BigEndian(pa), BigEndian(pb), a[n - 1] as int, b[n - 1] as int);
        ByteOfInt(a[n - 1], b[n - 1]);
      }
      BigEndianInjective(pa, pb);
      assert a == pa + [a[n - 1]];
      assert b == pb + [b[n - 1]];
    }
  }

  /**
   * One counter step adds one, except from the largest value 256^n - 1, from
   * which it wraps to zero.
   */
  lemma {:induction false} IncrementCarry(s: seq<bv8>)
    ensures BigEndian(s) + 1 == Pow256(|s|) ==> BigEndian(Increment(s)) == 0
    ensures BigEndian(s) + 1 != Pow256(|s|) ==> BigEndian(Increment(s)) == BigEndian(s) + 1
  {
    if s != [] {
      var n := |s|;
      var p, b := s[..n - 1], s[n - 1];
      assert s == p + [b];
      if b == 0xFF {
        IncrementCarry(p);
        BigEndianSnoc(Increment(p), 0);
      } else {
        BigEndianSnoc(p, b + 1);
        ByteSucc(b);
      }
    }
  }

  /** One counter step adds one modulo 256^n. */
  lemma {:induction false} IncrementValue(s: seq<bv8>)
    ensures BigEndian(Increment(s)) == (BigEndian(s) + 1) % Pow256(|s|)
  {
    IncrementCarry(s);
    if BigEndian(s) + 1 == Pow256(|s|) {
      ModUnique(BigEndian(s) + 1, Pow256(|s|), 1, 0);
    } else {
      ModUnique(BigEndian(s) + 1, Pow256(|s|), 0, BigEndian(s) + 1);
    }
  }

  /** A run of 0xFF bytes at the end turns into zeros and carries into what precedes it. */
  lemma {:induction false} IncrementOnesSuffix(p: seq<bv8>, k: nat)
    ensures Increment(p + Fill(k, 0xFF)) == Increment(p) + Fill(k, 0)
  {
    if k == 0 {
      assert p + Fill(0, 0xFF) == p;
      assert Increment(p) + Fill(0, 0) == Increment(p);
    } else {
      var s := p + Fill(k, 0xFF);
      assert s[..|s| - 1] == p + Fill(k - 1, 0xFF);
      IncrementOnesSuffix(p, k - 1);
      assert Increment(p) + Fill(k, 0) == Increment(p) + Fill(k - 1, 0) + [0];
    }
  }

  /** The all-0xFF counter wraps to all zero. */
  lemma {:induction false} AllOnesWrapsToZero(n: nat)
    ensures Increment(Fill(n, 0xFF)) == Fill(n, 0)
  {
    IncrementOnesSuffix([], n);
    assert [] + Fill(n, 0xFF) == Fill(n, 0xFF);
    assert [] + Fill(n, 0) == Fill(n, 0);
  }

  /**
   * The step seen byte by byte, as an in-place scan from the end produces it:
   * the bytes after j were 0xFF and are now zero, byte j was below 0xFF and
   * went up by one, the bytes before j are as they were.
   */
  lemma {:induction false} IncrementStopsAt(c0: seq<bv8>, c: seq<bv8>, j: nat)
    requires |c| == |c0| && j < |c0|
    requires c0[j] != 0xFF && c[j] == c0[j] + 1
    requires forall t :: 0 <= t < j ==> c[t] == c0[t]
    requires forall t :: j < t < |c0| ==> c[t] == 0 && c0[t] == 0xFF
    ensures c == Increment(c0)
  {
    var z := |c0| - j - 1;
    var p := c0[..j + 1];
    var p' := c0[..j] + [c0[j] + 1];
    FillSuffix(c0, p, z, 0xFF);
    assert c[..j + 1] == p';
    FillSuffix(c, p', z, 0);
    IncrementOnesSuffix(p, z);
    assert p[..j] == c0[..j];
  }

  /** ... and when every byte was 0xFF, every byte is now zero. */
  lemma {:induction false} IncrementWrapsAll(c0: seq<bv8>, c: seq<bv8>)
    requires |c| == |c0|
    requires forall t :: 0 <= t < |c0| ==> c[t] == 0 && c0[t] == 0xFF
    ensures c == Increment(c0)
  {
    assert c0 == Fill(|c0|, 0xFF);
    assert c == Fill(|c0|, 0);
    AllOnesWrapsToZero(|c0|);
  }

  /** A zero counter steps to ...00 01. */
  lemma {:induction false} ZeroStepsToOne(n: nat)
    requires n > 0
    ensures Increment(Fill(n, 0)) == Fill(n - 1, 0) + [1]
  {
    assert Fill(n, 0)[..n - 1] == Fill(n - 1, 0);
  }

  /** k counter steps add k to the value, less some number of whole wrap-arounds. */
  lemma {:induction false} IncrementNWraps(s: seq<bv8>, k: nat) returns (q: nat)
    ensures BigEndian(IncrementN(s, k)) + Multiple(q, Pow256(|s|)) == BigEndian(s) + k
    decreases k
  {
    if k == 0 {
      q := 0;
    } else {
      var s1 := Increment(s);
      var q1 := IncrementNWraps(s1, k - 1);
      q := IncrementNWrapsStep(s, k, q1);
    }
  }

  /** The inductive step of IncrementNWraps: one step from s, then k - 1 more. */
  lemma IncrementNWrapsStep(s: seq<bv8>, k: nat, q1: nat) returns (q: nat)
    requires k > 0
    requires BigEndian(IncrementN(Increment(s), k - 1)) + Multiple(q1, Pow256(|s|)) == BigEndian(Increment(s)) + k - 1
    ensures BigEndian(IncrementN(s, k)) + Multiple(q, Pow256(|s|)) == BigEndian(s) + k
  {
    var x, m := BigEndian(s), Pow256(|s|);
    assert IncrementN(s, k) == IncrementN(Increment(s), k - 1);
    IncrementCarry(s);
    if x + 1 == m {
      q := q1 + 1;
      assert Multiple(q, m) == Multiple(q1, m) + m;
    } else {
      q := q1;
    }
  }

  /** k counter steps add k modulo 256^n. */
  lemma {:induction false} IncrementNValue(s: seq<bv8>, k: nat)
    ensures BigEndian(IncrementN(s, k)) == (BigEndian(s) + k) % Pow256(|s|)
  {
    var q := IncrementNWraps(s, k);
    MultipleIsProduct(q, Pow256(|s|));
    ModUnique(BigEndian(s) + k, Pow256(|s|), q, BigEndian(IncrementN(s, k)));
  }

  /** After 256^n steps an n-byte counter is back where it started. */
  lemma {:induction false} CounterCycle(s: seq<bv8>)
    ensures IncrementN(s, Pow256(|s|)) == s
  {
    var m := Pow256(|s|);
    var t := IncrementN(s, m);
    var v := BigEndian(s);
    IncrementNValue(s, m);
    assert BigEndian(t) == (v + m) % m;
    ModUnique(v + m, m, 1, v);
    BigEndianInjective(t, s);
  }

  /** ... and not sooner: the cycle length is exactly 256^n. */
  lemma {:induction false} CounterPeriodExact(s: seq<bv8>, k: nat)
    requires 0 < k < Pow256(|s|)
    ensures IncrementN(s, k) != s
  {
    var m := Pow256(|s|);
    IncrementNValue(s, k);
    if BigEndian(s) + k < m {
      ModUnique(BigEndian(s) + k, m, 0, BigEndian(s) + k);
    } else {
      ModUnique(BigEndian(s) + k, m, 1, BigEndian(s) + k - m);
    }
  }

  /** Counters that are a whole cycle apart coincide. */
  lemma {:induction false} CounterPeriodic(s: seq<bv8>, i: nat)
    ensures IncrementN(s, Pow256(|s|) + i) == IncrementN(s, i)
  {
    var m := Pow256(|s|);
    IncrementNValue(s, m + i);
    IncrementNValue(s, i);
    ModAdd(BigEndian(s) + i, m, m);
    ModUnique(m, m, 1, 0);
    ModAdd(m, BigEndian(s) + i, m);
    BigEndianInjective(IncrementN(s, m + i), IncrementN(s, i));
  }
}
