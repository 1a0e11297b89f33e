// Machine-word arithmetic on natural numbers: powers of two, the bitwise OR,
// two's-complement reinterpretation, and words seen as sets of bits.
module Bits {

  function Pow2(k: nat): (p: int)
    ensures p >= 1
  {
    if k == 0 then 1 else 2 * Pow2(k - 1)
  }

  const TWO_8: nat := 0x100
  const TWO_16: nat := 0x1_0000
  const TWO_32: nat := 0x1_0000_0000
  const TWO_64: nat := 0x1_0000_0000_0000_0000

  lemma {:induction false} Pow2Zero()
    ensures Pow2(0) == 1
  {
  }

  lemma {:induction false} Pow2Constants()
    ensures Pow2(3) == 8 && Pow2(7) == 128 && Pow2(8) == TWO_8 && Pow2(16) == TWO_16
    ensures Pow2(32) == TWO_32 && Pow2(64) == TWO_64
  {
    assert Pow2(8) == TWO_8;
    Pow2Add(8, 8);
    Pow2Add(16, 16);
    Pow2Add(32, 32);
  }

  lemma {:induction false} Pow2Add(a: nat, b: nat)
    ensures Pow2(a + b) == Pow2(a) * Pow2(b)
  {
    if a == 0 {
    } else {
      Pow2Add(a - 1, b);
      calc {
        Pow2(a + b);
        2 * Pow2(a - 1 + b);
        2 * (Pow2(a - 1) * Pow2(b));
        (2 * Pow2(a - 1)) * Pow2(b);
      }
    }
  }

  lemma {:induction false} Pow2Monotone(a: nat, b: nat)
    requires a <= b
    ensures Pow2(a) <= Pow2(b)
  {
    if a == b {
    } else {
      Pow2Monotone(a, b - 1);
    }
  }

  /** Bitwise OR, bit by bit. */
  function Or(a: nat, b: nat): nat
  {
    if a == 0 && b == 0 then 0
    else 2 * Or(a / 2, b / 2) + (if a % 2 == 1 || b % 2 == 1 then 1 else 0)
  }

  lemma {:induction false} OrZero(b: nat)
    ensures Or(0, b) == b
  {
    if b == 0 {
    } else {
      OrZero(b / 2);
    }
  }

  // Words whose bits do not overlap are combined by addition.
  lemma {:induction false} OrDisjoint(a: nat, b: nat, k: nat)
    requires a < Pow2(k)
    ensures Or(a, b * Pow2(k)) == a + b * Pow2(k)
  {
    if k == 0 {
      OrZero(b);
    } else {
      var low, c := Pow2(k - 1), b * Pow2(k - 1);
      assert b * Pow2(k) == 2 * c by {
        assert b * (2 * low) == 2 * (b * low);
      }
      OrDisjoint(a / 2, b, k - 1);
      assert (2 * c) / 2 == c && (2 * c) % 2 == 0;
    }
  }

  lemma {:induction false} OrBound(a: nat, b: nat, k: nat)
    requires a < Pow2(k) && b < Pow2(k)
    ensures Or(a, b) < Pow2(k)
  {
    if k == 0 {
    } else {
      OrBound(a / 2, b / 2, k - 1);
    }
  }

  /** The value of the low `bits` bits of v read as a two's-complement number. */
  function ToSigned(v: int, bits: nat): int
    requires bits > 0
  {
    var w := v % Pow2(bits);
    if w < Pow2(bits - 1) then w else w - Pow2(bits)
  }

  lemma {:induction false} ToSignedInverts(n: int, bits: nat)
    requires bits > 0
    requires -Pow2(bits - 1) <= n < Pow2(bits - 1)
    ensures ToSigned(n, bits) == n
    ensures n % Pow2(bits) == if n < 0 then n + Pow2(bits) else n
  {
    if n < 0 {
      ModUnique(n, Pow2(bits), -1, n + Pow2(bits));
    } else {
      ModUnique(n, Pow2(bits), 0, n);
    }
  }

  /** Euclidean division determines the remainder. */
  lemma {:induction false} ModUnique(x: int, m: int, q: int, r: int)
    requires 0 <= r < m && x == q * m + r
    ensures x % m == r
  {
    var d := x / m - q;
    assert d * m == r - x % m by {
      assert x == (x / m) * m + x % m;
      assert d * m == (x / m) * m - q * m;
    }
    MulOutside(d, m);
  }

  lemma {:induction false} MulOutside(d: int, m: int)
    requires m >= 0
    ensures d >= 1 ==> d * m >= m
    ensures d <= -1 ==> d * m <= -m
  {
    assert d * m == (d - 1) * m + m == (d + 1) * m - m;
  }

  // ---- a word as the set of its bits ----

  /** The word whose bit i is set exactly for the members i < n of s. */
  function WordOf(s: set<nat>, n: nat): (w: nat)
    ensures w < Pow2(n)
  {
    if n == 0 then 0
    else WordOf(s, n - 1) + (if n - 1 in s then Pow2(n - 1) else 0)
  }

  lemma {:induction false} WordOfExtensional(s: set<nat>, t: set<nat>, n: nat)
    requires forall i: nat :: i < n ==> (i in s <==> i in t)
    ensures WordOf(s, n) == WordOf(t, n)
  {
    if n == 0 {
    } else {
      WordOfExtensional(s, t, n - 1);
    }
  }

  lemma {:induction false} DoubleProduct(x: nat, p: nat)
    ensures 0 <= x * p && x * (2 * p) == 2 * (x * p)
  {
  }

  // Each half of an OR can be taken apart at bit position k.
  lemma {:induction false} OrSplit(a: nat, b: nat, x: nat, y: nat, k: nat)
    requires a < Pow2(k) && b < Pow2(k)
    ensures Or(a + x * Pow2(k), b + y * Pow2(k)) == Or(a, b) + Or(x, y) * Pow2(k)
  {
    if k == 0 {
    } else {
      var p, o := Pow2(k - 1), Or(x, y);
      OrSplit(a / 2, b / 2, x, y, k - 1);
      DoubleProduct(x, p);
      DoubleProduct(y, p);
      DoubleProduct(o, p);
      OrDoubleStep(a, b, x * p, y * p, o * p);
    }
  }

  lemma {:induction false} OrDoubleStep(a: nat, b: nat, x: nat, y: nat, o: nat)
    requires Or(a / 2 + x, b / 2 + y) == Or(a / 2, b / 2) + o
    ensures Or(a + 2 * x, b + 2 * y) == Or(a, b) + 2 * o
  {
    OrUnfold(a, b);
    OrUnfold(a + 2 * x, b + 2 * y);
  }

  lemma {:induction false} OrUnfold(a: nat, b: nat)
    ensures Or(a, b) == 2 * Or(a / 2, b / 2) + (if a % 2 == 1 || b % 2 == 1 then 1 else 0)
  {
    if a == 0 && b == 0 {
      assert Or(0, 0) == 0;
    }
  }

  lemma {:induction false} OrOne(x: nat)
    requires x <= 1
    ensures Or(x, 1) == 1
  {
    OrUnfold(x, 1);
  }

  // Setting bit i with an OR adds i to the set of bits.
  lemma {:induction false} OrInsertsBit(s: set<nat>, i: nat, n: nat)
    requires i < n
    ensures Or(WordOf(s, n), Pow2(i)) == WordOf(s + {i}, n)
  {
    hide Or, Pow2;
    var p := Pow2(n - 1);
    var low := WordOf(s, n - 1);
    var x := if n - 1 in s then 1 else 0;
    assert WordOf(s, n) == low + x * p;
    if i == n - 1 {
      OrSplit(low, 0, x, 1, n - 1);
      OrCommutes(low, 0);
      OrZero(low);
      OrOne(x);
      assert 0 + 1 * p == Pow2(i);
      WordOfExtensional(s, s + {i}, n - 1);
    } else {
      Pow2Below(i, n - 1);
      OrSplit(low, Pow2(i), x, 0, n - 1);
      OrCommutes(x, 0);
      OrZero(x);
      OrInsertsBit(s, i, n - 1);
      assert Pow2(i) + 0 * p == Pow2(i);
    }
  }

  lemma {:induction false} Pow2Below(i: nat, n: nat)
    requires i < n
    ensures Pow2(i) < Pow2(n)
  {
    Pow2Monotone(i + 1, n);
  }

  lemma {:induction false} OrCommutes(a: nat, b: nat)
    ensures Or(a, b) == Or(b, a)
  {
    if a == 0 && b == 0 {
    } else {
      OrCommutes(a / 2, b / 2);
    }
  }

  // A word is all ones below n exactly when every i < n is in its set.
  lemma {:induction false} WordFull(s: set<nat>, n: nat)
    ensures WordOf(s, n) == Pow2(n) - 1 <==> (forall i: nat :: i < n ==> i in s)
  {
    if n == 0 {
    } else {
      WordFull(s, n - 1);
    }
  }

  // Bits above the members of s stay clear.
  lemma {:induction false} WordTruncates(s: set<nat>, n: nat, m: nat)
    requires n <= m
    requires forall i: nat :: i in s ==> i < n
    ensures WordOf(s, m) == WordOf(s, n)
  {
    if n == m {
    } else {
      WordTruncates(s, n, m - 1);
    }
  }
}
