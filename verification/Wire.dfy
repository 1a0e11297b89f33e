// The wire format as functions on byte sequences: base-128 varints, zigzag and
// fixed-width integers, tags, length-delimited payloads and skipping.  A decoder
// maps the unread bytes to a value and the bytes that remain.
module Wire {
  import opened Bits

  type byte = b: int | 0 <= b < 256

  datatype Option<+T> = None | Some(value: T)

  /** Outcome of a decoder: failure, or a value and the unread rest of the input. */
  datatype Parsed<+T> = Fail | Got(value: T, rest: seq<byte>)

  /** A decoder that accepted s behaves the same, up to trailing input, on s + t. */
  predicate Extends<T(==)>(short: Parsed<T>, long: Parsed<T>, t: seq<byte>)
  {
    short.Got? ==> long == Got(short.value, short.rest + t)
  }

  // Wire types
  const WT_VARINT := 0
  const WT_64BIT := 1
  const WT_STRING := 2
  const WT_32BIT := 5

  // ---------------------------------------------------------------- varints

  /** Number of bytes of the varint at the front of s; 0 if it does not end in s. */
  function VarintLen(s: seq<byte>): (n: nat)
    ensures n <= |s|
  {
    if s == [] then 0
    else if s[0] < 128 then 1
    else
      var n := VarintLen(s[1..]);
      if n == 0 then 0 else n + 1
  }

  /** Little-endian value of the 7-bit groups of s. */
  function Base128(s: seq<byte>): nat
  {
    if s == [] then 0 else s[0] % 128 + 128 * Base128(s[1..])
  }

  function EncVarint(v: nat): (s: seq<byte>)
    ensures |s| >= 1
  {
    if v < 128 then [v] else [v % 128 + 128] + EncVarint(v / 128)
  }

  /** A 64-bit varint: at most ten bytes, bits above 2^64 dropped. */
  function DecVarint(s: seq<byte>): (r: Parsed<nat>)
    ensures r.Got? ==> |r.rest| < |s| && r.value < TWO_64
  {
    var n := VarintLen(s);
    if n == 0 || n > 10 then Fail else Got(Base128(s[..n]) % TWO_64, s[n..])
  }

  /** A 32-bit varint, with the tolerance for sign extension of the C decoder. */
  function DecVarint32(s: seq<byte>): (r: Parsed<nat>)
    ensures r.Got? ==> |r.rest| < |s| && r.value < TWO_32
  {
    if s == [] then Fail
    else if s[0] < 128 then Got(s[0], s[1..])
    else DecVarint32More(s[1..], 7, s[0] % 128)
  }

  /** One byte of the multi-byte case: the accumulated result, or None on overflow. */
  function Varint32Step(b: byte, bitpos: nat, result: nat): (r: Option<nat>)
    requires result < TWO_32
    ensures r.Some? ==> r.value < TWO_32
  {
    if bitpos >= 32 then
      var signExtension := if bitpos < 63 then 0xFF else 0x01;
      if b % 128 != 0 && (result / 0x8000_0000 == 0 || b != signExtension) then None
      else Some(result)
    else
      Pow2Constants();
      OrBound(result, ((b % 128) * Pow2(bitpos)) % TWO_32, 32);
      Some(Or(result, ((b % 128) * Pow2(bitpos)) % TWO_32))
  }

  // The bit position is an 8-bit counter, so it wraps.
  function DecVarint32More(s: seq<byte>, bitpos: nat, result: nat): (r: Parsed<nat>)
    requires result < TWO_32
    ensures r.Got? ==> |r.rest| < |s| && r.value < TWO_32
  {
    if s == [] then Fail
    else
      match Varint32Step(s[0], bitpos, result)
      case None => Fail
      case Some(next) =>
        var bitpos' := (bitpos + 7) % 256;
        if s[0] >= 128 then DecVarint32More(s[1..], bitpos', next)
        else if bitpos' == 35 && s[0] / 16 % 8 != 0 then Fail
        else Got(next, s[1..])
  }

  // ---- 64-bit varints ----

  lemma {:induction false} EncVarintEnds(v: nat, t: seq<byte>)
    ensures VarintLen(EncVarint(v) + t) == |EncVarint(v)|
  {
    if v < 128 {
    } else {
      EncVarintEnds(v / 128, t);
      assert (EncVarint(v) + t)[1..] == EncVarint(v / 128) + t;
    }
  }

  lemma {:induction false} EncVarintValue(v: nat)
    ensures Base128(EncVarint(v)) == v
  {
    if v < 128 {
      assert EncVarint(v)[1..] == [];
    } else {
      EncVarintValue(v / 128);
      assert EncVarint(v)[1..] == EncVarint(v / 128);
    }
  }

  lemma {:induction false} EncVarintLength(v: nat, k: nat)
    requires k >= 1
    ensures |EncVarint(v)| <= k <==> v < Pow2(7 * k)
  {
    hide Pow2;
    Pow2Constants();
    if k == 1 {
      assert v >= 128 ==> |EncVarint(v / 128)| >= 1;
    } else {
      Pow2Add(7, 7 * (k - 1));
      assert 7 + 7 * (k - 1) == 7 * k;
      var p := Pow2(7 * (k - 1));
      assert v / 128 < p <==> v < 128 * p;
      if v < 128 {
        Pow2Monotone(7, 7 * k);
      } else {
        EncVarintLength(v / 128, k - 1);
      }
    }
  }

  // Section "Base 128 Varints": decoding inverts encoding on every 64-bit value,
  // takes 1 to 10 bytes and leaves trailing input alone.
  lemma {:induction false} VarintRoundTrip(v: nat, t: seq<byte>)
    requires v < TWO_64
    ensures DecVarint(EncVarint(v) + t) == Got(v, t)
    ensures 1 <= |EncVarint(v)| <= 10
  {
    EncVarintEnds(v, t);
    EncVarintValue(v);
    EncVarintAtMostTen(v);
    var e := EncVarint(v);
    assert (e + t)[..|e|] == e && (e + t)[|e|..] == t;
  }

  lemma {:induction false} EncVarintAtMostTen(v: nat)
    requires v < TWO_64
    ensures |EncVarint(v)| <= 10
  {
    Pow2Table();
    Pow2Add(63, 7);
    EncVarintLength(v, 10);
  }

  lemma {:induction false} Base128Bound(s: seq<byte>)
    ensures Base128(s) < Pow2(7 * |s|)
  {
    if s == [] {
    } else {
      Base128Bound(s[1..]);
      Pow2Constants();
      Pow2Add(7, 7 * |s[1..]|);
      assert 7 + 7 * |s[1..]| == 7 * |s|;
    }
  }

  // No shorter nonempty byte sequence denotes the same value.
  lemma {:induction false} VarintMinimal(v: nat, s: seq<byte>)
    requires |s| >= 1 && Base128(s) == v
    ensures |EncVarint(v)| <= |s|
  {
    Base128Bound(s);
    EncVarintLength(v, |s|);
  }

  lemma {:induction false} VarintLenExtends(s: seq<byte>, t: seq<byte>)
    requires VarintLen(s) != 0
    ensures VarintLen(s + t) == VarintLen(s)
  {
    if s[0] < 128 {
    } else {
      VarintLenExtends(s[1..], t);
      assert (s + t)[1..] == s[1..] + t;
    }
  }

  lemma {:induction false} DecVarintExtends(s: seq<byte>, t: seq<byte>)
    ensures Extends(DecVarint(s), DecVarint(s + t), t)
  {
    var n := VarintLen(s);
    if n != 0 {
      VarintLenExtends(s, t);
      assert (s + t)[..n] == s[..n] && (s + t)[n..] == s[n..] + t;
    }
  }

  lemma {:induction false} DecVarint32MoreExtends(s: seq<byte>, t: seq<byte>, bitpos: nat, result: nat)
    requires result < TWO_32
    ensures Extends(DecVarint32More(s, bitpos, result), DecVarint32More(s + t, bitpos, result), t)
  {
    if s == [] {
    } else {
      assert (s + t)[1..] == s[1..] + t;
      var next := Varint32Step(s[0], bitpos, result);
      if next.Some? && s[0] >= 128 {
        DecVarint32MoreExtends(s[1..], t, (bitpos + 7) % 256, next.value);
      }
    }
  }

  lemma {:induction false} DecVarint32Extends(s: seq<byte>, t: seq<byte>)
    ensures Extends(DecVarint32(s), DecVarint32(s + t), t)
  {
    if s != [] {
      assert (s + t)[1..] == s[1..] + t;
      DecVarint32MoreExtends(s[1..], t, 7, s[0] % 128);
    }
  }

  /** The first byte of s without continuation bit is at index n. */
  predicate EndsAt(s: seq<byte>, n: nat)
  {
    n < |s| && s[n] < 128 && forall k :: 0 <= k < n ==> s[k] >= 128
  }

  lemma {:induction false} VarintLenMeaning(s: seq<byte>)
    ensures VarintLen(s) == 0 <==> forall k :: 0 <= k < |s| ==> s[k] >= 128
    ensures VarintLen(s) != 0 ==> EndsAt(s, VarintLen(s) - 1)
  {
    if s == [] || s[0] < 128 {
    } else {
      VarintLenMeaning(s[1..]);
      assert forall k :: 1 <= k < |s| ==> s[k] == s[1..][k - 1];
    }
  }

  lemma {:induction false} EndsOnce(s: seq<byte>, n: nat)
    requires EndsAt(s, n)
    ensures VarintLen(s) == n + 1
  {
    VarintLenMeaning(s);
    assert s[n] < 128;
  }

  // A 64-bit varint is accepted exactly when one of the first ten bytes ends it.
  lemma {:induction false} VarintAccepted(s: seq<byte>)
    ensures DecVarint(s).Got? <==> exists n :: 0 <= n < 10 && EndsAt(s, n)
    ensures forall n :: 0 <= n < 10 && EndsAt(s, n) ==> DecVarint(s) == Got(Base128(s[..n + 1]) % TWO_64, s[n + 1..])
  {
    VarintLenMeaning(s);
    forall n: nat | EndsAt(s, n)
      ensures VarintLen(s) == n + 1
    {
      EndsOnce(s, n);
    }
  }

  // Section "Base 128 Varints": groups of seven bits, the lowest first, and the
  // continuation bit in every byte but the last.
  lemma {:induction false} VarintGroups(v: nat, i: nat)
    requires i < |EncVarint(v)|
    ensures EncVarint(v)[i] % 128 == v / Pow2(7 * i) % 128
    ensures EncVarint(v)[i] >= 128 <==> i < |EncVarint(v)| - 1
    decreases i
  {
    if i == 0 {
      Pow2Zero();
    } else {
      VarintGroups(v / 128, i - 1);
      ShiftStep(v, 7, i);
      Pow2Constants();
      hide Pow2;
      assert EncVarint(v)[i] == EncVarint(v / 128)[i - 1];
    }
  }

  lemma {:induction false} ShiftStep(v: nat, w: nat, i: nat)
    requires i >= 1
    ensures v / Pow2(w) / Pow2(w * (i - 1)) == v / Pow2(w * i)
  {
    hide Pow2;
    Pow2Add(w, w * (i - 1));
    assert w + w * (i - 1) == w * i;
    DivTwice(v, Pow2(w), Pow2(w * (i - 1)));
  }

  lemma {:induction false} DivTwice(v: nat, a: int, b: int)
    requires a >= 1 && b >= 1
    ensures v / a / b == v / (a * b)
  {
    var q, r := v / a, v % a;
    var q', r' := q / b, q % b;
    assert v == q * a + r && q == q' * b + r';
    Regroup(q', b, r', a);
    SmallProduct(r', b, a);
    DivModUnique(v, a * b, q', r' * a + r);
  }

  lemma {:induction false} Regroup(q: int, b: int, r: int, a: int)
    ensures (q * b + r) * a == q * (a * b) + r * a
  {
    assert q * b * a == q * (a * b);
  }

  lemma {:induction false} SmallProduct(r: int, b: int, a: int)
    requires 0 <= r <= b - 1 && a >= 1
    ensures 0 <= r * a <= a * b - a
  {
    if r == 0 {
      assert a * (b - 1) == a * b - a;
      Nonnegative(a, b - 1);
    } else {
      SmallProduct(r - 1, b - 1, a);
      assert r * a == (r - 1) * a + a;
      assert a * (b - 1) == a * b - a;
    }
  }

  lemma {:induction false} Nonnegative(a: nat, b: nat)
    ensures a * b >= 0
  {
  }

  // ---- the 32-bit decoder on what the encoder emits ----

  /** The k-th 7-bit group of v. */
  function Group(v: nat, k: nat): (g: nat)
    ensures g < 128
  {
    v / Pow2(7 * k) % 128
  }

  /** The 64-bit values that the 32-bit decoder accepts when they arrive minimally encoded. */
  predicate Fits32(v: nat)
  {
    v < TWO_32
    || (v >= 0x8000_0000_0000_0000
        && v / 0x8000_0000 % 2 == 1
        && forall k :: 5 <= k <= 8 ==> Group(v, k) == 0 || Group(v, k) == 127)
  }

  lemma {:induction false} EncVarintHead(v: nat, t: seq<byte>)
    ensures var s := EncVarint(v) + t;
      && s[0] == (if v < 128 then v else v % 128 + 128)
      && s[0] % 128 == v % 128
      && s[1..] == if v < 128 then t else EncVarint(v / 128) + t
  {
    var b := if v < 128 then v else v % 128 + 128;
    var more := if v < 128 then [] else EncVarint(v / 128);
    assert EncVarint(v) == [b] + more;
    hide EncVarint;
    assert b % 128 == v % 128;
    assert [b] + more + t == [b] + (more + t);
    assert [] + t == t;
  }

  lemma {:induction false} GroupBound(g: nat, bitpos: nat, low: nat)
    requires bitpos + 7 <= 32 && low < Pow2(bitpos) && g < 128
    ensures 0 <= g * Pow2(bitpos) <= low + g * Pow2(bitpos) < Pow2(bitpos + 7) <= TWO_32
  {
    Pow2Add(bitpos, 7);
    Pow2Monotone(bitpos + 7, 32);
    Pow2Constants();
    ProductBound(g, Pow2(bitpos));
  }

  lemma {:induction false} ProductBound(g: nat, p: nat)
    requires g < 128
    ensures 0 <= g * p <= 127 * p
  {
  }

  lemma {:induction false} SmallMod(x: nat)
    requires x < TWO_32
    ensures x % TWO_32 == x
  {
  }

  // Where the whole group fits below bit 32 it is added in.
  lemma {:induction false} StepLow(b: byte, bitpos: nat, low: nat)
    requires bitpos + 7 <= 32 && low < Pow2(bitpos)
    requires low < TWO_32
    ensures Varint32Step(b, bitpos, low) == Some(low + b % 128 * Pow2(bitpos))
    ensures low + b % 128 * Pow2(bitpos) < Pow2(bitpos + 7) <= TWO_32
  {
    var g := b % 128;
    GroupBound(g, bitpos, low);
    OrDisjoint(low, g, bitpos);
    SmallMod(g * Pow2(bitpos));
  }

  // At bit 28 only the low four bits of the group fit.
  lemma {:induction false} StepTop(b: byte, low: nat)
    requires low < 0x1000_0000
    ensures Varint32Step(b, 28, low) == Some(low + b % 16 * 0x1000_0000)
  {
    hide Or, Pow2;
    Pow2Table();
    TopGroup(b % 128);
    assert b % 128 % 16 == b % 16;
    OrDisjoint(low, b % 16, 28);
  }

  lemma {:induction false} TopGroup(g: nat)
    requires g < 128
    ensures g * 0x1000_0000 % TWO_32 == g % 16 * 0x1000_0000
  {
  }

  // One byte of the multi-byte loop, at bit positions 7, 14 and 21.
  lemma {:induction false} Varint32Low(v: nat, bitpos: nat, low: nat, t: seq<byte>)
    requires 7 <= bitpos <= 21 && low < Pow2(bitpos)
    requires low < TWO_32
    ensures var low' := low + v % 128 * Pow2(bitpos);
      && low' < TWO_32
      && DecVarint32More(EncVarint(v) + t, bitpos, low)
         == (if v < 128 then Got(low', t)
             else DecVarint32More(EncVarint(v / 128) + t, bitpos + 7, low'))
  {
    hide EncVarint, Varint32Step, Pow2;
    EncVarintHead(v, t);
    StepLow((EncVarint(v) + t)[0], bitpos, low);
    hide DecVarint32;
  }

  lemma {:induction false} Varint32Top(v: nat, low: nat, t: seq<byte>)
    requires low < 0x1000_0000
    ensures var low' := low + v % 16 * 0x1000_0000;
      && low' < TWO_32
      && DecVarint32More(EncVarint(v) + t, 28, low)
         == (if v < 16 then Got(low', t) else if v < 128 then Fail
             else DecVarint32More(EncVarint(v / 128) + t, 35, low'))
  {
    hide Varint32Step, EncVarint, Pow2;
    EncVarintHead(v, t);
    var s := EncVarint(v) + t;
    StepTop(s[0], low);
    FifthByte(v, s[0]);
  }

  lemma {:induction false} FifthByte(v: nat, b: byte)
    requires b == if v < 128 then v else v % 128 + 128
    ensures b % 16 == v % 16
    ensures b >= 128 <==> v >= 128
    ensures v < 128 ==> (b / 16 % 8 == 0 <==> v < 16)
  {
  }

  /** What the decoder requires of the groups from position k (5 <= k <= 9) upwards. */
  predicate HighGroups(v: nat, k: nat, bit31: bool)
    decreases 9 - k
  {
    if k >= 9 then v == 0 || (v == 1 && bit31)
    else if v < 128 then v == 0
    else (v % 128 == 0 || (v % 128 == 127 && bit31)) && HighGroups(v / 128, k + 1, bit31)
  }

  lemma {:induction false} NextGroupBound(v: nat, k: nat)
    requires k <= 9 && v < Pow2(7 * (10 - k))
    ensures v / 128 < Pow2(7 * (9 - k))
  {
    Pow2Add(7, 7 * (9 - k));
    Pow2Constants();
  }

  lemma {:induction false} StepHigh(b: byte, bitpos: nat, low: nat)
    requires 32 <= bitpos && low < TWO_32
    ensures Varint32Step(b, bitpos, low)
         == if b % 128 == 0 || (low >= 0x8000_0000 && b == if bitpos < 63 then 0xFF else 0x01)
            then Some(low) else None
  {
  }

  lemma {:induction false} Varint32High(v: nat, k: nat, low: nat, t: seq<byte>)
    requires 5 <= k <= 9 && low < TWO_32
    requires v < Pow2(7 * (10 - k))
    ensures DecVarint32More(EncVarint(v) + t, 7 * k, low)
         == if HighGroups(v, k, low >= 0x8000_0000) then Got(low, t) else Fail
    decreases 9 - k
  {
    hide EncVarint, Varint32Step, Pow2;
    EncVarintHead(v, t);
    StepHigh((EncVarint(v) + t)[0], 7 * k, low);
    if k < 9 {
      NextGroupBound(v, k);
    } else {
      Pow2Constants();
    }
    if k < 9 && v >= 128 {
      Varint32High(v / 128, k + 1, low, t);
    }
  }

  // 32-bit decoding of any minimally encoded 64-bit value.
  lemma {:induction false} Varint32OnEncoded(v: nat, t: seq<byte>)
    requires v < TWO_64
    ensures DecVarint32(EncVarint(v) + t) == if Fits32(v) then Got(v % TWO_32, t) else Fail
  {
    hide DecVarint32, EncVarint, HighGroups, Group;
    Varint32Chain(v, t);
    if v >= 0x8_0000_0000 {
      HighGroupsMeaning(v);
    } else if v < TWO_32 {
      SmallMod(v);
    }
  }

  lemma {:induction false} Varint32Small(v: nat, t: seq<byte>)
    requires v < TWO_32
    ensures DecVarint32(EncVarint(v) + t) == Got(v, t)
  {
    hide DecVarint32, EncVarint, Group;
    Varint32OnEncoded(v, t);
    SmallMod(v);
  }

  // Values between 2^32 and 2^63 are reported as overflow ...
  lemma {:induction false} Varint32Overflows(v: nat, t: seq<byte>)
    requires TWO_32 <= v < 0x8000_0000_0000_0000
    ensures DecVarint32(EncVarint(v) + t) == Fail
  {
    hide DecVarint32, EncVarint, Group;
    Varint32OnEncoded(v, t);
  }

  // ... while a negative 32-bit number sign-extended to 64 bits yields its low 32 bits.
  lemma {:induction false} Varint32SignExtended(n: int, t: seq<byte>)
    requires -0x8000_0000 <= n < 0
    ensures DecVarint32(EncVarint(n + TWO_64) + t) == Got(n + TWO_32, t)
  {
    hide DecVarint32, EncVarint, Group;
    var v := n + TWO_64;
    GroupTable(v);
    HighOnes(n);
    Varint32OnEncoded(v, t);
  }

  lemma {:induction false} HighOnes(n: int)
    requires -0x8000_0000 <= n < 0
    ensures var v := n + TWO_64;
      && v % TWO_32 == n + TWO_32 && v / 0x8000_0000 % 2 == 1
      && v / 0x8_0000_0000 == 0x1FFF_FFFF
  {
  }

  lemma {:induction false} Varint32Chain(v: nat, t: seq<byte>)
    requires v < TWO_64
    ensures v < 0x8_0000_0000 ==>
      DecVarint32(EncVarint(v) + t) == if v < TWO_32 then Got(v, t) else Fail
    ensures v >= 0x8_0000_0000 ==>
      DecVarint32(EncVarint(v) + t) ==
      if HighGroups(v / 0x8_0000_0000, 5, v % TWO_32 >= 0x8000_0000) then Got(v % TWO_32, t) else Fail
  {
    hide DecVarint32More, EncVarint, HighGroups, Varint32Step, Pow2;
    EncVarintHead(v, t);
    if v >= 128 {
      Varint32Three(v, t);
      if v >= 0x1000_0000 {
        var v4 := v / 0x1000_0000;
        Varint32Top(v4, v % 0x1000_0000, t);
        LowWord(v);
        if v >= 0x8_0000_0000 {
          HighValue(v);
          Varint32High(v4 / 128, 5, v % TWO_32, t);
        }
      }
    }
  }

  lemma {:induction false} LowWord(v: nat)
    ensures v % 0x1000_0000 + v / 0x1000_0000 % 16 * 0x1000_0000 == v % TWO_32
    ensures v / 0x1000_0000 < 16 <==> v < TWO_32
    ensures v / 0x1000_0000 < 128 <==> v < 0x8_0000_0000
    ensures v / 0x1000_0000 / 128 == v / 0x8_0000_0000
  {
  }

  lemma {:induction false} HighValue(v: nat)
    requires v < TWO_64
    ensures v / 0x8_0000_0000 < Pow2(7 * 5)
  {
    Pow2Table();
  }

  // The bytes at bit positions 7 to 21.
  lemma {:induction false} Varint32Three(v: nat, t: seq<byte>)
    requires v >= 128
    ensures DecVarint32More(EncVarint(v / 128) + t, 7, v % 128)
         == if v < 0x1000_0000 then Got(v, t)
            else DecVarint32More(EncVarint(v / 0x1000_0000) + t, 28, v % 0x1000_0000)
  {
    hide DecVarint32More, EncVarint;
    NextGroup(v, 0x80);
    NextGroup(v, 0x4000);
    NextGroup(v, 0x20_0000);
    ThreeGroups(v, [v / 0x80, v / 0x4000, v / 0x20_0000, v / 0x1000_0000],
                [v % 0x80, v % 0x4000, v % 0x20_0000, v % 0x1000_0000], t);
  }

  // hi and lo hold the quotients and remainders of v by 2^7, 2^14, 2^21 and 2^28.
  lemma {:induction false} ThreeGroups(v: nat, hi: seq<nat>, lo: seq<nat>, t: seq<byte>)
    requires |hi| == |lo| == 4
    requires hi[0] / 128 == hi[1] && hi[1] / 128 == hi[2] && hi[2] / 128 == hi[3]
    requires lo[0] < 0x80 && lo[1] < 0x4000 && lo[2] < 0x20_0000 && lo[3] < 0x1000_0000
    requires lo[0] + hi[0] % 128 * 0x80 == lo[1] && lo[1] + hi[1] % 128 * 0x4000 == lo[2]
    requires lo[2] + hi[2] % 128 * 0x20_0000 == lo[3]
    requires hi[0] < 128 ==> lo[1] == v
    requires hi[1] < 128 ==> lo[2] == v
    requires hi[2] < 128 ==> lo[3] == v
    requires hi[2] < 128 <==> v < 0x1000_0000
    requires hi[0] < 128 || hi[1] < 128 ==> v < 0x1000_0000
    ensures DecVarint32More(EncVarint(hi[0]) + t, 7, lo[0])
         == if v < 0x1000_0000 then Got(v, t) else DecVarint32More(EncVarint(hi[3]) + t, 28, lo[3])
  {
    hide DecVarint32More, EncVarint;
    Pow2Table();
    hide Pow2;
    Varint32Low(hi[0], 7, lo[0], t);
    if hi[0] >= 128 {
      Varint32Low(hi[1], 14, lo[1], t);
      if hi[1] >= 128 {
        Varint32Low(hi[2], 21, lo[2], t);
      }
    }
  }

  lemma {:induction false} NextGroup(v: nat, m: nat)
    requires m >= 1
    ensures v / m / 128 == v / (128 * m)
    ensures v % m + v / m % 128 * m == v % (128 * m)
    ensures v / m < 128 <==> v < 128 * m
    ensures v < 128 * m ==> v % (128 * m) == v
  {
    var q, g := v / m / 128, v / m % 128;
    var r := v % m + g * m;
    assert v == q * (128 * m) + r by {
      assert v == (v / m) * m + v % m && v / m == 128 * q + g;
      assert (128 * q + g) * m == q * (128 * m) + g * m;
    }
    ProductBound(g, m);
    DivModUnique(v, 128 * m, q, r);
    assert v < 128 * m <==> q == 0 by {
      MulOutside(q, 128 * m);
    }
  }

  lemma {:induction false} DivModUnique(x: int, m: int, q: int, r: int)
    requires 0 <= r < m && x == q * m + r
    ensures x % m == r && x / m == q
  {
    ModUnique(x, m, q, r);
    assert (x / m - q) * m == 0;
    MulOutside(x / m - q, m);
  }

  lemma {:induction false} Pow2Table()
    ensures Pow2(7) == 0x80 && Pow2(14) == 0x4000 && Pow2(21) == 0x20_0000 && Pow2(28) == 0x1000_0000
    ensures Pow2(35) == 0x8_0000_0000 && Pow2(42) == 0x400_0000_0000
    ensures Pow2(49) == 0x2_0000_0000_0000 && Pow2(56) == 0x100_0000_0000_0000
    ensures Pow2(63) == 0x8000_0000_0000_0000
  {
    Pow2Constants();
    Pow2Add(7, 7);
    Pow2Add(14, 7);
    Pow2Add(21, 7);
    Pow2Add(28, 7);
    Pow2Add(35, 7);
    Pow2Add(42, 7);
    Pow2Add(49, 7);
    Pow2Add(56, 7);
  }

  lemma {:induction false} HighGroupsMeaning(v: nat)
    requires 0x8_0000_0000 <= v < TWO_64
    ensures HighGroups(v / 0x8_0000_0000, 5, v % TWO_32 >= 0x8000_0000) <==> Fits32(v)
  {
    hide HighGroups, Group, Pow2;
    var w := v / 0x8_0000_0000;
    GroupTable(v);
    LowHalf(v);
    TopBit(v);
    HighGroupsUnrolled(w, v % TWO_32 >= 0x8000_0000);
  }

  lemma {:induction false} LowHalf(v: nat)
    ensures v % TWO_32 >= 0x8000_0000 <==> v / 0x8000_0000 % 2 == 1
  {
  }

  lemma {:induction false} TopBit(v: nat)
    requires 0x8_0000_0000 <= v < TWO_64
    ensures 1 <= v / 0x8_0000_0000 < 0x2000_0000
    ensures v >= 0x8000_0000_0000_0000 <==> v / 0x8_0000_0000 / 0x1000_0000 == 1
  {
  }

  lemma {:induction false} GroupTable(v: nat)
    ensures Group(v, 5) == v / 0x8_0000_0000 % 128
    ensures Group(v, 6) == v / 0x8_0000_0000 / 0x80 % 128
    ensures Group(v, 7) == v / 0x8_0000_0000 / 0x4000 % 128
    ensures Group(v, 8) == v / 0x8_0000_0000 / 0x20_0000 % 128
  {
    Pow2Table();
    assert v / 0x400_0000_0000 == v / 0x8_0000_0000 / 0x80;
    assert v / 0x2_0000_0000_0000 == v / 0x8_0000_0000 / 0x4000;
    assert v / 0x100_0000_0000_0000 == v / 0x8_0000_0000 / 0x20_0000;
  }

  lemma {:induction false} HighGroupsUnrolled(w: nat, b: bool)
    requires 1 <= w < 0x2000_0000
    ensures HighGroups(w, 5, b) <==>
      && w / 0x1000_0000 == 1 && b
      && (w % 128 == 0 || w % 128 == 127)
      && (w / 0x80 % 128 == 0 || w / 0x80 % 128 == 127)
      && (w / 0x4000 % 128 == 0 || w / 0x4000 % 128 == 127)
      && (w / 0x20_0000 % 128 == 0 || w / 0x20_0000 % 128 == 127)
  {
    var w6, w7, w8, w9 := w / 0x80, w / 0x4000, w / 0x20_0000, w / 0x1000_0000;
    assert w6 == w / 128 && w7 == w6 / 128 && w8 == w7 / 128 && w9 == w8 / 128;
    assert HighGroups(w9, 9, b) == (w9 == 0 || (w9 == 1 && b));
    assert w9 <= 1;
    HighGroupsStep(w8, 8, b);
    HighGroupsStep(w7, 7, b);
    HighGroupsStep(w6, 6, b);
    HighGroupsStep(w, 5, b);
  }

  // A nonzero value needs its top group to be reached.
  lemma {:induction false} HighGroupsStep(v: nat, k: nat, bit31: bool)
    requires k < 9
    ensures HighGroups(v, k, bit31) ==
      (if v < 128 then v == 0
       else (v % 128 == 0 || (v % 128 == 127 && bit31)) && HighGroups(v / 128, k + 1, bit31))
  {
  }

  // ---------------------------------------------------------------- zigzag and fixed width

  function ZigZag(n: int): (v: nat)
  {
    if n < 0 then -2 * n - 1 else 2 * n
  }

  function UnZigZag(v: nat): int
  {
    if v % 2 == 1 then -(v / 2) - 1 else v / 2
  }

  // Section "Signed Integers".
  lemma {:induction false} ZigZagRoundTrip(n: int)
    ensures UnZigZag(ZigZag(n)) == n
    ensures -0x8000_0000_0000_0000 <= n < 0x8000_0000_0000_0000 <==> ZigZag(n) < TWO_64
  {
  }

  // Consecutive codes stand for 0, -1, 1, -2, 2 and so on.
  lemma {:induction false} ZigZagEnumerates(v: nat)
    ensures UnZigZag(0) == 0
    ensures UnZigZag(v + 1) == if UnZigZag(v) >= 0 then -UnZigZag(v) - 1 else -UnZigZag(v)
  {
  }

  function LittleEndian(v: nat, k: nat): (s: seq<byte>)
    ensures |s| == k
  {
    if k == 0 then [] else [v % 256] + LittleEndian(v / 256, k - 1)
  }

  function FromLittleEndian(s: seq<byte>): (v: nat)
    ensures v < Pow2(8 * |s|)
  {
    if s == [] then 0
    else
      Pow2Constants();
      Pow2Add(8, 8 * |s[1..]|);
      assert 8 + 8 * |s[1..]| == 8 * |s|;
      s[0] + 256 * FromLittleEndian(s[1..])
  }

  lemma {:induction false} LittleEndianRoundTrip(v: nat, k: nat)
    requires v < Pow2(8 * k)
    ensures FromLittleEndian(LittleEndian(v, k)) == v
  {
    if k == 0 {
    } else {
      Pow2Constants();
      Pow2Add(8, 8 * (k - 1));
      assert 8 + 8 * (k - 1) == 8 * k;
      LittleEndianRoundTrip(v / 256, k - 1);
      assert LittleEndian(v, k)[1..] == LittleEndian(v / 256, k - 1);
    }
  }

  // The byte at index i holds bits 8 * i to 8 * i + 7.
  lemma {:induction false} LittleEndianBytes(v: nat, k: nat, i: nat)
    requires i < k
    ensures LittleEndian(v, k)[i] == v / Pow2(8 * i) % 256
    decreases i
  {
    if i == 0 {
      Pow2Zero();
    } else {
      LittleEndianBytes(v / 256, k - 1, i - 1);
      ShiftStep(v, 8, i);
      Pow2Constants();
      hide Pow2;
      assert LittleEndian(v, k)[i] == LittleEndian(v / 256, k - 1)[i - 1];
    }
  }

  function DecFixed(s: seq<byte>, k: nat): (r: Parsed<nat>)
    ensures r.Got? ==> |r.rest| + k == |s|
  {
    if |s| < k then Fail else Got(FromLittleEndian(s[..k]), s[k..])
  }

  lemma {:induction false} FixedRoundTrip(v: nat, k: nat, t: seq<byte>)
    requires v < Pow2(8 * k)
    ensures DecFixed(LittleEndian(v, k) + t, k) == Got(v, t)
  {
    var e := LittleEndian(v, k);
    assert (e + t)[..k] == e && (e + t)[k..] == t;
    LittleEndianRoundTrip(v, k);
  }

  lemma {:induction false} DecFixedExtends(s: seq<byte>, k: nat, t: seq<byte>)
    ensures Extends(DecFixed(s, k), DecFixed(s + t, k), t)
  {
    if |s| >= k {
      assert (s + t)[..k] == s[..k] && (s + t)[k..] == s[k..] + t;
    }
  }

  // ---------------------------------------------------------------- length-delimited data

  function LenPrefixed(b: seq<byte>): (s: seq<byte>)
    ensures |s| > |b|
  {
    EncVarint(|b|) + b
  }

  /** Split off the bytes of a length-limited substream. */
  function DecPayload(s: seq<byte>): (r: Parsed<seq<byte>>)
    ensures r.Got? ==> |r.rest| + |r.value| < |s|
  {
    match DecVarint32(s)
    case Fail => Fail
    case Got(len, rest) => if |rest| < len then Fail else Got(rest[..len], rest[len..])
  }

  lemma {:induction false} PayloadRoundTrip(b: seq<byte>, t: seq<byte>)
    requires |b| < TWO_32
    ensures DecPayload(LenPrefixed(b) + t) == Got(b, t)
  {
    assert LenPrefixed(b) + t == EncVarint(|b|) + (b + t);
    Varint32Small(|b|, b + t);
  }

  lemma {:induction false} DecPayloadExtends(s: seq<byte>, t: seq<byte>)
    ensures Extends(DecPayload(s), DecPayload(s + t), t)
  {
    DecVarint32Extends(s, t);
    match DecVarint32(s)
    case Fail =>
    case Got(len, rest) =>
      if |rest| >= len {
        assert (rest + t)[..len] == rest[..len] && (rest + t)[len..] == rest[len..] + t;
      }
  }

  // ---------------------------------------------------------------- tags and skipping

  function EncTag(wt: nat, tag: nat): (s: seq<byte>)
    ensures |s| >= 1
  {
    EncVarint(8 * tag + wt)
  }

  /** A tag, or the zero that ends a null-terminated message. */
  datatype TagInfo = Zero | Tag(tag: nat, wt: nat)

  function DecTag(s: seq<byte>): (r: Parsed<TagInfo>)
    ensures r.Got? ==> |r.rest| < |s|
    ensures r.Got? && r.value.Tag? ==> r.value.wt < 8 && (r.value.tag != 0 || r.value.wt != 0)
  {
    match DecVarint32(s)
    case Fail => Fail
    case Got(v, rest) => Got(if v == 0 then Zero else Tag(v / 8, v % 8), rest)
  }

  lemma {:induction false} TagRoundTrip(wt: nat, tag: nat, t: seq<byte>)
    requires 0 < tag < 0x2000_0000 && wt < 8
    ensures DecTag(EncTag(wt, tag) + t) == Got(Tag(tag, wt), t)
  {
    hide DecVarint32, EncVarint;
    Varint32Small(8 * tag + wt, t);
  }

  lemma {:induction false} DecTagExtends(s: seq<byte>, t: seq<byte>)
    ensures Extends(DecTag(s), DecTag(s + t), t)
  {
    DecVarint32Extends(s, t);
  }

  function SkipField(wt: nat, s: seq<byte>): (r: Parsed<()>)
    ensures r.Got? ==> |r.rest| < |s|
  {
    if wt == WT_VARINT then
      var n := VarintLen(s);
      if n == 0 then Fail else Got((), s[n..])
    else if wt == WT_64BIT then
      if |s| < 8 then Fail else Got((), s[8..])
    else if wt == WT_STRING then
      match DecPayload(s)
      case Fail => Fail
      case Got(_, rest) => Got((), rest)
    else if wt == WT_32BIT then
      if |s| < 4 then Fail else Got((), s[4..])
    else Fail
  }

  /** Skipping with the given wire type leaves rest; the wire types are numbers here. */
  ghost predicate Skips(wt: nat, s: seq<byte>, rest: seq<byte>)
  {
    match wt
    case 0 => exists n :: EndsAt(s, n) && rest == s[n + 1..]
    case 1 => |s| >= 8 && rest == s[8..]
    case 2 =>
      var len := DecVarint32(s);
      len.Got? && len.value <= |len.rest| && rest == len.rest[len.value..]
    case 5 => |s| >= 4 && rest == s[4..]
    case _ => false
  }

  // What each wire type means: up to the end of a varint, eight bytes, a length and that
  // many bytes, four bytes; the others are not skipped at all.
  lemma {:induction false} SkipMeaning(wt: nat, s: seq<byte>)
    ensures SkipField(wt, s).Got? <==> exists rest :: Skips(wt, s, rest)
    ensures SkipField(wt, s).Got? ==> Skips(wt, s, SkipField(wt, s).rest)
  {
    VarintLenMeaning(s);
    var r := SkipField(wt, s);
    if r.Got? {
      assert wt == 0 ==> EndsAt(s, VarintLen(s) - 1);
      assert Skips(wt, s, r.rest);
    }
  }

  lemma {:induction false} SkipsOnce(wt: nat, s: seq<byte>, rest: seq<byte>, rest': seq<byte>)
    requires Skips(wt, s, rest) && Skips(wt, s, rest')
    ensures rest == rest'
  {
    if wt == 0 {
      var n :| EndsAt(s, n) && rest == s[n + 1..];
      var n' :| EndsAt(s, n') && rest' == s[n' + 1..];
      EndsOnce(s, n);
      EndsOnce(s, n');
    }
  }

  lemma {:induction false} SkipFieldExtends(wt: nat, s: seq<byte>, t: seq<byte>)
    ensures Extends(SkipField(wt, s), SkipField(wt, s + t), t)
  {
    if wt == WT_VARINT {
      var n := VarintLen(s);
      if n != 0 {
        VarintLenExtends(s, t);
        assert (s + t)[n..] == s[n..] + t;
      }
    } else if wt == WT_64BIT {
      assert |s| >= 8 ==> (s + t)[8..] == s[8..] + t;
    } else if wt == WT_STRING {
      DecPayloadExtends(s, t);
    } else if wt == WT_32BIT {
      assert |s| >= 4 ==> (s + t)[4..] == s[4..] + t;
    }
  }
}
