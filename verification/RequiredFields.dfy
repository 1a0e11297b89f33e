// The bitset of required fields seen so far: two 32-bit words that stand for the
// members below 64 of a set.
module RequiredFields {
  import opened Bits
  import opened Wire
  import opened Descriptors

  /** The members of s that word w holds, as bit numbers. */
  function Window(s: set<nat>, w: nat): set<nat>
  {
    set k: nat | k < 32 && InWord(s, k, w)
  }

  predicate InWord(s: set<nat>, k: nat, w: nat)
  {
    k + 32 * w in s
  }

  /** The words represent the set. */
  ghost predicate Represents(words: seq<nat>, s: set<nat>)
  {
    |words| == 2 && forall w :: 0 <= w < 2 ==> words[w] == WordOf(Window(s, w), 32)
  }

  lemma {:induction false} WordOfEmpty(n: nat)
    ensures WordOf({}, n) == 0
  {
    if n > 0 {
      WordOfEmpty(n - 1);
    }
  }

  lemma {:induction false} EmptyRepresented()
    ensures Represents([0, 0], {})
  {
    hide WordOf;
    WordOfEmpty(32);
    assert Window({}, 0) == {} && Window({}, 1) == {};
  }

  lemma {:induction false} InsertInWindow(s: set<nat>, idx: nat, w: nat)
    ensures Window(s + {idx}, w) == if idx / 32 == w then Window(s, w) + {idx % 32} else Window(s, w)
  {
  }

  // Setting the bit of idx adds idx to the set.
  lemma {:induction false} InsertRepresented(words: seq<nat>, s: set<nat>, idx: nat)
    requires Represents(words, s) && idx < 64
    ensures var w := idx / 32;
      Represents(words[w := Or(words[w], Pow2(idx % 32))], s + {idx})
  {
    InsertInWindow(s, idx, 0);
    InsertInWindow(s, idx, 1);
    var w := idx / 32;
    OrInsertsBit(Window(s, w), idx % 32, 32);
    hide WordOf, Or, Window, Pow2;
  }

  // A number from 64 on leaves the words as they are.
  lemma {:induction false} LargeNotRepresented(words: seq<nat>, s: set<nat>, idx: nat)
    requires Represents(words, s) && idx >= 64
    ensures Represents(words, s + {idx})
  {
    InsertInWindow(s, idx, 0);
    InsertInWindow(s, idx, 1);
    hide WordOf, Window;
  }

  // A whole word is complete when it is all ones.
  lemma {:induction false} WholeWord(words: seq<nat>, s: set<nat>, w: nat)
    requires Represents(words, s) && w < 2
    ensures words[w] == 0xFFFF_FFFF <==> (forall k: nat :: 32 * w <= k < 32 * w + 32 ==> k in s)
  {
    hide WordOf, Pow2;
    Pow2Constants();
    WordFull(Window(s, w), 32);
    if forall i: nat :: i < 32 ==> i in Window(s, w) {
      forall k: nat | 32 * w <= k < 32 * w + 32
        ensures k in s
      {
        assert k - 32 * w in Window(s, w) && InWord(s, k - 32 * w, w);
      }
    }
  }

  lemma {:induction false} ShiftedOnes(r: nat)
    requires 0 < r < 32
    ensures 0xFFFF_FFFF / Pow2(32 - r) == Pow2(r) - 1
  {
    Pow2Constants();
    Pow2Add(r, 32 - r);
    OnesQuotient(Pow2(r), Pow2(32 - r));
  }

  lemma {:induction false} OnesQuotient(a: int, b: int)
    requires a >= 1 && b >= 1 && a * b == 0x1_0000_0000
    ensures 0xFFFF_FFFF / b == a - 1
  {
    assert (a - 1) * b == a * b - b;
    DivModUnique(0xFFFF_FFFF, b, a - 1, b - 1);
  }

  // The last, partial word is complete when exactly its low r bits are ones.
  lemma {:induction false} PartialWord(words: seq<nat>, s: set<nat>, w: nat, r: nat)
    requires Represents(words, s) && w < 2 && 0 < r < 32
    requires forall k: nat :: k in s ==> k < 32 * w + r
    ensures words[w] == 0xFFFF_FFFF / Pow2(32 - r)
            <==> (forall k: nat :: 32 * w <= k < 32 * w + r ==> k in s)
  {
    ShiftedOnes(r);
    WordTruncates(Window(s, w), r, 32);
    WordFull(Window(s, w), r);
    hide WordOf, Pow2;
    if forall i: nat :: i < r ==> i in Window(s, w) {
      forall k: nat | 32 * w <= k < 32 * w + r
        ensures k in s
      {
        assert k - 32 * w in Window(s, w) && InWord(s, k - 32 * w, w);
      }
    }
  }

  /** Setting bit idx of fields_seen, if the field is one of the tracked ones. */
  method MarkSeen(fieldsSeen: array<nat>, idx: nat, ghost s: set<nat>)
    requires Represents(fieldsSeen[..], s)
    modifies fieldsSeen
    ensures Represents(fieldsSeen[..], s + {idx})
  {
    if idx < MAX_REQUIRED_FIELDS {
      InsertRepresented(fieldsSeen[..], s, idx);
      hide Or, Pow2, Represents;
      ghost var words := fieldsSeen[..];
      fieldsSeen[idx / 32] := Or(fieldsSeen[idx / 32], Pow2(idx % 32));
      assert fieldsSeen[..] == words[idx / 32 := Or(words[idx / 32], Pow2(idx % 32))];
    } else {
      LargeNotRepresented(fieldsSeen[..], s, idx);
    }
  }

  /**
   * The check at the end of pb_decode_noinit for `count` required fields: it passes
   * exactly when each of the first min(count, 64) of them was seen.
   */
  method AllSeen(fieldsSeen: array<nat>, count: nat, ghost s: set<nat>) returns (ok: bool)
    requires Represents(fieldsSeen[..], s)
    requires count > 0 ==> forall k: nat :: k in s ==> k < count
    ensures ok <==> forall k: nat :: k < count && k < MAX_REQUIRED_FIELDS ==> k in s
  {
    var n := if count > MAX_REQUIRED_FIELDS then MAX_REQUIRED_FIELDS else count;
    if n > 0 {
      var i := 0;
      while i < n / 32
        invariant i <= n / 32 && (forall k: nat :: k < 32 * i ==> k in s)
      {
        WholeWord(fieldsSeen[..], s, i);
        if fieldsSeen[i] != 0xFFFF_FFFF {
          return false;
        }
        i := i + 1;
      }
      if n % 32 != 0 {
        PartialWord(fieldsSeen[..], s, n / 32, n % 32);
        if fieldsSeen[n / 32] != 0xFFFF_FFFF / Pow2(32 - n % 32) {
          return false;
        }
      }
    }
    return true;
  }
}
