/** The 512-bit hit mask of the automaton (internal/ac/ac.go): eight 64-bit words that are
    read and written with shifts and bitwise operators, proved to be a set of pattern numbers.
    A word is a natural number below 2^64; its bitwise operators are defined on its binary
    digits. */
module PatternMask {
  import opened Common

  const MAX_PATTERNS: int := 512
  const MASK_WORD_COUNT: int := 8

  type Word = w: nat | w < TWO_TO_THE_64

  /** Binary digit j of w. */
  predicate Bit(w: nat, j: nat)
  {
    if j == 0 then w % 2 == 1 else Bit(w / 2, j - 1)
  }

  /** 1 << k. */
  function Shift(k: nat): (p: nat)
    ensures p > 0
  {
    if k == 0 then 1 else 2 * Shift(k - 1)
  }

  /** w | v. */
  function Or(w: nat, v: nat): nat
  {
    if w == 0 then v else if v == 0 then w
    else 2 * Or(w / 2, v / 2) + (if w % 2 == 1 || v % 2 == 1 then 1 else 0)
  }

  /** w & v. */
  function And(w: nat, v: nat): nat
  {
    if w == 0 || v == 0 then 0
    else 2 * And(w / 2, v / 2) + (if w % 2 == 1 && v % 2 == 1 then 1 else 0)
  }

  lemma {:induction false} ZeroHasNoBit(j: nat)
    ensures !Bit(0, j)
  {
    if j != 0 {
      ZeroHasNoBit(j - 1);
    }
  }

  lemma {:induction false} OrBit(w: nat, v: nat, j: nat)
    ensures Bit(Or(w, v), j) == (Bit(w, j) || Bit(v, j))
  {
    ZeroHasNoBit(j);
    if j != 0 && w != 0 && v != 0 {
      OrBit(w / 2, v / 2, j - 1);
    }
  }

  lemma {:induction false} AndBit(w: nat, v: nat, j: nat)
    ensures Bit(And(w, v), j) == (Bit(w, j) && Bit(v, j))
  {
    ZeroHasNoBit(j);
    if j != 0 && w != 0 && v != 0 {
      AndBit(w / 2, v / 2, j - 1);
    }
  }

  lemma {:induction false} ShiftBit(k: nat, j: nat)
    ensures Bit(Shift(k), j) == (j == k)
  {
    if k == 0 {
      if j != 0 {
        ZeroHasNoBit(j - 1);
      }
    } else if j != 0 {
      ShiftBit(k - 1, j - 1);
    }
  }

  /** The operators stay inside k-bit words. */
  lemma {:induction false} OrFits(w: nat, v: nat, k: nat)
    requires w < Shift(k) && v < Shift(k)
    ensures Or(w, v) < Shift(k)
  {
    if k != 0 && w != 0 && v != 0 {
      OrFits(w / 2, v / 2, k - 1);
    }
  }

  lemma {:induction false} ShiftIsMonotone(j: nat, k: nat)
    requires j < k
    ensures Shift(j) < Shift(k)
  {
    if j + 1 < k {
      ShiftIsMonotone(j, k - 1);
    }
  }

  lemma Shift64()
    ensures Shift(64) == TWO_TO_THE_64
  {
    assert Shift(8) == 0x100;
    assert Shift(16) == 0x1_0000;
    assert Shift(24) == 0x100_0000;
    assert Shift(32) == 0x1_0000_0000;
    assert Shift(40) == 0x100_0000_0000;
    assert Shift(48) == 0x1_0000_0000_0000;
    assert Shift(56) == 0x100_0000_0000_0000;
  }

  lemma OrWord(w: Word, v: Word)
    ensures Or(w, v) < TWO_TO_THE_64
  {
    Shift64();
    OrFits(w, v, 64);
  }

  lemma ShiftWord(k: nat)
    requires k < 64
    ensures Shift(k) < TWO_TO_THE_64
  {
    Shift64();
    ShiftIsMonotone(k, 64);
  }

  /** A non-zero word below 2^k has a digit below k. */
  lemma {:induction false} NonzeroHasBit(w: nat, k: nat) returns (j: nat)
    requires 0 < w < Shift(k)
    ensures j < k && Bit(w, j)
  {
    if w % 2 == 1 {
      j := 0;
    } else {
      var i := NonzeroHasBit(w / 2, k - 1);
      j := i + 1;
    }
  }

  /** Pattern i belongs to the mask held in these words. */
  predicate Holds(words: seq<Word>, i: int)
    requires |words| == MASK_WORD_COUNT
  {
    0 <= i < MAX_PATTERNS && Bit(words[i / 64], i % 64)
  }

  ghost function Members(words: seq<Word>): set<int>
    requires |words| == MASK_WORD_COUNT
  {
    set i | 0 <= i < MAX_PATTERNS && Holds(words, i)
  }

  /** Two masks share a member exactly when some pair of words has a common bit. */
  lemma CommonMember(a: seq<Word>, b: seq<Word>)
    requires |a| == |b| == MASK_WORD_COUNT
    ensures Members(a) * Members(b) != {} <==>
            exists i :: 0 <= i < MASK_WORD_COUNT && And(a[i], b[i]) != 0
  {
    if i :| 0 <= i < MASK_WORD_COUNT && And(a[i], b[i]) != 0 {
      var m := CommonBit(a, b, i);
      assert m in Members(a) * Members(b);
    }
    if m :| m in Members(a) * Members(b) {
      AndBit(a[m / 64], b[m / 64], m % 64);
      ZeroHasNoBit(m % 64);
    }
  }

  lemma CommonBit(a: seq<Word>, b: seq<Word>, i: int) returns (m: int)
    requires |a| == |b| == MASK_WORD_COUNT && 0 <= i < MASK_WORD_COUNT
    requires And(a[i], b[i]) != 0
    ensures m in Members(a) && m in Members(b)
  {
    Shift64();
    AndFits(a[i], b[i], 64);
    var j := NonzeroHasBit(And(a[i], b[i]), 64);
    AndBit(a[i], b[i], j);
    m := 64 * i + j;
    assert m / 64 == i && m % 64 == j;
  }

  lemma {:induction false} AndFits(w: nat, v: nat, k: nat)
    requires w < Shift(k) && v < Shift(k)
    ensures And(w, v) < Shift(k)
  {
    if k != 0 && w != 0 && v != 0 {
      AndFits(w / 2, v / 2, k - 1);
    }
  }

  /** Setting one bit adds one member. */
  lemma SetAddsOne(words: seq<Word>, idx: int)
    requires |words| == MASK_WORD_COUNT && 0 <= idx < MAX_PATTERNS
    ensures Or(words[idx / 64], Shift(idx % 64)) < TWO_TO_THE_64
    ensures Members(words[idx / 64 := Or(words[idx / 64], Shift(idx % 64))]) == Members(words) + {idx}
  {
    ShiftWord(idx % 64);
    OrWord(words[idx / 64], Shift(idx % 64));
    var after: seq<Word> := words[idx / 64 := Or(words[idx / 64], Shift(idx % 64))];
    forall i | 0 <= i < MAX_PATTERNS
      ensures Holds(after, i) == (Holds(words, i) || i == idx)
    {
      if i / 64 == idx / 64 {
        OrBit(words[idx / 64], Shift(idx % 64), i % 64);
        ShiftBit(idx % 64, i % 64);
      }
    }
  }

  /** Or-ing word by word is set union. */
  lemma OrIsUnion(a: seq<Word>, b: seq<Word>, r: seq<Word>)
    requires |a| == |b| == |r| == MASK_WORD_COUNT
    requires forall i :: 0 <= i < MASK_WORD_COUNT ==> r[i] == Or(a[i], b[i])
    ensures Members(r) == Members(a) + Members(b)
  {
    forall m | 0 <= m < MAX_PATTERNS
      ensures Holds(r, m) == (Holds(a, m) || Holds(b, m))
    {
      OrBit(a[m / 64], b[m / 64], m % 64);
    }
  }

  class Mask {
    var words: array<Word>

    ghost predicate Valid()
      reads this
    {
      words.Length == MASK_WORD_COUNT
    }

    /** The set of pattern numbers this mask stands for. */
    ghost function View(): set<int>
      requires Valid()
      reads this, words
    {
      Members(words[..])
    }

    constructor ()
      ensures Valid() && fresh(words)
      ensures View() == {}
    {
      words := new Word[MASK_WORD_COUNT](_ => 0);
      new;
      forall i | 0 <= i < MAX_PATTERNS
        ensures !Holds(words[..], i)
      {
        ZeroHasNoBit(i % 64);
      }
    }

    /** Out-of-range pattern numbers are dropped. */
    method Set(idx: int)
      requires Valid()
      modifies words
      ensures Valid()
      ensures View() == old(View()) + (if 0 <= idx < MAX_PATTERNS then {idx} else {})
    {
      if 0 <= idx < MAX_PATTERNS {
        SetAddsOne(words[..], idx);
        ghost var was := words[..];
        words[idx / 64] := Or(words[idx / 64], Shift(idx % 64));
        assert words[..] == was[idx / 64 := Or(was[idx / 64], Shift(idx % 64))];
      }
    }

    method Intersects(other: Mask) returns (hit: bool)
      requires Valid() && other.Valid()
      ensures hit <==> View() * other.View() != {}
    {
      CommonMember(words[..], other.words[..]);
      hit := false;
      var i := 0;
      while i < MASK_WORD_COUNT
        invariant 0 <= i <= MASK_WORD_COUNT
        invariant forall k :: 0 <= k < i ==> And(words[..][k], other.words[..][k]) == 0
      {
        if And(words[i], other.words[i]) != 0 {
          assert And(words[..][i], other.words[..][i]) != 0;
          return true;
        }
        i := i + 1;
      }
    }

    method MergeFrom(other: Mask)
      requires Valid() && other.Valid()
      modifies words
      ensures Valid()
      ensures View() == old(View()) + old(other.View())
    {
      ghost var was, add := words[..], other.words[..];
      var i := 0;
      while i < MASK_WORD_COUNT
        invariant 0 <= i <= MASK_WORD_COUNT
        invariant forall k :: 0 <= k < i ==> words[k] == Or(was[k], add[k])
        invariant forall k :: i <= k < MASK_WORD_COUNT ==> words[k] == was[k] && other.words[k] == add[k]
      {
        OrWord(words[i], other.words[i]);
        words[i] := Or(words[i], other.words[i]);
        i := i + 1;
      }
      OrIsUnion(was, add, words[..]);
    }
  }
}
