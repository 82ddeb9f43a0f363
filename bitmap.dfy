/**
 * Bitmaps stored as arrays of 32-bit words: bit idx lives in word idx / 32
 * at position idx % 32. The index is a signed 32-bit value in the header;
 * a negative index addresses memory outside the bitmap, so callers pass
 * indices inside it.
 */
module Bitmap {
  /** The position of bit idx inside its word. */
  function Pos(idx: nat): (p: bv5)
    ensures p as int == idx % 32
  {
    (idx % 32) as bv5
  }

  /** The single-bit mask of position p inside a word. */
  function Bit(p: bv5): bv32
  {
    1 << p
  }

  /** Whether the bit at position p is set in word w. */
  predicate BitAt(w: bv32, p: bv5)
  {
    w & Bit(p) != 0
  }

  /** Word w with the bit at position p set. */
  function SetAt(w: bv32, p: bv5): bv32
  {
    w | Bit(p)
  }

  /** Word w with the bit at position p cleared. */
  function ClearAt(w: bv32, p: bv5): bv32
  {
    w & !Bit(p)
  }

  /** bitmap_test: whether bit idx is set. */
  predicate Test(words: seq<bv32>, idx: nat)
    requires idx < 32 * |words|
  {
    BitAt(words[idx / 32], Pos(idx))
  }

  /** The bitmap after bitmap_set. */
  function SetBit(words: seq<bv32>, idx: nat): (r: seq<bv32>)
    requires idx < 32 * |words|
    ensures |r| == |words|
  {
    words[idx / 32 := SetAt(words[idx / 32], Pos(idx))]
  }

  /** The bitmap after bitmap_unset. */
  function UnsetBit(words: seq<bv32>, idx: nat): (r: seq<bv32>)
    requires idx < 32 * |words|
    ensures |r| == |words|
  {
    words[idx / 32 := ClearAt(words[idx / 32], Pos(idx))]
  }

  // Each direction is its own lemma: stated as one boolean equality, these
  // facts are far harder for the solver than the implications apart.

  /** Setting the bit at a makes it set. */
  lemma SetAtSets(w: bv32, a: bv5)
    ensures BitAt(SetAt(w, a), a)
  {
  }

  /** Setting the bit at a keeps every bit that was set. */
  lemma SetAtKeeps(w: bv32, a: bv5, b: bv5)
    requires BitAt(w, b)
    ensures BitAt(SetAt(w, a), b)
  {
  }

  /** After setting the bit at a, a set bit is a or was set before. */
  lemma SetAtOnly(w: bv32, a: bv5, b: bv5)
    requires BitAt(SetAt(w, a), b)
    ensures a == b || BitAt(w, b)
  {
  }

  /** Clearing the bit at a makes it clear. */
  lemma ClearAtClears(w: bv32, a: bv5)
    ensures !BitAt(ClearAt(w, a), a)
  {
  }

  /** Clearing the bit at a keeps every other bit that was set. */
  lemma ClearAtKeeps(w: bv32, a: bv5, b: bv5)
    requires a != b && BitAt(w, b)
    ensures BitAt(ClearAt(w, a), b)
  {
  }

  /** After clearing the bit at a, a set bit was set before. */
  lemma ClearAtOnly(w: bv32, a: bv5, b: bv5)
    requires BitAt(ClearAt(w, a), b)
    ensures BitAt(w, b)
  {
  }

  /** Clearing a bit that setting just turned on gives back the word. */
  lemma ClearAfterSetAt(w: bv32, a: bv5)
    requires !BitAt(w, a)
    ensures ClearAt(SetAt(w, a), a) == w
  {
  }

  /** Two indices in the same word differ exactly when their positions in it differ. */
  lemma SameWordPositions(i: nat, j: nat)
    requires i / 32 == j / 32
    ensures i == j <==> Pos(i) == Pos(j)
  {
    var pi, pj := Pos(i), Pos(j);
    assert pi == pj ==> i % 32 == j % 32;
  }

  /** The value of bit j after bitmap_set of idx. */
  lemma SetBitAt(words: seq<bv32>, idx: nat, j: nat)
    requires idx < 32 * |words| && j < 32 * |words|
    ensures Test(SetBit(words, idx), j) == (j == idx || Test(words, j))
  {
    if j / 32 == idx / 32 {
      assert SetBit(words, idx)[j / 32] == SetAt(words[j / 32], Pos(idx));
      var w, a, b := words[j / 32], Pos(idx), Pos(j);
      SameWordPositions(idx, j);
      if j == idx {
        SetAtSets(w, a);
      } else if BitAt(w, b) {
        SetAtKeeps(w, a, b);
      } else if BitAt(SetAt(w, a), b) {
        SetAtOnly(w, a, b);
      }
    } else {
      assert SetBit(words, idx)[j / 32] == words[j / 32];
    }
  }

  /** The value of bit j after bitmap_unset of idx. */
  lemma UnsetBitAt(words: seq<bv32>, idx: nat, j: nat)
    requires idx < 32 * |words| && j < 32 * |words|
    ensures Test(UnsetBit(words, idx), j) == (j != idx && Test(words, j))
  {
    if j / 32 == idx / 32 {
      assert UnsetBit(words, idx)[j / 32] == ClearAt(words[j / 32], Pos(idx));
      var w, a, b := words[j / 32], Pos(idx), Pos(j);
      SameWordPositions(idx, j);
      if j == idx {
        ClearAtClears(w, a);
      } else if BitAt(w, b) {
        ClearAtKeeps(w, a, b);
      } else if BitAt(ClearAt(w, a), b) {
        ClearAtOnly(w, a, b);
      }
    } else {
      assert UnsetBit(words, idx)[j / 32] == words[j / 32];
    }
  }

  /** bitmap_set sets bit idx and leaves every other bit as it was. */
  lemma SetBitEffect(words: seq<bv32>, idx: nat)
    requires idx < 32 * |words|
    ensures forall j :: 0 <= j < 32 * |words| ==> Test(SetBit(words, idx), j) == (j == idx || Test(words, j))
  {
    forall j | 0 <= j < 32 * |words| {
      SetBitAt(words, idx, j);
    }
  }

  /** bitmap_unset clears bit idx and leaves every other bit as it was. */
  lemma UnsetBitEffect(words: seq<bv32>, idx: nat)
    requires idx < 32 * |words|
    ensures forall j :: 0 <= j < 32 * |words| ==> Test(UnsetBit(words, idx), j) == (j != idx && Test(words, j))
  {
    forall j | 0 <= j < 32 * |words| {
      UnsetBitAt(words, idx, j);
    }
  }

  /** Setting and then unsetting a bit that was clear gives back the same bitmap. */
  lemma SetThenUnsetRestores(words: seq<bv32>, idx: nat)
    requires idx < 32 * |words| && !Test(words, idx)
    ensures UnsetBit(SetBit(words, idx), idx) == words
  {
    var k, w := idx / 32, words[idx / 32];
    ClearAfterSetAt(w, Pos(idx));
    assert SetBit(words, idx)[k] == SetAt(w, Pos(idx));
    assert UnsetBit(SetBit(words, idx), idx) == words[k := w];
  }

  /** bitmap_set on the bitmap array. */
  method Set(bm: array<bv32>, idx: int)
    requires 0 <= idx < 32 * bm.Length
    modifies bm
    ensures bm[..] == SetBit(old(bm[..]), idx)
  {
    bm[idx / 32] := SetAt(bm[idx / 32], Pos(idx));
  }

  /** bitmap_unset on the bitmap array. */
  method Unset(bm: array<bv32>, idx: int)
    requires 0 <= idx < 32 * bm.Length
    modifies bm
    ensures bm[..] == UnsetBit(old(bm[..]), idx)
  {
    bm[idx / 32] := ClearAt(bm[idx / 32], Pos(idx));
  }

  /** bitmap_set then bitmap_test reads the bit back as set, and bitmap_unset then bitmap_test as clear. */
  lemma TestAfterUpdate(words: seq<bv32>, idx: nat)
    requires idx < 32 * |words|
    ensures Test(SetBit(words, idx), idx)
    ensures !Test(UnsetBit(words, idx), idx)
  {
    SetBitEffect(words, idx);
    UnsetBitEffect(words, idx);
  }

  /** bitmap_first_free: the lowest clear bit below maxBits, or -1 when all are set. */
  method FirstFree(bm: array<bv32>, maxBits: nat) returns (idx: int)
    requires maxBits <= 32 * bm.Length && maxBits < 0x8000_0000
    ensures idx == -1 <==> forall j :: 0 <= j < maxBits ==> Test(bm[..], j)
    ensures idx != -1 ==> 0 <= idx < maxBits && !Test(bm[..], idx) && forall j :: 0 <= j < idx ==> Test(bm[..], j)
  {
    idx := -1;
    var i := 0;
    while i < maxBits
      invariant 0 <= i <= maxBits
      invariant forall j :: 0 <= j < i ==> Test(bm[..], j)
    {
      if !BitAt(bm[i / 32], Pos(i)) {
        assert !Test(bm[..], i);
        idx := i;
        break;
      }
      i := i + 1;
    }
  }
}
