/** Sequence helpers shared by the model: membership, duplicate-freedom and
    Python's list slicing `s[start:stop]`. */
module Seqs {

  function Min(a: int, b: int): int { if a <= b then a else b }

  /** The elements of a sequence, as a set. */
  function Elems<T>(s: seq<T>): set<T> { set x | x in s }

  /** No element occurs twice. */
  predicate NoDups<T(==)>(s: seq<T>) {
    forall i, j :: 0 <= i < j < |s| ==> s[i] != s[j]
  }

  /** Python's normalisation of one slice bound against a list of length `len`:
      a negative bound counts from the end, and the result is clamped to [0, len]. */
  function SliceBound(i: int, len: nat): (b: nat)
    ensures b <= len
  {
    if i < 0 then (if i + len < 0 then 0 else i + len)
    else if i > len then len
    else i
  }

  /** Python's `s[start:stop]` (step 1), including negative and out-of-range bounds. */
  function Slice<T>(s: seq<T>, start: int, stop: int): (r: seq<T>)
    ensures |r| == if SliceBound(start, |s|) < SliceBound(stop, |s|)
                   then SliceBound(stop, |s|) - SliceBound(start, |s|) else 0
    ensures forall k :: 0 <= k < |r| ==> r[k] == s[SliceBound(start, |s|) + k]
    ensures 0 <= start <= stop ==> |r| == if start >= |s| then 0 else Min(stop, |s|) - start
  {
    var a, b := SliceBound(start, |s|), SliceBound(stop, |s|);
    if a < b then s[a..b] else []
  }

  /** A slice keeps elements of the list only, and never duplicates one. */
  lemma SliceSubseq<T>(s: seq<T>, start: int, stop: int)
    ensures Elems(Slice(s, start, stop)) <= Elems(s)
    ensures NoDups(s) ==> NoDups(Slice(s, start, stop))
  {
    var r := Slice(s, start, stop);
    forall x | x in Elems(r) ensures x in Elems(s) {
      var k :| 0 <= k < |r| && r[k] == x;
      assert s[SliceBound(start, |s|) + k] == x;
    }
  }

  /** A duplicate-free sequence has as many elements as its set of elements. */
  lemma {:induction false} NoDupsCard<T>(s: seq<T>)
    requires NoDups(s)
    ensures |Elems(s)| == |s|
  {
    if s != [] {
      var t := s[1..];
      assert NoDups(t) by {
        forall i, j | 0 <= i < j < |t| ensures t[i] != t[j] {
          assert t[i] == s[i + 1] && t[j] == s[j + 1];
        }
      }
      NoDupsCard(t);
      assert Elems(s) == {s[0]} + Elems(t);
      assert s[0] !in Elems(t);
    }
  }
}
