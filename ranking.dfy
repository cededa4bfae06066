/** The final ranking step of a recommendation: Python's
    `sorted(recommendations.items(), key=score, reverse=True)` followed by
    taking the keys and slicing `[0:suggestion_number]`. Python's sort is
    stable also with `reverse=True`, so entries of equal score keep the order
    in which they were inserted. */
module Ranking {
  import opened Seqs

  /** Entries ordered by non-increasing score. */
  predicate Descending<T>(r: seq<(T, real)>) {
    forall i, j :: 0 <= i < j < |r| ==> r[i].1 >= r[j].1
  }

  /** Places `x` after every entry that scores strictly higher and before the rest. */
  function Insert<T>(x: (T, real), r: seq<(T, real)>): seq<(T, real)> {
    if r == [] || r[0].1 <= x.1 then [x] + r else [r[0]] + Insert(x, r[1..])
  }

  /** Stable sort by descending score (insertion sort from the back). */
  function SortDesc<T>(s: seq<(T, real)>): seq<(T, real)> {
    if s == [] then [] else Insert(s[0], SortDesc(s[1..]))
  }

  function Firsts<T>(s: seq<(T, real)>): (r: seq<T>)
    ensures |r| == |s| && forall i :: 0 <= i < |s| ==> r[i] == s[i].0
  {
    seq(|s|, i requires 0 <= i < |s| => s[i].0)
  }

  /** The entries that have score `c`, in their order. */
  function WithScore<T>(s: seq<(T, real)>, c: real): seq<(T, real)> {
    if s == [] then [] else (if s[0].1 == c then [s[0]] else []) + WithScore(s[1..], c)
  }

  /** The dictionary's items in insertion order. */
  function Items<T>(keys: seq<T>, scores: map<T, real>): (r: seq<(T, real)>)
    requires Elems(keys) <= scores.Keys
    ensures |r| == |keys| && forall i :: 0 <= i < |keys| ==> r[i] == (keys[i], scores[keys[i]])
  {
    seq(|keys|, i requires 0 <= i < |keys| => (keys[i], scores[keys[i]]))
  }

  /** The keys of the `suggestionNumber` best-scoring items. */
  function Ranked<T>(items: seq<(T, real)>, suggestionNumber: int): seq<T> {
    Slice(Firsts(SortDesc(items)), 0, suggestionNumber)
  }

  /** Insertion adds exactly the one entry. */
  lemma {:induction false} InsertFacts<T>(x: (T, real), r: seq<(T, real)>)
    ensures |Insert(x, r)| == |r| + 1
    ensures multiset(Insert(x, r)) == multiset(r) + multiset{x}
    ensures Elems(Insert(x, r)) == Elems(r) + {x}
  {
    if r != [] && r[0].1 > x.1 {
      var t := r[1..];
      InsertFacts(x, t);
      assert r == [r[0]] + t;
      assert Insert(x, r) == [r[0]] + Insert(x, t);
      assert Elems(r) == {r[0]} + Elems(t);
      assert Elems(Insert(x, r)) == {r[0]} + Elems(Insert(x, t));
    } else {
      assert Elems([x] + r) == {x} + Elems(r);
    }
  }

  /** Insertion into a descending sequence gives a descending sequence. */
  lemma {:induction false} InsertDescending<T>(x: (T, real), r: seq<(T, real)>)
    requires Descending(r)
    ensures Descending(Insert(x, r))
  {
    if r != [] && r[0].1 > x.1 {
      var t := r[1..];
      assert Descending(t) by {
        forall i, j | 0 <= i < j < |t| ensures t[i].1 >= t[j].1 {
          assert t[i] == r[i + 1] && t[j] == r[j + 1];
        }
      }
      InsertDescending(x, t);
      InsertFacts(x, t);
      var q := Insert(x, t);
      assert Insert(x, r) == [r[0]] + q;
      forall k | 0 <= k < |q| ensures r[0].1 >= q[k].1 {
        assert q[k] in Elems(q);
        if q[k] != x {
          var m :| 0 <= m < |t| && t[m] == q[k];
          assert r[m + 1] == q[k];
        }
      }
    }
  }

  /** Insertion adds one key and keeps the keys distinct when the new key is new. */
  lemma {:induction false} InsertKeys<T>(x: (T, real), r: seq<(T, real)>)
    ensures Elems(Firsts(Insert(x, r))) == Elems(Firsts(r)) + {x.0}
    ensures NoDups(Firsts(r)) && x.0 !in Elems(Firsts(r)) ==> NoDups(Firsts(Insert(x, r)))
  {
    if r == [] || r[0].1 <= x.1 {
      assert Firsts(Insert(x, r)) == [x.0] + Firsts(r);
      assert Elems([x.0] + Firsts(r)) == {x.0} + Elems(Firsts(r));
    } else {
      var t := r[1..];
      InsertKeys(x, t);
      assert Firsts(r) == [r[0].0] + Firsts(t);
      assert Firsts(Insert(x, r)) == [r[0].0] + Firsts(Insert(x, t));
      assert Elems([r[0].0] + Firsts(t)) == {r[0].0} + Elems(Firsts(t));
      assert Elems([r[0].0] + Firsts(Insert(x, t))) == {r[0].0} + Elems(Firsts(Insert(x, t)));
      if NoDups(Firsts(r)) && x.0 !in Elems(Firsts(r)) {
        assert NoDups(Firsts(t)) by {
          forall i, j | 0 <= i < j < |t| ensures t[i].0 != t[j].0 {
            assert t[i] == r[i + 1] && t[j] == r[j + 1];
          }
        }
        assert r[0].0 !in Elems(Firsts(t));
      }
    }
  }

  /** The entries of score `c` come out of an insertion in the same order as
      they went in, with `x` ahead of any that were there before it. */
  lemma {:induction false} InsertWithScore<T>(x: (T, real), r: seq<(T, real)>, c: real)
    ensures WithScore(Insert(x, r), c) == (if x.1 == c then [x] else []) + WithScore(r, c)
  {
    if r == [] || r[0].1 <= x.1 {
      var q := [x] + r;
      assert q[0] == x && q[1..] == r;
      assert WithScore(q, c) == (if x.1 == c then [x] else []) + WithScore(r, c);
    } else {
      var t := r[1..];
      InsertWithScore(x, t, c);
      var q := [r[0]] + Insert(x, t);
      assert Insert(x, r) == q;
      assert q[0] == r[0] && q[1..] == Insert(x, t);
      assert WithScore(q, c) == (if r[0].1 == c then [r[0]] else []) + WithScore(Insert(x, t), c);
      assert WithScore(r, c) == (if r[0].1 == c then [r[0]] else []) + WithScore(t, c);
    }
  }

  /** SortDesc returns a permutation of its input, ordered by non-increasing score. */
  lemma SortDescCorrect<T>(s: seq<(T, real)>)
    ensures multiset(SortDesc(s)) == multiset(s)
    ensures Elems(SortDesc(s)) == Elems(s)
    ensures |SortDesc(s)| == |s|
    ensures Descending(SortDesc(s))
  {
    SortDescPermutes(s);
    SortDescDescending(s);
    var r := SortDesc(s);
    forall x | x in Elems(r) ensures x in Elems(s) {
      assert x in multiset(r);
    }
    forall x | x in Elems(s) ensures x in Elems(r) {
      assert x in multiset(s);
    }
  }

  lemma {:induction false} SortDescPermutes<T>(s: seq<(T, real)>)
    ensures multiset(SortDesc(s)) == multiset(s) && |SortDesc(s)| == |s|
  {
    if s != [] {
      var t := s[1..];
      SortDescPermutes(t);
      InsertFacts(s[0], SortDesc(t));
      assert s == [s[0]] + t;
    }
  }

  lemma {:induction false} SortDescDescending<T>(s: seq<(T, real)>)
    ensures Descending(SortDesc(s))
  {
    if s != [] {
      SortDescDescending(s[1..]);
      InsertDescending(s[0], SortDesc(s[1..]));
    }
  }

  /** SortDesc is stable: for every score, the entries with that score keep their order. */
  lemma {:induction false} SortDescStable<T>(s: seq<(T, real)>, c: real)
    ensures WithScore(SortDesc(s), c) == WithScore(s, c)
  {
    if s != [] {
      SortDescStable(s[1..], c);
      InsertWithScore(s[0], SortDesc(s[1..]), c);
    }
  }

  /** SortDesc keeps the set of keys, and keeps them distinct. */
  lemma {:induction false} SortDescKeys<T>(s: seq<(T, real)>)
    ensures Elems(Firsts(SortDesc(s))) == Elems(Firsts(s))
    ensures NoDups(Firsts(s)) ==> NoDups(Firsts(SortDesc(s)))
  {
    if s != [] {
      var t := s[1..];
      SortDescKeys(t);
      InsertKeys(s[0], SortDesc(t));
      assert Firsts(s) == [s[0].0] + Firsts(t);
      if NoDups(Firsts(s)) {
        assert NoDups(Firsts(t)) by {
          forall i, j | 0 <= i < j < |t| ensures t[i].0 != t[j].0 {
            assert t[i] == s[i + 1] && t[j] == s[j + 1];
          }
        }
      }
    }
  }

  /** What a ranking of the items of a score dictionary yields: distinct keys
      of the dictionary only, best first, as many as asked for (or all), and
      no key left out that scores higher than a key that was kept. */
  lemma RankedItems<T>(keys: seq<T>, scores: map<T, real>, n: int)
    requires NoDups(keys) && Elems(keys) == scores.Keys
    ensures var r := Ranked(Items(keys, scores), n);
      && NoDups(r)
      && Elems(r) <= scores.Keys
      && (forall i, j :: 0 <= i < j < |r| ==> scores[r[i]] >= scores[r[j]])
      && (n >= 0 ==> |r| == Min(n, |scores|))
      && (forall a, b :: a in r && b in scores && b !in r ==> scores[a] >= scores[b])
  {
    var items := Items(keys, scores);
    var sorted := SortDesc(items);
    var ks := Firsts(sorted);
    var r := Slice(ks, 0, n);
    SortedItems(keys, scores);
    SliceSubseq(ks, 0, n);
    forall i, j | 0 <= i < j < |r| ensures scores[r[i]] >= scores[r[j]] {
      assert r[i] == sorted[i].0 && r[j] == sorted[j].0;
    }
    forall a, b | a in r && b in scores && b !in r ensures scores[a] >= scores[b] {
      var i :| 0 <= i < |r| && r[i] == a;
      assert b in Elems(ks);
      var j :| 0 <= j < |ks| && ks[j] == b;
      assert sorted[i].0 == a && sorted[j].0 == b;
    }
  }

  /** Sorting the dictionary's items: as many entries as keys, distinct keys,
      the same keys, descending, and each entry carrying its key's score. */
  lemma SortedItems<T>(keys: seq<T>, scores: map<T, real>)
    requires NoDups(keys) && Elems(keys) == scores.Keys
    ensures var sorted := SortDesc(Items(keys, scores));
      && |sorted| == |scores|
      && NoDups(Firsts(sorted))
      && Elems(Firsts(sorted)) == scores.Keys
      && Descending(sorted)
      && forall k :: 0 <= k < |sorted| ==> sorted[k].0 in scores && sorted[k].1 == scores[sorted[k].0]
  {
    var items := Items(keys, scores);
    var sorted := SortDesc(items);
    assert Firsts(items) == keys;
    SortDescCorrect(items);
    SortDescKeys(items);
    NoDupsCard(keys);
    forall k | 0 <= k < |sorted| ensures sorted[k].0 in scores && sorted[k].1 == scores[sorted[k].0] {
      assert sorted[k] in Elems(items);
      var m :| 0 <= m < |items| && items[m] == sorted[k];
    }
  }

  /** Keys in non-decreasing `rank`. */
  predicate RankedBy<T>(s: seq<(T, real)>, rank: map<T, int>) {
    && (forall i :: 0 <= i < |s| ==> s[i].0 in rank)
    && (forall i, j :: 0 <= i < j < |s| ==> rank[s[i].0] <= rank[s[j].0])
  }

  /** Among entries of equal score, keys in non-decreasing `rank`. */
  predicate TiesRankedBy<T>(s: seq<(T, real)>, rank: map<T, int>) {
    && (forall i :: 0 <= i < |s| ==> s[i].0 in rank)
    && (forall i, j :: 0 <= i < j < |s| && s[i].1 == s[j].1 ==> rank[s[i].0] <= rank[s[j].0])
  }

  /** The position of every key. */
  function Positions<T>(keys: seq<T>): (m: map<T, int>)
    requires NoDups(keys)
    ensures m.Keys == Elems(keys)
    ensures forall i :: 0 <= i < |keys| ==> m[keys[i]] == i
    ensures forall a :: a in m ==> 0 <= m[a] < |keys| && keys[m[a]] == a
  {
    map i | 0 <= i < |keys| :: keys[i] := i
  }

  lemma {:induction false} InsertTies<T>(x: (T, real), r: seq<(T, real)>, rank: map<T, int>)
    requires TiesRankedBy(r, rank) && x.0 in rank
    requires forall k :: 0 <= k < |r| ==> rank[x.0] <= rank[r[k].0]
    ensures TiesRankedBy(Insert(x, r), rank)
  {
    if r == [] || r[0].1 <= x.1 {
      ConsTies(x, r, rank);
    } else {
      var t := r[1..];
      assert TiesRankedBy(t, rank) by {
        forall i, j | 0 <= i < j < |t| && t[i].1 == t[j].1 ensures rank[t[i].0] <= rank[t[j].0] {
          assert t[i] == r[i + 1] && t[j] == r[j + 1];
        }
      }
      InsertTies(x, t, rank);
      InsertFacts(x, t);
      var q := Insert(x, t);
      forall k | 0 <= k < |q| && q[k].1 == r[0].1 ensures rank[r[0].0] <= rank[q[k].0] {
        assert q[k] in Elems(t) + {x};
        if q[k] != x {
          var m :| 0 <= m < |t| && t[m] == q[k];
          assert r[m + 1] == q[k];
        }
      }
      ConsTies(r[0], q, rank);
    }
  }

  /** Putting `y` in front keeps ties ranked when `y` ranks no lower than any
      entry of its own score. */
  lemma ConsTies<T>(y: (T, real), q: seq<(T, real)>, rank: map<T, int>)
    requires TiesRankedBy(q, rank) && y.0 in rank
    requires forall k :: 0 <= k < |q| && q[k].1 == y.1 ==> rank[y.0] <= rank[q[k].0]
    ensures TiesRankedBy([y] + q, rank)
  {
    var s := [y] + q;
    forall i, j | 0 <= i < j < |s| && s[i].1 == s[j].1 ensures rank[s[i].0] <= rank[s[j].0] {
      assert s[j] == q[j - 1];
      if i > 0 { assert s[i] == q[i - 1]; }
    }
  }

  /** Stability, pairwise: input keys in non-decreasing `rank` come out with
      every tie in non-decreasing `rank`. */
  lemma {:induction false} SortDescTies<T>(s: seq<(T, real)>, rank: map<T, int>)
    requires RankedBy(s, rank)
    ensures TiesRankedBy(SortDesc(s), rank)
  {
    if s != [] {
      var t := s[1..];
      assert RankedBy(t, rank) by {
        forall i, j | 0 <= i < j < |t| ensures rank[t[i].0] <= rank[t[j].0] {
          assert t[i] == s[i + 1] && t[j] == s[j + 1];
        }
      }
      SortDescTies(t, rank);
      SortDescCorrect(t);
      var r := SortDesc(t);
      forall k | 0 <= k < |r| ensures rank[s[0].0] <= rank[r[k].0] {
        assert r[k] in Elems(t);
        var m :| 0 <= m < |t| && t[m] == r[k];
        assert s[m + 1] == r[k];
      }
      InsertTies(s[0], r, rank);
    }
  }

  /** Ties in a ranking keep any order the keys were in: for keys in
      non-decreasing `rank`, equally scored results are in non-decreasing `rank`. */
  lemma RankedTies<T>(keys: seq<T>, scores: map<T, real>, n: int, rank: map<T, int>)
    requires NoDups(keys) && Elems(keys) == scores.Keys
    requires forall i :: 0 <= i < |keys| ==> keys[i] in rank
    requires forall i, j :: 0 <= i < j < |keys| ==> rank[keys[i]] <= rank[keys[j]]
    ensures var r := Ranked(Items(keys, scores), n);
      forall i, j :: 0 <= i < j < |r| && r[i] in scores && r[j] in scores && scores[r[i]] == scores[r[j]] ==>
        r[i] in rank && r[j] in rank && rank[r[i]] <= rank[r[j]]
  {
    var items := Items(keys, scores);
    var sorted := SortDesc(items);
    var r := Slice(Firsts(sorted), 0, n);
    SortedItems(keys, scores);
    SortDescTies(items, rank);
    forall i, j | 0 <= i < j < |r| && r[i] in scores && r[j] in scores && scores[r[i]] == scores[r[j]]
      ensures r[i] in rank && r[j] in rank && rank[r[i]] <= rank[r[j]]
    {
      assert r[i] == sorted[i].0 && r[j] == sorted[j].0;
    }
  }

  /** `sorted` is stable: equally scored results keep the order of `keys`. */
  lemma RankedInInsertionOrder<T>(keys: seq<T>, scores: map<T, real>, n: int)
    requires NoDups(keys) && Elems(keys) == scores.Keys
    ensures var r := Ranked(Items(keys, scores), n);
      forall i, j :: 0 <= i < j < |r| && r[i] in scores && r[j] in scores && scores[r[i]] == scores[r[j]] ==>
        Positions(keys)[r[i]] < Positions(keys)[r[j]]
  {
    var r := Ranked(Items(keys, scores), n);
    var pos := Positions(keys);
    RankedDistinct(keys, scores, n);
    RankedTies(keys, scores, n, pos);
    forall i, j | 0 <= i < j < |r| && r[i] in scores && r[j] in scores && scores[r[i]] == scores[r[j]]
      ensures pos[r[i]] < pos[r[j]]
    {
      PositionsDistinct(keys, r[i], r[j]);
    }
  }

  /** Distinct keys have distinct positions. */
  lemma PositionsDistinct<T>(keys: seq<T>, a: T, b: T)
    requires NoDups(keys) && a in Positions(keys) && b in Positions(keys) && a != b
    ensures Positions(keys)[a] != Positions(keys)[b]
  {
    var pos := Positions(keys);
    assert keys[pos[a]] == a && keys[pos[b]] == b;
  }

  /** A ranking never repeats an artist. */
  lemma RankedDistinct<T>(keys: seq<T>, scores: map<T, real>, n: int)
    requires NoDups(keys) && Elems(keys) == scores.Keys
    ensures NoDups(Ranked(Items(keys, scores), n))
  {
    SortedItems(keys, scores);
    SliceSubseq(Firsts(SortDesc(Items(keys, scores))), 0, n);
  }
}
