/** The numeric layer of the similarity engine: 0/1 interest rows over an
    ordered vocabulary, their dot product, and the cosine similarity that
    scikit-learn's `cosine_similarity` computes row against row. */
module Vectors {
  import opened Seqs

  /** One row of the interest matrix: a value per vocabulary column. */
  type Row = seq<int>

  function NatAsReal(n: nat): real { n as real }

  /** The square root used to normalise rows. Floating point is not modelled:
      a root is any function that is positive on positive arguments; where an
      exact value matters, a lemma asks for `ExactRoot` at that argument. */
  type Root = f: nat -> real | forall n: nat :: n > 0 ==> f(n) > 0.0 witness NatAsReal

  predicate ExactRoot(sqrt: Root, n: nat) {
    sqrt(n) * sqrt(n) == n as real
  }

  /** The 0/1 row of the artist set `s` over the columns `cols`:
      column j holds 1 iff its label is in `s`. */
  function Indicator<T(==)>(cols: seq<T>, s: set<T>): (r: Row)
    ensures |r| == |cols|
    ensures forall j :: 0 <= j < |cols| ==> r[j] == (if cols[j] in s then 1 else 0)
  {
    if cols == [] then [] else [if cols[0] in s then 1 else 0] + Indicator(cols[1..], s)
  }

  function Dot(a: Row, b: Row): int
    requires |a| == |b|
  {
    if a == [] then 0 else a[0] * b[0] + Dot(a[1..], b[1..])
  }

  predicate Binary(r: Row) {
    forall j :: 0 <= j < |r| ==> r[j] == 0 || r[j] == 1
  }

  /** Cosine similarity of two rows. A row whose norm is zero has similarity 0
      with every row, itself included, as scikit-learn's normalisation leaves
      such a row at zero. */
  function Cosine(a: Row, b: Row, sqrt: Root): real
    requires |a| == |b|
  {
    CosineOf(Dot(a, b), Dot(a, a), Dot(b, b), sqrt)
  }

  /** The cosine from its integer ingredients: the dot product and the two squared norms. */
  function CosineOf(d: int, na: int, nb: int, sqrt: Root): real {
    if na <= 0 || nb <= 0 then 0.0 else d as real / (sqrt(na) * sqrt(nb))
  }

  lemma {:induction false} DotSymmetric(a: Row, b: Row)
    requires |a| == |b|
    ensures Dot(a, b) == Dot(b, a)
  {
    if a != [] {
      DotSymmetric(a[1..], b[1..]);
    }
  }

  lemma {:induction false} DotBinary(a: Row, b: Row)
    requires |a| == |b| && Binary(a) && Binary(b)
    ensures 0 <= Dot(a, b) <= Dot(a, a)
  {
    if a != [] {
      assert Binary(a[1..]) && Binary(b[1..]) by {
        forall j | 0 <= j < |a| - 1 ensures a[1..][j] == a[j + 1] && b[1..][j] == b[j + 1] { }
      }
      DotBinary(a[1..], b[1..]);
    }
  }

  /** On duplicate-free columns, the dot product of two indicator rows counts
      the artists the two sets share among the columns. */
  lemma {:induction false} DotIndicator<T>(cols: seq<T>, s: set<T>, t: set<T>)
    requires NoDups(cols)
    ensures Dot(Indicator(cols, s), Indicator(cols, t)) == |s * t * Elems(cols)|
  {
    if cols != [] {
      var c, rest := cols[0], cols[1..];
      assert NoDups(rest) by {
        forall i, j | 0 <= i < j < |rest| ensures rest[i] != rest[j] {
          assert rest[i] == cols[i + 1] && rest[j] == cols[j + 1];
        }
      }
      DotIndicator(rest, s, t);
      var rs, rt := Indicator(cols, s), Indicator(cols, t);
      assert rs == [if c in s then 1 else 0] + Indicator(rest, s);
      assert rt == [if c in t then 1 else 0] + Indicator(rest, t);
      assert rs[1..] == Indicator(rest, s) && rt[1..] == Indicator(rest, t);
      assert Dot(rs, rt) == rs[0] * rt[0] + Dot(Indicator(rest, s), Indicator(rest, t));
      CardSplit(c, Elems(rest), s * t);
      assert Elems(cols) == {c} + Elems(rest);
    }
  }

  /** Counting the shared artists of one more column. */
  lemma CardSplit<T>(c: T, rest: set<T>, st: set<T>)
    requires c !in rest
    ensures |st * ({c} + rest)| == (if c in st then 1 else 0) + |st * rest|
  {
    var here := st * {c};
    assert st * ({c} + rest) == here + st * rest;
    assert here !! st * rest;
    if c in st {
      assert here == {c};
    } else {
      assert here == {};
    }
  }

  /** The norm ingredients of the cosine: for sets inside the vocabulary, the
      dot product is the size of the intersection and the squared norm is the
      size of the set. */
  lemma CosineOfSets<T>(cols: seq<T>, s: set<T>, t: set<T>, sqrt: Root)
    requires NoDups(cols) && s <= Elems(cols) && t <= Elems(cols)
    ensures Dot(Indicator(cols, s), Indicator(cols, t)) == |s * t|
    ensures Dot(Indicator(cols, s), Indicator(cols, s)) == |s|
    ensures Dot(Indicator(cols, t), Indicator(cols, t)) == |t|
    ensures Cosine(Indicator(cols, s), Indicator(cols, t), sqrt) == CosineOf(|s * t|, |s|, |t|, sqrt)
  {
    DotOfSets(cols, s, t);
    DotOfSets(cols, s, s);
    DotOfSets(cols, t, t);
    assert s * s == s && t * t == t;
  }

  /** The dot product of the rows of two sets inside the vocabulary is the size of their intersection. */
  lemma DotOfSets<T>(cols: seq<T>, s: set<T>, t: set<T>)
    requires NoDups(cols) && s <= Elems(cols)
    ensures Dot(Indicator(cols, s), Indicator(cols, t)) == |s * t|
  {
    DotIndicator(cols, s, t);
    assert s * t * Elems(cols) == s * t;
  }

  lemma CosineSymmetric(a: Row, b: Row, sqrt: Root)
    requires |a| == |b|
    ensures Cosine(a, b, sqrt) == Cosine(b, a, sqrt)
  {
    DotSymmetric(a, b);
  }

  lemma CosineNonNegative(a: Row, b: Row, sqrt: Root)
    requires |a| == |b| && Binary(a) && Binary(b)
    ensures Cosine(a, b, sqrt) >= 0.0
  {
    DotBinary(a, b);
    var na, nb := Dot(a, a), Dot(b, b);
    if na > 0 && nb > 0 {
      assert sqrt(na) > 0.0 && sqrt(nb) > 0.0;
      assert sqrt(na) * sqrt(nb) > 0.0;
    }
  }

  /** A row with a non-zero norm is maximally similar to itself, a zero row not at all. */
  lemma CosineSelf(a: Row, sqrt: Root)
    requires Binary(a)
    requires Dot(a, a) > 0 ==> ExactRoot(sqrt, Dot(a, a))
    ensures Cosine(a, a, sqrt) == if Dot(a, a) > 0 then 1.0 else 0.0
  {
    var n := Dot(a, a);
    if n > 0 {
      var r := sqrt(n);
      assert r * r == n as real;
      assert Cosine(a, a, sqrt) == n as real / (r * r);
      DivSelf(r * r);
    }
  }

  /** Cosine similarity of binary rows never exceeds 1, given exact roots at the two norms. */
  lemma CosineAtMostOne(a: Row, b: Row, sqrt: Root)
    requires |a| == |b| && Binary(a) && Binary(b)
    requires Dot(a, a) > 0 ==> ExactRoot(sqrt, Dot(a, a))
    requires Dot(b, b) > 0 ==> ExactRoot(sqrt, Dot(b, b))
    ensures Cosine(a, b, sqrt) <= 1.0
  {
    DotBinary(a, b);
    DotBinary(b, a);
    DotSymmetric(a, b);
    CosineOfAtMostOne(Dot(a, b), Dot(a, a), Dot(b, b), sqrt);
  }

  lemma CosineOfAtMostOne(d: int, na: int, nb: int, sqrt: Root)
    requires 0 <= d <= na && d <= nb
    requires na > 0 ==> ExactRoot(sqrt, na)
    requires nb > 0 ==> ExactRoot(sqrt, nb)
    ensures CosineOf(d, na, nb, sqrt) <= 1.0
  {
    if na > 0 && nb > 0 {
      var ra, rb := sqrt(na), sqrt(nb);
      SharedAtMostRoot(d as real, na as real, nb as real, ra, rb);
    }
  }

  lemma DivLeOne(d: real, p: real)
    requires 0.0 <= d <= p && p > 0.0
    ensures d / p <= 1.0
  {
    var q := d / p;
    assert q * p == d;
  }

  lemma DivSelf(p: real)
    requires p > 0.0
    ensures p / p == 1.0
  {
  }

  /** If 0 <= d <= min(x, y) with x = ra^2 and y = rb^2, then d <= ra * rb. */
  lemma SharedAtMostRoot(d: real, x: real, y: real, ra: real, rb: real)
    requires 0.0 <= d <= x && d <= y && ra > 0.0 && rb > 0.0
    requires ra * ra == x && rb * rb == y
    ensures d / (ra * rb) <= 1.0
  {
    var p := ra * rb;
    assert p > 0.0;
    assert p * p == x * y by {
      assert p * p == (ra * ra) * (rb * rb);
    }
    assert d * d <= x * y by {
      assert d * d <= x * d;
      assert x * d <= x * y;
    }
    assert d <= p;
    DivLeOne(d, p);
  }

  /** Every row of `cells` has the same width. */
  predicate Rectangular<K>(cells: map<K, Row>) {
    forall u, v :: u in cells && v in cells ==> |cells[u]| == |cells[v]|
  }

  /** The similarity matrix: rows and columns both indexed by the keys of `cells`. */
  function SimilarityOf<K>(cells: map<K, Row>, sqrt: Root): (m: map<K, map<K, real>>)
    requires Rectangular(cells)
    ensures m.Keys == cells.Keys
    ensures forall u :: u in m ==> m[u].Keys == cells.Keys
  {
    map u | u in cells :: map v | v in cells :: Cosine(cells[u], cells[v], sqrt)
  }

  /** The similarity matrix is symmetric and, over 0/1 rows, non-negative. */
  lemma SimilaritySymmetric<K>(cells: map<K, Row>, sqrt: Root)
    requires Rectangular(cells)
    ensures forall u, v :: u in cells && v in cells ==>
      SimilarityOf(cells, sqrt)[u][v] == SimilarityOf(cells, sqrt)[v][u]
    ensures (forall u :: u in cells ==> Binary(cells[u])) ==>
      forall u, v :: u in cells && v in cells ==> SimilarityOf(cells, sqrt)[u][v] >= 0.0
  {
    var m := SimilarityOf(cells, sqrt);
    forall u, v | u in cells && v in cells ensures m[u][v] == m[v][u] {
      CosineSymmetric(cells[u], cells[v], sqrt);
    }
    if forall u :: u in cells ==> Binary(cells[u]) {
      forall u, v | u in cells && v in cells ensures m[u][v] >= 0.0 {
        CosineNonNegative(cells[u], cells[v], sqrt);
      }
    }
  }
}
