/** A worked example of the whole pipeline: three playlists A = {x, y},
    B = {y, z} and C = {x, y, z}. Whatever order the vocabulary is listed in,
    A is more similar to C than to B, so C is A's nearest neighbour and z is
    the one artist recommended. */
module Scenarios {
  import opened Seqs
  import opened Vectors
  import opened Ranking
  import opened Scoring
  import opened Recommender

  function Playlists(): map<User, seq<Artist>> {
    map["A" := ["x", "y"], "B" := ["y", "z"], "C" := ["x", "y", "z"]]
  }

  function Sets(): map<User, set<Artist>> {
    map["A" := {"x", "y"}, "B" := {"y", "z"}, "C" := {"x", "y", "z"}]
  }

  /** The exact similarities of A to the three users, from the sizes of the
      sets alone: 1 to itself, 1/2 to B and 2/(√2·√3) to C, which is the larger. */
  lemma ScenarioSimilarities(ua: map<User, set<Artist>>, cols: seq<Artist>, sqrt: Root)
    requires NoDups(cols) && forall u :: u in ua ==> ua[u] <= Elems(cols)
    requires "A" in ua && "B" in ua && "C" in ua
    requires |ua["A"]| == 2 && |ua["B"]| == 2 && |ua["C"]| == 3
    requires |ua["A"] * ua["A"]| == 2 && |ua["A"] * ua["B"]| == 1 && |ua["A"] * ua["C"]| == 2
    requires ExactRoot(sqrt, 2) && ExactRoot(sqrt, 3)
    ensures var m := SimilarityOf(InterestCells(ua, cols), sqrt);
      && m["A"].Keys == ua.Keys
      && m["A"]["A"] == 1.0
      && m["A"]["B"] == 0.5
      && m["A"]["C"] == 2.0 / (sqrt(2) * sqrt(3))
      && 1.0 > m["A"]["C"] > m["A"]["B"]
  {
    CosinesOfA(ua, cols, sqrt);
    RootFacts(sqrt);
  }

  /** A's similarities as cosines of the shared and own counts. */
  lemma CosinesOfA(ua: map<User, set<Artist>>, cols: seq<Artist>, sqrt: Root)
    requires NoDups(cols) && forall u :: u in ua ==> ua[u] <= Elems(cols)
    requires "A" in ua && "B" in ua && "C" in ua
    requires |ua["A"]| == 2 && |ua["B"]| == 2 && |ua["C"]| == 3
    requires |ua["A"] * ua["A"]| == 2 && |ua["A"] * ua["B"]| == 1 && |ua["A"] * ua["C"]| == 2
    ensures var m := SimilarityOf(InterestCells(ua, cols), sqrt);
      && m["A"].Keys == ua.Keys
      && m["A"]["A"] == CosineOf(2, 2, 2, sqrt)
      && m["A"]["B"] == CosineOf(1, 2, 2, sqrt)
      && m["A"]["C"] == CosineOf(2, 2, 3, sqrt)
  {
    SimilarityEntry(ua, cols, sqrt, "A", "A");
    SimilarityEntry(ua, cols, sqrt, "A", "B");
    SimilarityEntry(ua, cols, sqrt, "A", "C");
  }

  /** The sizes the similarities of A are computed from. */
  lemma SetFacts(ua: map<User, set<Artist>>)
    requires ua == Sets()
    ensures ua.Keys == {"A", "B", "C"}
    ensures forall u :: u in ua ==> ua[u] <= {"x", "y", "z"}
    ensures |ua["A"]| == 2 && |ua["B"]| == 2 && |ua["C"]| == 3
    ensures |ua["A"] * ua["A"]| == 2 && |ua["A"] * ua["B"]| == 1 && |ua["A"] * ua["C"]| == 2
    ensures ua["C"] - ua["A"] == {"z"} && ua["B"] - ua["A"] == {"z"}
  {
    var xy: set<Artist> := {"x", "y"};
    assert ua["A"] * ua["A"] == xy;
    assert ua["A"] * ua["B"] == {"y"};
    assert ua["A"] * ua["C"] == xy;
  }

  /** The three cosines, for exact roots of 2 and 3: 2/2 = 1, 1/2 and
      2/(√2·√3), which exceeds 1/2 since (√2·√3)² = 6 < 16. */
  lemma RootFacts(sqrt: Root)
    requires ExactRoot(sqrt, 2) && ExactRoot(sqrt, 3)
    ensures CosineOf(2, 2, 2, sqrt) == 1.0 && CosineOf(1, 2, 2, sqrt) == 0.5
    ensures CosineOf(2, 2, 3, sqrt) == 2.0 / (sqrt(2) * sqrt(3))
    ensures 1.0 > CosineOf(2, 2, 3, sqrt) > CosineOf(1, 2, 2, sqrt)
  {
    var r2, r3 := sqrt(2), sqrt(3);
    assert r2 > 0.0 && r3 > 0.0 && r2 * r2 == 2.0 && r3 * r3 == 3.0;
    var p := r2 * r3;
    assert p > 0.0;
    assert p * p == 6.0 by {
      assert p * p == (r2 * r2) * (r3 * r3);
    }
    assert p < 4.0;
    var q := 2.0 / p;
    assert q * p == 2.0;
    assert q > 0.5;
    assert p > 2.0;
    assert q < 1.0;
  }

  /** A's similarity row and the artists A lacks, for any listing of the vocabulary. */
  lemma ScenarioRow(ua: map<User, set<Artist>>, cols: seq<Artist>, sqrt: Root)
    requires ua == Sets() && NoDups(cols) && Elems(cols) == {"x", "y", "z"}
    requires ExactRoot(sqrt, 2) && ExactRoot(sqrt, 3)
    ensures "A" in ua && "B" in ua && "C" in ua
    ensures ua["C"] - ua["A"] == {"z"} && ua["B"] - ua["A"] == {"z"}
    ensures var m := SimilarityOf(InterestCells(ua, cols), sqrt);
      && m["A"].Keys == {"A", "B", "C"}
      && m["A"]["A"] > m["A"]["C"] > m["A"]["B"]
  {
    SetFacts(ua);
    ScenarioSimilarities(ua, cols, sqrt);
  }

  /** With strictly ordered similarities the descending order is unique. */
  lemma ForcedOrder(order: seq<User>, row: map<User, real>)
    requires IsDescendingOrder(order, row)
    requires row.Keys == {"A", "B", "C"}
    requires row["A"] > row["C"] > row["B"]
    ensures order == ["A", "C", "B"]
  {
    NoDupsCard(order);
    assert |order| == 3;
    assert order[0] in row && order[1] in row && order[2] in row;
    assert "A" in Elems(order) && "B" in Elems(order) && "C" in Elems(order);
  }

  /** `find_all_users_artists` on the three playlists. */
  lemma PlaylistSets(ua: map<User, set<Artist>>)
    requires ua.Keys == Playlists().Keys
    requires forall u :: u in ua ==> ua[u] == Elems(Playlists()[u])
    ensures ua == Sets()
  {
    assert Elems(Playlists()["A"]) == {"x", "y"};
    assert Elems(Playlists()["B"]) == {"y", "z"};
    assert Elems(Playlists()["C"]) == {"x", "y", "z"};
  }

  /** The vocabulary of the three playlists. */
  lemma SetsUnion()
    ensures UnionOf(Sets()) == {"x", "y", "z"}
  {
    assert Sets()["C"] <= UnionOf(Sets());
  }

  /** The interest sets, vocabulary and both matrices of the three playlists. */
  method Build(sqrt: Root) returns (rec: MusicRecommender)
    ensures fresh(rec) && rec.Built() && rec.userArtists == Sets() && rec.sqrt == sqrt
    ensures Elems(rec.allArtists) == {"x", "y", "z"}
  {
    var built;
    assert Playlists()["A"] != [];
    rec, built := NewRecommender(Playlists(), sqrt);
    if built.Failure? {
      assert false;
    }
    PlaylistSets(rec.userArtists);
    SetsUnion();
  }

  /** recommend(A, k, n) = [z] when C is among the neighbours and n >= 1, and
      [] otherwise. C is a neighbour for every k >= 1, a k beyond the number of
      other users being clamped; a negative k slices from the end, so k = -2
      still selects C while k = -1 selects no one. */
  method RecommendForA(sqrt: Root, topN: int, suggestionNumber: int) returns (r: seq<Artist>)
    requires ExactRoot(sqrt, 2) && ExactRoot(sqrt, 3)
    ensures r == if (topN >= 1 || topN == -2) && suggestionNumber >= 1 then ["z"] else []
  {
    var rec := Build(sqrt);
    ghost var ua, row := rec.userArtists, rec.similarityMatrix.value["A"];
    ScenarioRow(ua, rec.allArtists, sqrt);
    ghost var order, keys, scores;
    r, order, keys, scores := rec.Recommend("A", topN, suggestionNumber);
    ForcedOrder(order, row);
    NeighboursOfA(order, topN);
    Candidates(Neighbours(order, topN), row, ua, keys, scores);
    ResultOf(r, keys, scores, suggestionNumber);
  }

  /** The neighbours `index[1:k+1]` of the order A, C, B. */
  lemma NeighboursOfA(order: seq<User>, topN: int)
    requires order == ["A", "C", "B"]
    ensures Neighbours(order, topN) ==
      if topN >= 2 then ["C", "B"] else if topN == 1 || topN == -2 then ["C"] else []
  {
  }

  /** Neighbours C, or C and B, leave z as the only candidate; no neighbours, none. */
  lemma Candidates(ns: seq<User>, sims: map<User, real>, ua: map<User, set<Artist>>,
                   keys: seq<Artist>, scores: map<Artist, real>)
    requires ns == [] || ns == ["C"] || ns == ["C", "B"]
    requires "A" in ua && "B" in ua && "C" in ua
    requires ua["C"] - ua["A"] == {"z"} && ua["B"] - ua["A"] == {"z"}
    requires Covers(ns, sims, ua) && IsScoreTable(keys, scores, ns, sims, ua, ua["A"])
    ensures scores.Keys == if ns == [] then {} else {"z"}
  {
    if ns != [] {
      assert ns[..1] == ["C"] && ["C"][..0] == [];
      assert Offered(["C"], ua) == ua["C"];
    }
  }

  /** The ranking of a table whose only possible candidate is z. */
  lemma ResultOf(r: seq<Artist>, keys: seq<Artist>, scores: map<Artist, real>, n: int)
    requires NoDups(keys) && Elems(keys) == scores.Keys && scores.Keys <= {"z"}
    requires r == Ranked(Items(keys, scores), n)
    ensures r == if scores.Keys == {"z"} && n >= 1 then ["z"] else []
  {
    RankedItems(keys, scores, n);
    SortDescCorrect(Items(keys, scores));
    NoDupsCard(keys);
    if "z" in scores {
      assert scores.Keys == {"z"};
    } else {
      assert scores.Keys == {};
    }
    assert |Firsts(SortDesc(Items(keys, scores)))| == |scores.Keys| <= 1;
    if r != [] {
      assert r[0] in scores;
    }
  }

  /** A single user with an empty list leaves the interest matrix without
      columns, so building the similarity matrix raises before any user is
      looked up. */
  method RecommendWithoutArtists(sqrt: Root, user: User, topN: int, suggestionNumber: int)
    returns (res: Result<seq<Artist>>)
    ensures res == Failure(EmptyMatrix)
  {
    ghost var sims, order, keys, scores;
    res, sims, order, keys, scores := SuggestFromData(map["u" := []], sqrt, user, topN, suggestionNumber);
  }
}
