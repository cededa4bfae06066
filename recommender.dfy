/** The `MusicRecommender` class: its four derived fields, the builders that
    overwrite them in pipeline order, the recommendation routine shared by the
    existing-user and new-user paths, and onboarding. */
module Recommender {
  import opened Seqs
  import opened Vectors
  import opened Ranking
  import opened Scoring

  datatype Option<T> = None | Some(value: T)

  /** `UserNotFound`: the name is not a row of the similarity matrix.
      `EmptyMatrix`: scikit-learn's `ValueError` for an interest matrix
      without rows or without columns. */
  datatype Error = UserNotFound | EmptyMatrix

  datatype Result<T> = Success(value: T) | Failure(error: Error)

  /** The interest matrix as the DataFrame holds it: its column labels and one row per user. */
  datatype InterestMatrix = InterestMatrix(columns: seq<Artist>, cells: map<User, Row>)

  type SimilarityMatrix = map<User, map<User, real>>

  /** Every artist that some user has. */
  function UnionOf(ua: map<User, set<Artist>>): (all: set<Artist>)
    ensures forall u :: u in ua ==> ua[u] <= all
    ensures forall a :: a in all ==> exists u :: u in ua && a in ua[u]
  {
    set u, a | u in ua && a in ua[u] :: a
  }

  /** Overwriting one user's set adds at most that set to the union, and
      adds exactly it when the user is new. */
  lemma UnionAfterOverwrite(ua: map<User, set<Artist>>, u: User, s: set<Artist>)
    ensures UnionOf(ua[u := s]) <= UnionOf(ua) + s
    ensures u !in ua ==> UnionOf(ua[u := s]) == UnionOf(ua) + s
  {
    var ua' := ua[u := s];
    forall a | a in UnionOf(ua') ensures a in UnionOf(ua) + s {
      var v :| v in ua' && a in ua'[v];
      if v != u {
        assert a in ua[v];
      }
    }
    if u !in ua {
      assert ua'[u] == s;
      forall a | a in UnionOf(ua) ensures a in UnionOf(ua') {
        var v :| v in ua && a in ua[v];
        assert ua'[v] == ua[v];
      }
    }
  }

  /** Every user of the data with the set of its artists. */
  function UserSets(data: map<User, seq<Artist>>): (ua: map<User, set<Artist>>)
    ensures ua.Keys == data.Keys && forall u :: u in ua ==> ua[u] == Elems(data[u])
  {
    map u | u in data :: Elems(data[u])
  }

  /** The users have no artist between them exactly when every list is empty. */
  lemma NoArtistsInData(data: map<User, seq<Artist>>)
    ensures UnionOf(UserSets(data)) == {} <==> forall u :: u in data ==> data[u] == []
  {
    var ua := UserSets(data);
    if u :| u in data && data[u] != [] {
      assert data[u][0] in ua[u];
    }
  }

  /** Over a vocabulary listing the union, the interest matrix lacks rows or
      columns exactly when no user has an artist. */
  lemma NoArtistsNoMatrix(ua: map<User, set<Artist>>, cols: seq<Artist>)
    requires Elems(cols) == UnionOf(ua)
    ensures (InterestCells(ua, cols) == map[] || cols == []) <==> UnionOf(ua) == {}
  {
    if cols != [] {
      assert cols[0] in UnionOf(ua);
      var u :| u in ua && cols[0] in ua[u];
      assert u in InterestCells(ua, cols);
    }
  }

  /** The interest matrix built from the data lacks rows or columns exactly
      when every list of the data is empty. */
  lemma EmptyData(data: map<User, seq<Artist>>, ua: map<User, set<Artist>>, cols: seq<Artist>)
    requires ua == UserSets(data) && Elems(cols) == UnionOf(ua)
    ensures (InterestCells(ua, cols) == map[] || cols == []) <==> forall u :: u in data ==> data[u] == []
  {
    NoArtistsNoMatrix(ua, cols);
    NoArtistsInData(data);
  }

  /** Onboarding with artists of a built vocabulary: the rebuilt vocabulary
      does not grow, and is the same set when the name is new. */
  lemma OnboardedVocabulary(ua: map<User, set<Artist>>, cols: seq<Artist>, u: User, chosen: set<Artist>,
                            cols': seq<Artist>)
    requires Elems(cols) == UnionOf(ua) && chosen <= Elems(cols)
    requires Elems(cols') == UnionOf(ua[u := chosen])
    ensures Elems(cols') <= Elems(cols)
    ensures u !in ua ==> Elems(cols') == Elems(cols)
  {
    UnionAfterOverwrite(ua, u, chosen);
  }

  /** The artists that the users in `done` have. */
  function UnionOver(ua: map<User, set<Artist>>, done: set<User>): set<Artist> {
    set u, a | u in ua && u in done && a in ua[u] :: a
  }

  /** The 0/1 row of every user over the columns `cols`. */
  function InterestCells(ua: map<User, set<Artist>>, cols: seq<Artist>): (cells: map<User, Row>)
    ensures cells.Keys == ua.Keys && Rectangular(cells)
    ensures forall u :: u in cells ==> |cells[u]| == |cols| && Binary(cells[u])
  {
    map u | u in ua :: Indicator(cols, ua[u])
  }

  /** `cosine_similarity` on the interest matrix, stated on the users' sets:
      the similarity of two users is their number of shared artists over the
      product of the roots of their numbers of artists, it is symmetric, and
      it is 0 for a user with no artists. */
  lemma SimilarityOfSets(ua: map<User, set<Artist>>, cols: seq<Artist>, sqrt: Root)
    requires NoDups(cols) && forall u :: u in ua ==> ua[u] <= Elems(cols)
    ensures var m := SimilarityOf(InterestCells(ua, cols), sqrt);
      && m.Keys == ua.Keys
      && (forall u, v :: u in ua && v in ua ==>
            m[u][v] == CosineOf(|ua[u] * ua[v]|, |ua[u]|, |ua[v]|, sqrt) && m[u][v] == m[v][u])
      && (forall u, v :: u in ua && v in ua && ua[u] == {} ==> m[u][v] == 0.0)
  {
    var cells := InterestCells(ua, cols);
    forall u, v | u in ua && v in ua
      ensures SimilarityOf(cells, sqrt)[u][v] == CosineOf(|ua[u] * ua[v]|, |ua[u]|, |ua[v]|, sqrt)
    {
      SimilarityEntry(ua, cols, sqrt, u, v);
    }
    SimilaritySymmetric(cells, sqrt);
  }

  /** A user onboarded with the same artists as an existing user gets the
      same similarity row and column as that user. */
  lemma SameArtistsSameRow(ua: map<User, set<Artist>>, cols: seq<Artist>, sqrt: Root, u: User, v: User)
    requires u in ua && v in ua && ua[u] == ua[v]
    ensures var m := SimilarityOf(InterestCells(ua, cols), sqrt);
      && m[u] == m[v]
      && forall w :: w in ua ==> m[w][u] == m[w][v]
  {
    var cells := InterestCells(ua, cols);
    assert cells[u] == cells[v];
  }

  /** One entry of the similarity matrix, from the two users' sets. */
  lemma SimilarityEntry(ua: map<User, set<Artist>>, cols: seq<Artist>, sqrt: Root, u: User, v: User)
    requires NoDups(cols) && u in ua && v in ua && ua[u] <= Elems(cols) && ua[v] <= Elems(cols)
    ensures u in SimilarityOf(InterestCells(ua, cols), sqrt)
    ensures SimilarityOf(InterestCells(ua, cols), sqrt)[u].Keys == ua.Keys
    ensures SimilarityOf(InterestCells(ua, cols), sqrt)[u][v] == CosineOf(|ua[u] * ua[v]|, |ua[u]|, |ua[v]|, sqrt)
  {
    CosineOfSets(cols, ua[u], ua[v], sqrt);
  }

  /** With exact roots at the users' numbers of artists, similarities lie in
      [0, 1], and a user with artists is exactly as similar to itself as 1. */
  lemma SimilarityBounds(ua: map<User, set<Artist>>, cols: seq<Artist>, sqrt: Root)
    requires NoDups(cols) && forall u :: u in ua ==> ua[u] <= Elems(cols)
    requires forall u :: u in ua && ua[u] != {} ==> ExactRoot(sqrt, |ua[u]|)
    ensures var m := SimilarityOf(InterestCells(ua, cols), sqrt);
      && (forall u, v :: u in ua && v in ua ==> 0.0 <= m[u][v] <= 1.0)
      && (forall u :: u in ua && ua[u] != {} ==> m[u][u] == 1.0)
  {
    var cells := InterestCells(ua, cols);
    SimilaritySymmetric(cells, sqrt);
    forall u, v | u in ua && v in ua ensures SimilarityOf(cells, sqrt)[u][v] <= 1.0 {
      CosineOfSets(cols, ua[u], ua[v], sqrt);
      CosineAtMostOne(cells[u], cells[v], sqrt);
    }
    forall u | u in ua && ua[u] != {} ensures SimilarityOf(cells, sqrt)[u][u] == 1.0 {
      CosineOfSets(cols, ua[u], ua[u], sqrt);
      CosineSelf(cells[u], sqrt);
    }
  }

  function Zeros(n: nat): (r: Row)
    ensures |r| == n && forall j :: 0 <= j < n ==> r[j] == 0
  {
    seq(n, _ => 0)
  }

  /** `list(s)`: the elements of a set in some order, each once. */
  method ListOf(s: set<Artist>) returns (r: seq<Artist>)
    ensures NoDups(r) && Elems(r) == s
  {
    r := [];
    var rest := s;
    while rest != {}
      invariant rest !! Elems(r) && rest + Elems(r) == s
      invariant NoDups(r)
      decreases rest
    {
      var a :| a in rest;
      r := r + [a];
      rest := rest - {a};
    }
  }

  /** `.loc[user, list(artists)] = 1` on one row: every column whose label is
      in `artists` is set to 1, the others keep their value. */
  method MarkColumns(row: Row, cols: seq<Artist>, artists: set<Artist>) returns (r: Row)
    requires |row| == |cols|
    ensures |r| == |cols|
    ensures forall j :: 0 <= j < |cols| ==> r[j] == if cols[j] in artists then 1 else row[j]
  {
    r := row;
    var j := 0;
    while j < |cols|
      invariant 0 <= j <= |cols| && |r| == |cols|
      invariant forall k :: 0 <= k < j ==> r[k] == if cols[k] in artists then 1 else row[k]
      invariant forall k :: j <= k < |cols| ==> r[k] == row[k]
    {
      if cols[j] in artists {
        r := r[j := 1];
      }
      j := j + 1;
    }
  }

  /** Lines 80-91: the score table's keys are in order of first offer, so the
      stable ranking breaks ties between equally scored artists by the
      neighbour that offered them first. */
  lemma RankTable(keys: seq<Artist>, scores: map<Artist, real>, ns: seq<User>,
                  sims: map<User, real>, sets: map<User, set<Artist>>, own: set<Artist>, n: int)
    requires Covers(ns, sims, sets) && IsScoreTable(keys, scores, ns, sims, sets, own)
    ensures var r := Ranked(Items(keys, scores), n);
      forall i, j :: 0 <= i < j < |r| && r[i] in scores && r[j] in scores && scores[r[i]] == scores[r[j]] ==>
        FirstOffer(r[i], ns, sets) <= FirstOffer(r[j], ns, sets)
  {
    var first := map a | a in scores :: FirstOffer(a, ns, sets) as int;
    RankedTies(keys, scores, n, first);
  }

  class MusicRecommender {
    /** The square root the similarity computation normalises with. */
    const sqrt: Root
    var sampleData: map<User, seq<Artist>>
    var userArtists: map<User, set<Artist>>
    var allArtists: seq<Artist>
    var userVectors: Option<InterestMatrix>
    var similarityMatrix: Option<SimilarityMatrix>

    /** The vocabulary lists every artist of every user exactly once. */
    ghost predicate VocabularyBuilt()
      reads this
    {
      NoDups(allArtists) && Elems(allArtists) == UnionOf(userArtists)
    }

    /** All three derived fields agree with `userArtists`. */
    ghost predicate Built()
      reads this
    {
      && VocabularyBuilt()
      && userVectors == Some(InterestMatrix(allArtists, InterestCells(userArtists, allArtists)))
      && similarityMatrix == Some(SimilarityOf(InterestCells(userArtists, allArtists), sqrt))
    }

    constructor (data: map<User, seq<Artist>>, sqrt: Root)
      ensures this.sqrt == sqrt && sampleData == data
      ensures userArtists == map[] && allArtists == []
      ensures userVectors == None && similarityMatrix == None
    {
      this.sqrt := sqrt;
      sampleData := data;
      userArtists := map[];
      allArtists := [];
      userVectors := None;
      similarityMatrix := None;
    }

    /** `find_all_users_artists`: each user of the sample data gets the set of its entries. */
    method FindAllUsersArtists()
      modifies this`userArtists
      ensures userArtists.Keys == sampleData.Keys
      ensures forall u :: u in userArtists ==> userArtists[u] == Elems(sampleData[u])
    {
      var result: map<User, set<Artist>> := map[];
      var pending := sampleData.Keys;
      while pending != {}
        invariant pending <= sampleData.Keys
        invariant result.Keys == sampleData.Keys - pending
        invariant forall u :: u in result ==> result[u] == Elems(sampleData[u])
        decreases pending
      {
        var user :| user in pending;
        var data := sampleData[user];
        var artists: set<Artist> := {};
        var k := 0;
        while k < |data|
          invariant 0 <= k <= |data|
          invariant artists == Elems(data[..k])
        {
          assert data[..k + 1] == data[..k] + [data[k]];
          artists := artists + {data[k]};
          k := k + 1;
        }
        assert data[..|data|] == data;
        result := result[user := artists];
        pending := pending - {user};
      }
      userArtists := result;
    }

    /** `find_all_unique_artists`: the union of all users' sets, as a list. */
    method FindAllUniqueArtists()
      modifies this`allArtists
      ensures VocabularyBuilt()
      ensures forall u :: u in userArtists ==> userArtists[u] <= Elems(allArtists)
    {
      var all: set<Artist> := {};
      var pending := userArtists.Keys;
      while pending != {}
        invariant pending <= userArtists.Keys
        invariant all == UnionOver(userArtists, userArtists.Keys - pending)
        decreases pending
      {
        var user :| user in pending;
        ghost var done := userArtists.Keys - pending;
        assert UnionOver(userArtists, done + {user}) == all + userArtists[user];
        all := all + userArtists[user];
        pending := pending - {user};
        assert userArtists.Keys - pending == done + {user};
      }
      assert UnionOver(userArtists, userArtists.Keys) == UnionOf(userArtists);
      allArtists := ListOf(all);
    }

    /** `create_user_artist_matrix`: a zero matrix over the users and the
        vocabulary, then a 1 in every cell whose artist the user has. */
    method CreateUserArtistMatrix()
      requires forall u :: u in userArtists ==> userArtists[u] <= Elems(allArtists)
      modifies this`userVectors
      ensures userVectors.Some? && userVectors.value.columns == allArtists
      ensures userVectors.value.cells.Keys == userArtists.Keys
      ensures forall u :: u in userArtists ==> |userVectors.value.cells[u]| == |allArtists|
      ensures forall u, j :: u in userArtists && 0 <= j < |allArtists| ==>
        (userVectors.value.cells[u][j] == 1 <==> allArtists[j] in userArtists[u]) &&
        (userVectors.value.cells[u][j] == 0 <==> allArtists[j] !in userArtists[u])
      ensures userVectors == Some(InterestMatrix(allArtists, InterestCells(userArtists, allArtists)))
    {
      var cols := allArtists;
      var cells: map<User, Row> := map u | u in userArtists :: Zeros(|cols|);
      var pending := userArtists.Keys;
      while pending != {}
        invariant pending <= userArtists.Keys
        invariant cells.Keys == userArtists.Keys
        invariant forall u :: u in cells ==>
          cells[u] == if u in pending then Zeros(|cols|) else Indicator(cols, userArtists[u])
        decreases pending
      {
        var user :| user in pending;
        var row := MarkColumns(cells[user], cols, userArtists[user]);
        assert row == Indicator(cols, userArtists[user]);
        cells := cells[user := row];
        pending := pending - {user};
      }
      assert cells == InterestCells(userArtists, cols);
      userVectors := Some(InterestMatrix(cols, cells));
    }

    /** `calculate_similarity_matrix`: the cosine similarity of every pair of
        rows. scikit-learn refuses a matrix without rows or without columns;
        that `ValueError` is `EmptyMatrix`, and the field keeps its value. */
    method CalculateSimilarityMatrix() returns (res: Result<()>)
      requires userVectors.Some? && Rectangular(userVectors.value.cells)
      modifies this`similarityMatrix
      ensures res.Failure? <==> userVectors.value.cells == map[] || userVectors.value.columns == []
      ensures res.Failure? ==> res.error == EmptyMatrix && similarityMatrix == old(similarityMatrix)
      ensures res.Success? ==> similarityMatrix == Some(SimilarityOf(userVectors.value.cells, sqrt))
    {
      if userVectors.value.cells == map[] || userVectors.value.columns == [] {
        return Failure(EmptyMatrix);
      }
      similarityMatrix := Some(SimilarityOf(userVectors.value.cells, sqrt));
      res := Success(());
    }

    /** The recommendation routine that both suggestion paths share: order all
        users by similarity to `target`, take the neighbours at positions
        1..topN, score the artists they have and `target` lacks, rank by score
        and keep the first `suggestionNumber`. The ghost results are the
        similarity order and the score dictionary the routine went through. */
    method Recommend(target: User, topN: int, suggestionNumber: int)
      returns (r: seq<Artist>, ghost order: seq<User>, ghost keys: seq<Artist>, ghost scores: map<Artist, real>)
      requires Built() && target in userArtists
      ensures target in similarityMatrix.value
      ensures IsDescendingOrder(order, similarityMatrix.value[target])
      ensures Covers(Neighbours(order, topN), similarityMatrix.value[target], userArtists)
      ensures IsScoreTable(keys, scores, Neighbours(order, topN), similarityMatrix.value[target],
                           userArtists, userArtists[target])
      ensures r == Ranked(Items(keys, scores), suggestionNumber)
      ensures NoDups(r)
      ensures forall a :: a in r ==> a in scores && a !in userArtists[target]
      ensures forall i, j :: 0 <= i < j < |r| ==> scores[r[i]] >= scores[r[j]]
      ensures suggestionNumber >= 0 ==> |r| == Min(suggestionNumber, |scores|)
      // ties keep the dictionary's insertion order, hence the order of first offer
      ensures forall i, j :: 0 <= i < j < |r| && r[i] in scores && r[j] in scores && scores[r[i]] == scores[r[j]] ==>
        Positions(keys)[r[i]] < Positions(keys)[r[j]]
      ensures forall i, j :: 0 <= i < j < |r| && r[i] in scores && r[j] in scores && scores[r[i]] == scores[r[j]] ==>
        FirstOffer(r[i], Neighbours(order, topN), userArtists) <= FirstOffer(r[j], Neighbours(order, topN), userArtists)
    {
      var row := similarityMatrix.value[target];
      var o := DescendingOrder(row);
      var ns := Neighbours(o, topN);
      assert Covers(ns, row, userArtists) by {
        forall k | 0 <= k < |ns| ensures ns[k] in row && ns[k] in userArtists {
          assert ns[k] == o[1 + k];
        }
      }
      var k, s := ScoreCandidates(ns, row, userArtists, userArtists[target]);
      r := Ranked(Items(k, s), suggestionNumber);
      order, keys, scores := o, k, s;
      RankedItems(keys, scores, suggestionNumber);
      RankedInInsertionOrder(keys, scores, suggestionNumber);
      RankTable(keys, scores, ns, row, userArtists, userArtists[target], suggestionNumber);
    }

    /** `suggest_artists_current_user` without its prompts: an unknown user is
        an error, otherwise the shared routine's ranking, with the similarity
        order and score dictionary it went through as ghost results. */
    method SuggestArtistsCurrentUser(current: User, topN: int, suggestionNumber: int)
      returns (res: Result<seq<Artist>>, ghost order: seq<User>, ghost keys: seq<Artist>, ghost scores: map<Artist, real>)
      requires Built()
      ensures res.Failure? <==> current !in userArtists
      ensures res.Failure? ==> res.error == UserNotFound
      ensures res.Success? ==> current in similarityMatrix.value
      ensures res.Success? ==> IsDescendingOrder(order, similarityMatrix.value[current])
      ensures res.Success? ==> Covers(Neighbours(order, topN), similarityMatrix.value[current], userArtists)
      ensures res.Success? ==> IsScoreTable(keys, scores, Neighbours(order, topN), similarityMatrix.value[current],
                                            userArtists, userArtists[current])
      ensures res.Success? ==> res.value == Ranked(Items(keys, scores), suggestionNumber)
      ensures res.Success? ==>
        && NoDups(res.value)
        && (forall a :: a in res.value ==> a in scores && a !in userArtists[current] && a in UnionOf(userArtists))
        && (forall i, j :: 0 <= i < j < |res.value| ==> scores[res.value[i]] >= scores[res.value[j]])
        && (suggestionNumber >= 0 ==> |res.value| == Min(suggestionNumber, |scores|))
      ensures res.Success? ==>
        forall i, j :: 0 <= i < j < |res.value| && res.value[i] in scores && res.value[j] in scores &&
                       scores[res.value[i]] == scores[res.value[j]] ==>
          FirstOffer(res.value[i], Neighbours(order, topN), userArtists) <= FirstOffer(res.value[j], Neighbours(order, topN), userArtists)
    {
      if current !in similarityMatrix.value {
        return Failure(UserNotFound), [], [], map[];
      }
      var r;
      r, order, keys, scores := Recommend(current, topN, suggestionNumber);
      forall a | a in r ensures a in UnionOf(userArtists) {
        var ns := Neighbours(order, topN);
        OfferedMembers(ns, userArtists, a);
        var i :| 0 <= i < |ns| && a in userArtists[ns[i]];
      }
      res := Success(r);
    }

    /** Lines 146-148 of onboarding: vocabulary, matrix and similarity matrix
        rebuilt from `userArtists`, in dependency order. The similarity step
        fails when no user has an artist, after the first two have run. */
    method Rebuild() returns (res: Result<()>)
      modifies this`allArtists, this`userVectors, this`similarityMatrix
      ensures NoDups(allArtists) && Elems(allArtists) == UnionOf(userArtists)
      ensures userVectors == Some(InterestMatrix(allArtists, InterestCells(userArtists, allArtists)))
      ensures res.Failure? <==> UnionOf(userArtists) == {}
      ensures res.Failure? ==> res.error == EmptyMatrix && similarityMatrix == old(similarityMatrix)
      ensures res.Success? ==> Built()
    {
      ghost var sm := similarityMatrix;
      FindAllUniqueArtists();
      CreateUserArtistMatrix();
      assert similarityMatrix == sm;
      ghost var ua, cols := userArtists, allArtists;
      assert userVectors == Some(InterestMatrix(cols, InterestCells(ua, cols)));
      NoArtistsNoMatrix(ua, cols);
      res := CalculateSimilarityMatrix();
    }

    /** `suggest_artists_new_user` without its prompts: `chosen` is the set of
        vocabulary artists picked at the prompt. The user is registered (an
        existing name is overwritten), vocabulary, matrix and similarity matrix
        are rebuilt in that order, and the shared routine ranks for the user.
        When no user has an artist the rebuild raises and nothing is ranked. */
    method SuggestArtistsNewUser(newUser: User, chosen: set<Artist>, topN: int, suggestionNumber: int)
      returns (res: Result<seq<Artist>>, ghost order: seq<User>, ghost keys: seq<Artist>, ghost scores: map<Artist, real>)
      requires chosen <= Elems(allArtists)
      modifies this`userArtists, this`allArtists, this`userVectors, this`similarityMatrix
      ensures userArtists == old(userArtists)[newUser := chosen]
      ensures VocabularyBuilt()
      ensures userVectors == Some(InterestMatrix(allArtists, InterestCells(userArtists, allArtists)))
      ensures old(VocabularyBuilt()) ==> Elems(allArtists) <= old(Elems(allArtists))
      ensures old(VocabularyBuilt()) && newUser !in old(userArtists) ==> Elems(allArtists) == old(Elems(allArtists))
      ensures res.Failure? <==> UnionOf(userArtists) == {}
      ensures res.Failure? ==> res.error == EmptyMatrix && similarityMatrix == old(similarityMatrix)
      ensures res.Success? ==> Built() && newUser in similarityMatrix.value
      ensures res.Success? ==> IsDescendingOrder(order, similarityMatrix.value[newUser])
      ensures res.Success? ==> Covers(Neighbours(order, topN), similarityMatrix.value[newUser], userArtists)
      ensures res.Success? ==> IsScoreTable(keys, scores, Neighbours(order, topN), similarityMatrix.value[newUser],
                                            userArtists, chosen)
      ensures res.Success? ==> res.value == Ranked(Items(keys, scores), suggestionNumber)
      ensures res.Success? ==> NoDups(res.value) && forall a :: a in res.value ==> a !in chosen
    {
      ghost var wasBuilt, oldCols, oldUsers := VocabularyBuilt(), allArtists, userArtists;
      userArtists := userArtists[newUser := chosen];
      var built := Rebuild();
      if wasBuilt {
        OnboardedVocabulary(oldUsers, oldCols, newUser, chosen, allArtists);
      }
      if built.Failure? {
        return Failure(EmptyMatrix), [], [], map[];
      }
      var r;
      r, order, keys, scores := Recommend(newUser, topN, suggestionNumber);
      res := Success(r);
    }
  }

  /** The constructor followed by the four builders, in the order their data
      dependencies impose: each reads the field the previous one wrote. The
      last raises when no list of the data names an artist. */
  method NewRecommender(data: map<User, seq<Artist>>, sqrt: Root) returns (rec: MusicRecommender, res: Result<()>)
    ensures fresh(rec) && rec.sqrt == sqrt && rec.sampleData == data
    ensures rec.userArtists == UserSets(data) && rec.VocabularyBuilt()
    ensures rec.userVectors == Some(InterestMatrix(rec.allArtists, InterestCells(rec.userArtists, rec.allArtists)))
    ensures res.Failure? <==> forall u :: u in data ==> data[u] == []
    ensures res.Failure? ==> res.error == EmptyMatrix && rec.similarityMatrix == None
    ensures res.Success? ==> rec.Built()
  {
    rec := new MusicRecommender(data, sqrt);
    rec.FindAllUsersArtists();
    assert rec.userArtists == UserSets(data);
    rec.FindAllUniqueArtists();
    rec.CreateUserArtistMatrix();
    EmptyData(data, rec.userArtists, rec.allArtists);
    assert rec.similarityMatrix == None;
    ghost var uv := rec.userVectors;
    res := rec.CalculateSimilarityMatrix();
    assert rec.userVectors == uv;
  }

  /** A session for an existing user: load the sample data, build the four
      fields in pipeline order, and ask for a suggestion. The ghost results
      are the target's similarities to every user, the similarity order and
      the score dictionary; the similarities are stated on the data alone. */
  method SuggestFromData(data: map<User, seq<Artist>>, sqrt: Root, user: User, topN: int, suggestionNumber: int)
    returns (res: Result<seq<Artist>>, ghost sims: map<User, real>, ghost order: seq<User>,
             ghost keys: seq<Artist>, ghost scores: map<Artist, real>)
    ensures res.Failure? <==> user !in data || forall u :: u in data ==> data[u] == []
    ensures res.Failure? ==> res.error == if forall u :: u in data ==> data[u] == [] then EmptyMatrix else UserNotFound
    ensures res.Success? ==> var ua := UserSets(data);
      && sims.Keys == data.Keys
      && (forall v :: v in data ==> sims[v] == CosineOf(|ua[user] * ua[v]|, |ua[user]|, |ua[v]|, sqrt))
    ensures res.Success? ==> IsDescendingOrder(order, sims) && Covers(Neighbours(order, topN), sims, UserSets(data))
    ensures res.Success? ==> user in data
    ensures res.Success? ==> IsScoreTable(keys, scores, Neighbours(order, topN), sims, UserSets(data), Elems(data[user]))
    ensures res.Success? ==> res.value == Ranked(Items(keys, scores), suggestionNumber)
    ensures res.Success? ==> NoDups(res.value) && forall a :: a in res.value ==> a !in Elems(data[user])
    ensures res.Success? && suggestionNumber >= 0 ==> |res.value| == Min(suggestionNumber, |scores|)
  {
    var recommender, built := NewRecommender(data, sqrt);
    if built.Failure? {
      return Failure(EmptyMatrix), map[], [], [], map[];
    }
    res, order, keys, scores := recommender.SuggestArtistsCurrentUser(user, topN, suggestionNumber);
    if res.Failure? {
      return res, map[], [], [], map[];
    }
    ghost var ua := recommender.userArtists;
    SimilarityOfSets(ua, recommender.allArtists, sqrt);
    sims := recommender.similarityMatrix.value[user];
  }
}
