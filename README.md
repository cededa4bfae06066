# MusicRecommender — a verified model of the artist recommender

This project models the `MusicRecommender` class of Spotify-RecSystem
(`artist_recommendations/crs.py`), a user-based collaborative filter over
playlists treated as users. The class works in four build steps, each
overwriting one field:

1. the set of artists of every user;
2. the vocabulary of all artists, as a list;
3. the 0/1 user × artist interest matrix;
4. the user × user cosine-similarity matrix.

A recommendation then takes these steps:

- order all users by similarity to the target;
- take the neighbours at positions `1..top_n` of that order;
- add each neighbour's similarity to every artist the neighbour has and the
  target lacks;
- rank the artists by score with a stable descending sort;
- keep the first `suggestion_number`.

Onboarding a new user registers the user's chosen artists, rebuilds steps 2–4
and runs the same recommendation.

The model is split into these modules:

- `Seqs` (`seqs.dfy`): set-of-elements, duplicate-freedom, and Python's
  `s[start:stop]` with negative and out-of-range bounds.
- `Vectors` (`vectors.dfy`):
  - indicator rows, the dot product and cosine similarity;
  - dot products of indicator rows count shared artists;
  - the similarity matrix is symmetric and non-negative, its diagonal is 1 and
    its entries are at most 1.
- `Ranking` (`ranking.dfy`):
  - `sorted(..., key=score, reverse=True)` is a stable insertion sort;
  - the sort is proved to be a permutation, descending and stable;
  - the ranked prefix is proved to be the top `n`, with ties in dictionary
    insertion order.
- `Scoring` (`scoring.dfy`):
  - the descending similarity order, written as a selection loop that admits
    every order pandas may produce on ties;
  - neighbour selection;
  - the scoring loops, proved against the reference function `Score` and the
    "first offered" insertion order.
- `Recommender` (`recommender.dfy`):
  - the class itself, whose methods update its fields in place (`modifies`)
    and state the new state;
  - the shared recommendation routine;
  - the existing-user and new-user entry points;
  - set-level facts about the similarity matrix.
- `Scenarios` (`scenarios.dfy`): the three playlists A = {x, y}, B = {y, z} and
  C = {x, y, z}, run through the whole pipeline. The results are:
  - sim(A, B) = 1/2 and sim(A, C) = 2/(√2·√3);
  - `recommend(A, k, n)` is `[z]` for every k ≥ 1 and n ≥ 1;
  - the result is `[]` for n ≤ 0, for k ∈ {0, −1} and for every k ≤ −3. k = −2 still selects C, because
    a negative count slices from the end.
  - data whose only list is empty fails with `EmptyMatrix` before any user is
    looked up.

Floating point is not modelled. Similarities and scores are `real`. The square
root inside the cosine is a parameter `sqrt: Root` of the class: any function
positive on positive integers. Results that need the true root (the diagonal is
1, similarities are at most 1, the scenario values) assume
`sqrt(n) * sqrt(n) == n` at the arguments they use.

The source reads the similarity of the target to a neighbour in two ways:

- the column `similarity_matrix[current_user]`, when it sorts (line 79);
- the entry `.at[current_user, similar_user]`, when it scores (line 82).

The model reads the target's row for both. `Vectors.SimilaritySymmetric`
proves the row and the column equal.

Where the intended behaviour and the code differ, the model follows the code:

- Onboarding only accepts artists already in the vocabulary (line 140), so,
  once the vocabulary has been built from the user sets, it never grows.
- scikit-learn's `cosine_similarity` (line 49) raises `ValueError` on a
  matrix without rows or without columns. That happens when no user has an
  artist: empty data, data whose lists are all empty, or an empty set
  onboarded where no other user has artists. The model returns this as the
  error `EmptyMatrix`, and every entry point that rebuilds the matrix passes
  it on.
- Onboarding an existing name silently overwrites that user's artists (line
  145). There is no duplicate-user error.
- A negative `top_n` or `suggestion_number` is not rejected. It slices from the
  end (lines 79, 91).
- Equally scored artists keep the dictionary's insertion order: the order of
  the first neighbour that offered them, then set iteration order. No
  vocabulary-order tie-break is applied.
- Position 0 of the similarity order is skipped whether or not it is the
  target. When another user ties with the target at the top, the target itself
  can be among its neighbours, and it contributes nothing to the scores.
  `IsDescendingOrder` admits such orders.

## Model

| member | source | states |
|---|---|---|
| Seqs.Slice | artist_recommendations/crs.py:79 | Python's `s[start:stop]`: the length after normalising negative and out-of-range bounds, each element taken from the normalised start, and `min(stop, len) - start` for in-range non-negative bounds |
| Seqs.SliceSubseq | artist_recommendations/crs.py:91 | a slice keeps only elements of the list and never duplicates one |
| Vectors.Indicator | artist_recommendations/crs.py:40-42 | a user's row has one cell per vocabulary column, 1 exactly when the column's artist is in the user's set and 0 otherwise |
| Vectors.CosineOf | artist_recommendations/crs.py:49 | the cosine from its ingredients: the dot product over the product of the roots of the two squared norms, and 0 when either norm is 0, as scikit-learn leaves zero rows at zero. `CosineSymmetric`, `CosineNonNegative`, `CosineSelf` and `CosineAtMostOne` prove its properties |
| Vectors.Cosine | artist_recommendations/crs.py:49 | `cosine_similarity` of two rows of equal width, by `CosineOf` applied to their dot product and squared norms. `CosineOfSets` gives it on 0/1 rows as shared / (√|s|·√|t|) |
| Vectors.DotIndicator | artist_recommendations/crs.py:49 | over duplicate-free columns, the dot product of two indicator rows is the number of artists the two sets share among the columns |
| Vectors.CosineOfSets | artist_recommendations/crs.py:49 | for sets inside the vocabulary: the dot product is the size of the intersection, the squared norm is the size of the set, and the cosine is shared / (√|s|·√|t|) |
| Vectors.CosineSymmetric | artist_recommendations/crs.py:49 | cosine similarity is symmetric |
| Vectors.CosineNonNegative | artist_recommendations/crs.py:49 | cosine similarity of 0/1 rows is never negative |
| Vectors.CosineSelf | artist_recommendations/crs.py:49 | a row with artists has similarity exactly 1 with itself, given an exact root; an all-zero row has similarity 0 |
| Vectors.CosineAtMostOne | artist_recommendations/crs.py:49 | cosine similarity of 0/1 rows is at most 1, given exact roots at the two norms |
| Vectors.SimilarityOf | artist_recommendations/crs.py:49 | the similarity matrix has a row for every user and, in each row, a column for every user |
| Vectors.SimilaritySymmetric | artist_recommendations/crs.py:49 | the similarity matrix is symmetric, and non-negative over 0/1 rows |
| Ranking.Firsts | artist_recommendations/crs.py:90 | the artist list keeps the order and length of the sorted pairs, taking the first component of each |
| Ranking.Items | artist_recommendations/crs.py:89 | `recommendations.items()`: one (artist, score) pair per key, in key order |
| Ranking.SortDesc | artist_recommendations/crs.py:89 | `sorted(items, key=lambda x: x[1], reverse=True)` as an insertion sort. `SortDescCorrect`, `SortDescStable` and `SortDescTies` prove it a permutation, descending and stable, which pins it to Python's stable reverse sort |
| Ranking.Ranked | artist_recommendations/crs.py:89-91 | sort the items, keep the artists, slice `[0:n]`. `RankedItems`, `RankedDistinct` and `RankedInInsertionOrder` prove the result distinct, descending, exactly min(n, #candidates) long for n ≥ 0, no omitted artist outscoring a kept one, and ties in insertion order |
| Ranking.InsertFacts | artist_recommendations/crs.py:89 | inserting into the sorted list adds exactly the one entry (length, multiset, elements) |
| Ranking.InsertDescending | artist_recommendations/crs.py:89 | inserting into a descending list keeps it descending |
| Ranking.InsertKeys | artist_recommendations/crs.py:89-90 | inserting an entry adds exactly its artist to the sorted artists, and keeps them distinct when the artist is new |
| Ranking.InsertWithScore | artist_recommendations/crs.py:89 | among the entries of any one score, the inserted entry comes first and the others keep their order |
| Ranking.InsertTies | artist_recommendations/crs.py:89 | inserting an entry ranked no later than every other keeps ties in rank order |
| Ranking.SortDescCorrect | artist_recommendations/crs.py:89 | `sorted(..., reverse=True)` returns a permutation of its input in non-increasing score order |
| Ranking.SortDescPermutes | artist_recommendations/crs.py:89 | the sort keeps every entry with its multiplicity, and the length |
| Ranking.SortDescDescending | artist_recommendations/crs.py:89 | the sort output is in non-increasing score order |
| Ranking.SortDescStable | artist_recommendations/crs.py:89 | the sort is stable: the entries of any one score appear in their input order |
| Ranking.SortDescKeys | artist_recommendations/crs.py:89-90 | sorting keeps the set of artists and their duplicate-freedom |
| Ranking.SortedItems | artist_recommendations/crs.py:89-90 | sorting the items of a score table yields every artist once, in non-increasing score order, each paired with its own score |
| Ranking.SortDescTies | artist_recommendations/crs.py:89 | stability, pairwise: keys given in non-decreasing rank come out with every tie in non-decreasing rank |
| Ranking.RankedItems | artist_recommendations/crs.py:89-91 | the first `n` ranked artists are distinct candidates in non-increasing score order, exactly min(n, #candidates) of them for n ≥ 0, and every kept artist scores at least as high as every omitted one |
| Ranking.RankedDistinct | artist_recommendations/crs.py:89-91 | the recommended artists are distinct for every n, negative ones included |
| Ranking.RankedTies | artist_recommendations/crs.py:89-91 | equally scored ranked artists keep any order the dictionary's keys were in |
| Ranking.RankedInInsertionOrder | artist_recommendations/crs.py:85-91 | equally scored ranked artists appear in dictionary insertion order |
| Ranking.Positions | artist_recommendations/crs.py:85-86 | the insertion position of every key of the dictionary |
| Scoring.DescendingOrder | artist_recommendations/crs.py:79 | `sort_values(ascending=False).index`: every user of the similarity column exactly once, in non-increasing similarity, with ties in any order |
| Scoring.Neighbours | artist_recommendations/crs.py:79 | `index[1:top_n+1]`: the users at positions 1..top_n of the order, min(top_n, #users − 1) of them for top_n ≥ 0 |
| Scoring.OfferedMembers | artist_recommendations/crs.py:81-84 | an artist is offered exactly when some neighbour has it |
| Scoring.FirstOfferIsFirst | artist_recommendations/crs.py:81-86 | the first-offer index names a neighbour that has the artist, and no earlier neighbour has it |
| Scoring.ScoreBasics | artist_recommendations/crs.py:80-87 | scores over non-negative similarities are non-negative, and an artist no neighbour has scores 0 |
| Scoring.ExtendByOne | artist_recommendations/crs.py:81-87 | one more neighbour adds its set to the offered artists and its similarity to the score of each of its artists, and gives first-offer index i to the artists it offers first |
| Scoring.AddNeighbour | artist_recommendations/crs.py:83-87 | the inner loop: each artist of the neighbour that the target lacks gets the similarity added, and new artists are appended to the keys in order |
| Scoring.FreshSuffix | artist_recommendations/crs.py:85-86 | keys appended after the existing ones are none of the existing keys |
| Scoring.StepTable | artist_recommendations/crs.py:81-87 | one pass of the outer loop turns the score table of the first i neighbours into that of the first i+1 |
| Scoring.ScoreCandidates | artist_recommendations/crs.py:80-87 | the scoring loops build the table: duplicate-free keys, exactly the artists some neighbour has and the target lacks, each scored by the sum of its neighbours' similarities, inserted in order of first offer |
| Recommender.UnionOf | artist_recommendations/crs.py:30-32 | the union of all users' sets contains every user's set and nothing that no user has |
| Recommender.UnionAfterOverwrite | artist_recommendations/crs.py:145-146 | after overwriting a user's set the union grows by at most the new set, and by exactly it when the user is new |
| Recommender.NoArtistsInData | artist_recommendations/crs.py:18-33 | the users of the data have no artist between them exactly when every list of the data is empty |
| Recommender.NoArtistsNoMatrix | artist_recommendations/crs.py:33-49 | over a vocabulary listing the union, the interest matrix lacks rows or columns exactly when no user has an artist |
| Recommender.EmptyData | artist_recommendations/crs.py:18-49 | the interest matrix built from the data lacks rows or columns exactly when every list of the data is empty |
| Recommender.OnboardedVocabulary | artist_recommendations/crs.py:140-146 | after onboarding with artists of a built vocabulary, the rebuilt vocabulary does not grow, and is the same set when the name is new |
| Recommender.InterestCells | artist_recommendations/crs.py:40-42 | the interest matrix has a row per user, all rows as wide as the vocabulary, every cell 0 or 1 |
| Recommender.SimilarityOfSets | artist_recommendations/crs.py:49 | every similarity is the cosine of the two users' shared and own artist counts, the matrix is symmetric, and a user with no artists has similarity 0 with everyone |
| Recommender.SimilarityEntry | artist_recommendations/crs.py:49 | one similarity entry, as the cosine of the shared and own artist counts |
| Recommender.SimilarityBounds | artist_recommendations/crs.py:49 | with exact roots, every similarity lies in [0, 1], and the diagonal is 1 for every user with artists |
| Recommender.SameArtistsSameRow | artist_recommendations/crs.py:145-149 | two users with the same artists, such as a user onboarded with an existing user's artists, have identical similarity rows and columns |
| Recommender.ListOf | artist_recommendations/crs.py:33 | `list(all_artists)`: every element of the set exactly once |
| Recommender.MarkColumns | artist_recommendations/crs.py:42 | `.loc[user, list(artists)] = 1`: the columns of the user's artists become 1, the other cells keep their value |
| Recommender.RankTable | artist_recommendations/crs.py:80-91 | equally scored recommendations appear in the order of the first neighbour that offered them |
| Recommender.MusicRecommender.constructor | artist_recommendations/crs.py:6-11 | stores the data, with empty user sets and vocabulary and no matrices |
| Recommender.MusicRecommender.FindAllUsersArtists | artist_recommendations/crs.py:18-24 | every user of the sample data, and only those, gets the set of the artists in its list |
| Recommender.MusicRecommender.FindAllUniqueArtists | artist_recommendations/crs.py:30-33 | the vocabulary lists every artist of every user exactly once and nothing else |
| Recommender.MusicRecommender.CreateUserArtistMatrix | artist_recommendations/crs.py:40-42 | the matrix has the vocabulary as columns and one row per user, and a cell is 1 exactly when the user has the column's artist, 0 otherwise |
| Recommender.MusicRecommender.CalculateSimilarityMatrix | artist_recommendations/crs.py:49 | an interest matrix without rows or without columns is an `EmptyMatrix` error, exactly then, and the field keeps its value; otherwise the similarity matrix is the cosine similarity of every pair of rows |
| Recommender.MusicRecommender.Recommend | artist_recommendations/crs.py:79-91 | the neighbours are positions 1..top_n of a descending similarity order; the table scores exactly the neighbours' artists the target lacks; the result is the first n of the stable ranking: distinct, none of the target's own, non-increasing in score, min(n, #candidates) long, ties in insertion and first-offer order |
| Recommender.MusicRecommender.SuggestArtistsCurrentUser | artist_recommendations/crs.py:61-91 | an unknown user is a `UserNotFound` error, and only then. Otherwise the neighbours are positions 1..top_n of a descending similarity order, and the score table holds exactly the neighbours' artists the user lacks, each scored by the sum of its neighbours' similarities. The result is the first n of the stable ranking: distinct, none of the user's own, all from some user, non-increasing in score, min(n, #candidates) long for n ≥ 0, ties in first-offer order |
| Recommender.MusicRecommender.Rebuild | artist_recommendations/crs.py:146-148 | vocabulary and interest matrix are rebuilt from the user sets; the similarity step is an `EmptyMatrix` error exactly when no user has an artist, leaving the similarity matrix as it was, and is otherwise rebuilt too |
| Recommender.MusicRecommender.SuggestArtistsNewUser | artist_recommendations/crs.py:140-162 | the user is registered with the chosen artists, overwriting an existing name, and vocabulary and interest matrix are rebuilt. When the vocabulary was built, it does not grow, and it is unchanged for a new name. The result is an `EmptyMatrix` error exactly when no user has an artist, and the similarity matrix then keeps its old value. Otherwise everything is rebuilt and the recommendation for the user has the guarantees of `Recommend` |
| Recommender.NewRecommender | artist_recommendations/crs.py:6-49 | a fresh recommender whose user sets are those of the data, whose vocabulary lists their union and whose interest matrix is built over it; an `EmptyMatrix` error exactly when every list of the data is empty, with no similarity matrix, else all four fields built |
| Recommender.SuggestFromData | artist_recommendations/crs.py:6-91 | from raw data: `EmptyMatrix` when every list is empty, else `UserNotFound` exactly when the user is unknown. Otherwise: the target's similarity to each user is the cosine of their shared and own artist counts, computed from the data alone; the neighbours are positions 1..top_n of a descending order of those similarities; the score table is that of the neighbours; the result is its first n ranked artists, distinct, none of the user's own, min(n, #candidates) long for n ≥ 0 |
| Scenarios.ScenarioSimilarities | artist_recommendations/crs.py:49 | for A = {x, y}, B = {y, z}, C = {x, y, z}: sim(A, A) = 1, sim(A, B) = 1/2, sim(A, C) = 2/(√2·√3), and 1 > sim(A, C) > sim(A, B) |
| Scenarios.ForcedOrder | artist_recommendations/crs.py:79 | with strictly ordered similarities, the only descending order of A's column is A, C, B |
| Scenarios.NeighboursOfA | artist_recommendations/crs.py:79 | the neighbours of A for every top_n, negative values included |
| Scenarios.Candidates | artist_recommendations/crs.py:80-87 | with C (or C and B) as neighbours, z is the only candidate for A |
| Scenarios.ResultOf | artist_recommendations/crs.py:89-91 | a table whose only possible candidate is z yields [z] for n ≥ 1 and [] otherwise |
| Scenarios.RecommendForA | artist_recommendations/crs.py:79-91 | recommend(A, k, n) = [z] when k ≥ 1 or k = −2 and n ≥ 1, [] otherwise |
| Scenarios.RecommendWithoutArtists | artist_recommendations/crs.py:6-49 | a session over data whose only list is empty fails with `EmptyMatrix`, whatever user and counts are asked for |

## Left out

- The interactive loops are left out (lines 56-77 and 99-143). These are the user prompts, the `quit` and `done` sentinels, the "not found, try again" retry, the empty-name check (lines 103-105) and integer parsing. The entry points take already-parsed arguments and return the result instead of printing it (lines 91 and 162).
- The keyword filter of onboarding (lines 125-135) is presentation only. The entry loop's check at line 140 confines the choice to the vocabulary, which is the `requires` of `SuggestArtistsNewUser`.
- The `tqdm` progress bars (lines 19, 31 and 41) are treated as the identity on what they iterate over. The name is not imported in `crs.py`.
- Floating point is not modelled: scores and similarities are exact reals and the square root is a parameter. The rounding of `cosine_similarity` and of the score sums is not modelled.
- The internals of pandas and scikit-learn are not modelled. DataFrames are maps from labels to rows, and the similarity matrix is a map of maps.
- Recommender.MusicRecommender.CreateUserArtistMatrix: requires every user's artists to lie in the vocabulary. Given a missing column label, pandas' `.loc` would instead add that column. Every caller establishes the requirement by building the vocabulary first.
- Recommender.MusicRecommender.CalculateSimilarityMatrix: requires the interest matrix to exist. The source would fail on `None`.
- Recommender.MusicRecommender.Recommend: requires the three derived fields to be built from the current user sets. The source reads whatever the fields hold.
- Recommender.MusicRecommender.SuggestArtistsCurrentUser: requires the derived fields to be built, as for `Recommend`.
- Recommender.MusicRecommender.SuggestArtistsNewUser: the tie order in its result is not restated. It follows from `Recommend`'s contract, which this method's contract does not repeat.
- Recommender.SuggestFromData: the score order and the tie order of its result are not restated. They follow from `SuggestArtistsCurrentUser`'s contract, which this method's contract does not repeat.
- Escaping exceptions: where scikit-learn raises `ValueError` the Python program stops with a traceback. The model returns an `EmptyMatrix` value instead, and the fields already rebuilt keep their new values at that point.
- Python's set iteration order and pandas' tie order in `sort_values` are not fixed. Each point where the source depends on them is an arbitrary choice (`:|`), and every contract holds for every choice.
- `data_loader/load_data.py` and `data_loader/extract_data.py`, which read playlist files into the user → artists data, are not part of this model. The data is the constructor's argument.
