/** Neighbour selection and candidate scoring of a recommendation: the
    descending similarity order of one user's similarity row, the neighbours at
    positions 1..top_n of it, and the accumulation of each neighbour's
    similarity onto every artist the neighbour has and the target lacks. */
module Scoring {
  import opened Seqs

  type User = string
  type Artist = string

  /** `order` lists every user of the similarity row exactly once, by
      non-increasing similarity. pandas' `sort_values` promises nothing about
      ties, so every such order is admitted. */
  predicate IsDescendingOrder(order: seq<User>, row: map<User, real>) {
    && NoDups(order)
    && Elems(order) == row.Keys
    && (forall i :: 0 <= i < |order| ==> order[i] in row)
    && (forall i, j :: 0 <= i < j < |order| ==> row[order[i]] >= row[order[j]])
  }

  /** A non-empty finite set of users has a user of greatest similarity. */
  lemma {:induction false} MaxExists(users: set<User>, row: map<User, real>)
    requires users != {} && users <= row.Keys
    ensures exists u :: u in users && forall v :: v in users ==> row[v] <= row[u]
  {
    var x :| x in users;
    var rest := users - {x};
    if rest != {} {
      MaxExists(rest, row);
      var m :| m in rest && forall v :: v in rest ==> row[v] <= row[m];
      if row[x] <= row[m] {
        assert forall v :: v in users ==> row[v] <= row[m];
      } else {
        assert forall v :: v in users ==> row[v] <= row[x];
      }
    } else {
      assert users == {x};
    }
  }

  /** The users of a similarity row by descending similarity
      (`similarity_matrix[user].sort_values(ascending=False).index`). */
  method DescendingOrder(row: map<User, real>) returns (order: seq<User>)
    ensures IsDescendingOrder(order, row)
  {
    order := [];
    var rest := row.Keys;
    while rest != {}
      invariant rest <= row.Keys
      invariant rest !! Elems(order) && rest + Elems(order) == row.Keys
      invariant NoDups(order)
      invariant forall i :: 0 <= i < |order| ==> order[i] in row
      invariant forall i, j :: 0 <= i < j < |order| ==> row[order[i]] >= row[order[j]]
      invariant forall i, v :: 0 <= i < |order| && v in rest ==> row[order[i]] >= row[v]
      decreases rest
    {
      MaxExists(rest, row);
      var u :| u in rest && forall v :: v in rest ==> row[v] <= row[u];
      order := order + [u];
      rest := rest - {u};
    }
  }

  /** `index[1:top_n+1]`: the users after position 0, at most `topN` of them. */
  function Neighbours(order: seq<User>, topN: int): (ns: seq<User>)
    ensures forall k :: 0 <= k < |ns| ==> 1 + k < |order| && ns[k] == order[1 + k]
    ensures topN >= 0 ==> |ns| == if |order| <= 1 then 0 else Min(topN, |order| - 1)
  {
    Slice(order, 1, topN + 1)
  }

  /** Every neighbour has a similarity and an artist set. */
  predicate Covers(ns: seq<User>, sims: map<User, real>, sets: map<User, set<Artist>>) {
    forall i :: 0 <= i < |ns| ==> ns[i] in sims && ns[i] in sets
  }

  /** The artists some neighbour has. */
  function Offered(ns: seq<User>, sets: map<User, set<Artist>>): set<Artist>
    requires forall i :: 0 <= i < |ns| ==> ns[i] in sets
  {
    if ns == [] then {} else Offered(ns[..|ns| - 1], sets) + sets[ns[|ns| - 1]]
  }

  /** The score of artist `a`: the sum of the similarities of the neighbours that have it. */
  function Score(a: Artist, ns: seq<User>, sims: map<User, real>, sets: map<User, set<Artist>>): real
    requires Covers(ns, sims, sets)
  {
    if ns == [] then 0.0
    else
      var last := ns[|ns| - 1];
      Score(a, ns[..|ns| - 1], sims, sets) + (if a in sets[last] then sims[last] else 0.0)
  }

  /** The position of the first neighbour that has `a` (for an offered `a`). */
  function FirstOffer(a: Artist, ns: seq<User>, sets: map<User, set<Artist>>): nat
    requires forall i :: 0 <= i < |ns| ==> ns[i] in sets
  {
    if ns == [] then 0
    else if a in Offered(ns[..|ns| - 1], sets) then FirstOffer(a, ns[..|ns| - 1], sets)
    else |ns| - 1
  }

  /** An artist is offered iff some neighbour has it. */
  lemma {:induction false} OfferedMembers(ns: seq<User>, sets: map<User, set<Artist>>, a: Artist)
    requires forall i :: 0 <= i < |ns| ==> ns[i] in sets
    ensures a in Offered(ns, sets) <==> exists i :: 0 <= i < |ns| && a in sets[ns[i]]
  {
    if ns != [] {
      var p := ns[..|ns| - 1];
      OfferedMembers(p, sets, a);
      if a in Offered(p, sets) {
        var i :| 0 <= i < |p| && a in sets[p[i]];
        assert ns[i] == p[i];
      }
      if exists i :: 0 <= i < |ns| && a in sets[ns[i]] {
        var i :| 0 <= i < |ns| && a in sets[ns[i]];
        if i < |p| { assert p[i] == ns[i]; }
      }
    }
  }

  /** FirstOffer finds the first neighbour that has an offered artist. */
  lemma {:induction false} FirstOfferIsFirst(ns: seq<User>, sets: map<User, set<Artist>>, a: Artist)
    requires forall i :: 0 <= i < |ns| ==> ns[i] in sets
    requires a in Offered(ns, sets)
    ensures FirstOffer(a, ns, sets) < |ns|
    ensures a in sets[ns[FirstOffer(a, ns, sets)]]
    ensures forall j :: 0 <= j < FirstOffer(a, ns, sets) ==> a !in sets[ns[j]]
  {
    var p := ns[..|ns| - 1];
    if a in Offered(p, sets) {
      FirstOfferIsFirst(p, sets, a);
      var f := FirstOffer(a, p, sets);
      assert ns[f] == p[f];
      forall j | 0 <= j < f ensures a !in sets[ns[j]] {
        assert ns[j] == p[j];
      }
    } else {
      forall j | 0 <= j < |p| ensures a !in sets[ns[j]] {
        assert ns[j] == p[j];
        OfferedMembers(p, sets, a);
      }
    }
  }

  /** Sims of a non-negative row make non-negative scores; an artist no
      neighbour has scores 0. */
  lemma {:induction false} ScoreBasics(a: Artist, ns: seq<User>, sims: map<User, real>, sets: map<User, set<Artist>>)
    requires Covers(ns, sims, sets)
    ensures (forall i :: 0 <= i < |ns| ==> sims[ns[i]] >= 0.0) ==> Score(a, ns, sims, sets) >= 0.0
    ensures a !in Offered(ns, sets) ==> Score(a, ns, sims, sets) == 0.0
  {
    if ns != [] {
      var p := ns[..|ns| - 1];
      assert Covers(p, sims, sets) by {
        forall i | 0 <= i < |p| ensures p[i] == ns[i] { }
      }
      ScoreBasics(a, p, sims, sets);
    }
  }

  /** How Offered, Score and FirstOffer grow by one more neighbour. */
  lemma ExtendByOne(ns: seq<User>, i: nat, sims: map<User, real>, sets: map<User, set<Artist>>)
    requires i < |ns| && Covers(ns, sims, sets)
    ensures Covers(ns[..i], sims, sets) && Covers(ns[..i + 1], sims, sets)
    ensures Offered(ns[..i + 1], sets) == Offered(ns[..i], sets) + sets[ns[i]]
    ensures forall a :: Score(a, ns[..i + 1], sims, sets)
                     == Score(a, ns[..i], sims, sets) + (if a in sets[ns[i]] then sims[ns[i]] else 0.0)
    ensures forall a :: a in Offered(ns[..i], sets) ==> FirstOffer(a, ns[..i + 1], sets) == FirstOffer(a, ns[..i], sets)
    ensures forall a :: a !in Offered(ns[..i], sets) ==> FirstOffer(a, ns[..i + 1], sets) == i
  {
    assert ns[..i + 1][..i] == ns[..i];
    assert ns[..i + 1][i] == ns[i];
  }

  /** The `recommendations` dictionary after the scoring loops: `keys` in
      insertion order, with no duplicates, exactly the artists some neighbour
      has and the target lacks, each scored by `Score`, and inserted in the
      order of the first neighbour that offered them. */
  predicate IsScoreTable(keys: seq<Artist>, scores: map<Artist, real>, ns: seq<User>,
                         sims: map<User, real>, sets: map<User, set<Artist>>, own: set<Artist>)
    requires Covers(ns, sims, sets)
  {
    && NoDups(keys)
    && Elems(keys) == scores.Keys
    && scores.Keys == Offered(ns, sets) - own
    && (forall a :: a in scores ==> scores[a] == Score(a, ns, sims, sets))
    && (forall p, q :: 0 <= p < q < |keys| ==> FirstOffer(keys[p], ns, sets) <= FirstOffer(keys[q], ns, sets))
  }

  /** The inner scoring loop, for one neighbour: every artist of the
      neighbour that the target lacks gets the neighbour's similarity added,
      and an artist seen for the first time is appended to the keys first. */
  method AddNeighbour(keys: seq<Artist>, scores: map<Artist, real>, artists: set<Artist>,
                      similarity: real, own: set<Artist>)
    returns (keys': seq<Artist>, scores': map<Artist, real>)
    requires NoDups(keys) && Elems(keys) == scores.Keys
    ensures NoDups(keys') && Elems(keys') == scores'.Keys
    ensures scores'.Keys == scores.Keys + (artists - own)
    ensures forall a :: a in scores' ==>
      scores'[a] == (if a in scores then scores[a] else 0.0) + (if a in artists && a !in own then similarity else 0.0)
    ensures |keys| <= |keys'| && keys'[..|keys|] == keys
    ensures forall k :: |keys| <= k < |keys'| ==> keys'[k] !in scores
  {
    keys', scores' := keys, scores;
    var rest := artists;
    ghost var done: set<Artist> := {};
    while rest != {}
      invariant rest !! done && rest + done == artists
      invariant NoDups(keys') && Elems(keys') == scores'.Keys
      invariant scores'.Keys == scores.Keys + (done - own)
      invariant forall a :: a in scores' ==>
        scores'[a] == (if a in scores then scores[a] else 0.0) + (if a in done && a !in own then similarity else 0.0)
      invariant |keys| <= |keys'| && keys'[..|keys|] == keys
      decreases rest
    {
      var artist :| artist in rest;
      rest := rest - {artist};
      done := done + {artist};
      if artist !in own {
        if artist !in scores' {
          AppendKey(keys', keys, artist);
          keys' := keys' + [artist];
          scores' := scores'[artist := 0.0];
        }
        scores' := scores'[artist := scores'[artist] + similarity];
      }
    }
    FreshSuffix(keys', keys);
  }

  /** Past a prefix, a sequence of distinct keys holds none of the prefix's keys. */
  lemma FreshSuffix(keys: seq<Artist>, prefix: seq<Artist>)
    requires NoDups(keys) && |prefix| <= |keys| && keys[..|prefix|] == prefix
    ensures forall k :: |prefix| <= k < |keys| ==> keys[k] !in Elems(prefix)
  {
    forall k | |prefix| <= k < |keys|
      ensures keys[k] !in Elems(prefix)
    {
      forall j | 0 <= j < |prefix|
        ensures prefix[j] != keys[k]
      {
        assert prefix[j] == keys[j];
      }
    }
  }

  /** Appending a new key keeps the keys distinct and an existing prefix in place. */
  lemma AppendKey(keys: seq<Artist>, prefix: seq<Artist>, a: Artist)
    requires NoDups(keys) && a !in Elems(keys) && |prefix| <= |keys| && keys[..|prefix|] == prefix
    ensures NoDups(keys + [a]) && Elems(keys + [a]) == Elems(keys) + {a}
    ensures (keys + [a])[..|prefix|] == prefix
  {
    assert (keys + [a])[..|prefix|] == keys[..|prefix|];
  }

  /** One neighbour's contribution, as AddNeighbour states it, turns the
      score table of the first i neighbours into that of the first i + 1. */
  lemma StepTable(keys: seq<Artist>, scores: map<Artist, real>, keys': seq<Artist>, scores': map<Artist, real>,
                  ns: seq<User>, i: nat, sims: map<User, real>, sets: map<User, set<Artist>>, own: set<Artist>)
    requires i < |ns| && Covers(ns, sims, sets)
    requires Covers(ns[..i], sims, sets) && IsScoreTable(keys, scores, ns[..i], sims, sets, own)
    requires NoDups(keys') && Elems(keys') == scores'.Keys
    requires scores'.Keys == scores.Keys + (sets[ns[i]] - own)
    requires forall a :: a in scores' ==>
      scores'[a] == (if a in scores then scores[a] else 0.0) + (if a in sets[ns[i]] && a !in own then sims[ns[i]] else 0.0)
    requires |keys| <= |keys'| && keys'[..|keys|] == keys
    requires forall k :: |keys| <= k < |keys'| ==> keys'[k] !in scores
    ensures Covers(ns[..i + 1], sims, sets) && IsScoreTable(keys', scores', ns[..i + 1], sims, sets, own)
  {
    ExtendByOne(ns, i, sims, sets);
    var before, after := ns[..i], ns[..i + 1];
    forall a | a in scores' ensures scores'[a] == Score(a, after, sims, sets) {
      ScoreBasics(a, before, sims, sets);
    }
    forall p, q | 0 <= p < q < |keys'|
      ensures FirstOffer(keys'[p], after, sets) <= FirstOffer(keys'[q], after, sets)
    {
      if q < |keys| {
        assert keys'[p] == keys[p] && keys'[q] == keys[q];
        assert keys[p] in Elems(keys) && keys[q] in Elems(keys);
      } else if p < |keys| {
        assert keys'[p] == keys[p] && keys[p] in Elems(keys);
        FirstOfferIsFirst(before, sets, keys[p]);
        assert keys'[q] in Elems(keys');
      } else {
        assert keys'[p] in Elems(keys') && keys'[q] in Elems(keys');
      }
    }
  }

  /** The nested scoring loops: for each neighbour in order, for each of its
      artists the target does not have, add the neighbour's similarity. */
  method ScoreCandidates(ns: seq<User>, sims: map<User, real>, sets: map<User, set<Artist>>, own: set<Artist>)
    returns (keys: seq<Artist>, scores: map<Artist, real>)
    requires Covers(ns, sims, sets)
    ensures IsScoreTable(keys, scores, ns, sims, sets, own)
  {
    keys, scores := [], map[];
    var i := 0;
    while i < |ns|
      invariant 0 <= i <= |ns|
      invariant Covers(ns[..i], sims, sets)
      invariant IsScoreTable(keys, scores, ns[..i], sims, sets, own)
    {
      var keys', scores' := AddNeighbour(keys, scores, sets[ns[i]], sims[ns[i]], own);
      StepTable(keys, scores, keys', scores', ns, i, sims, sets, own);
      keys, scores := keys', scores';
      i := i + 1;
    }
    assert ns[..|ns|] == ns;
  }
}
