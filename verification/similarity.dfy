/** User-user neighbour search by Jaccard similarity of interacted-product sets. */
module Similarity {
  import opened Ranking
  import opened Records

  /** A neighbour is kept only when its similarity is strictly above this. */
  const MinSimilarity: real := 0.1

  /** A neighbour: (user id, similarity). */
  type Neighbour = (int, real)

  function UserOf(n: Neighbour): int { n.0 }
  function SimOf(n: Neighbour): real { n.1 }

  /** `|u ∩ v| / |u ∪ v|`, and 0 when the union is empty. */
  function Jaccard(u: set<int>, v: set<int>): (r: real)
    ensures 0.0 <= r
    ensures r == 0.0 <==> u * v == {}
  {
    if |u + v| > 0 then (|u * v| as real) / (|u + v| as real) else 0.0
  }

  lemma InterWithinUnion(u: set<int>, v: set<int>)
    ensures |u * v| <= |u + v|
  {
    assert u == (u - v) + (u * v) && (u - v) * (u * v) == {};
    assert u + v == u + (v - u) && u * (v - u) == {};
  }

  lemma FractionBounds(i: nat, n: nat)
    requires 0 < n && i <= n
    ensures 0.0 <= (i as real) / (n as real) <= 1.0
  {
    var q := (i as real) / (n as real);
    assert q * (n as real) == i as real;
  }

  /** Jaccard similarity is a fraction in [0, 1]. */
  lemma JaccardBounds(u: set<int>, v: set<int>)
    ensures 0.0 <= Jaccard(u, v) <= 1.0
  {
    if |u + v| > 0 {
      InterWithinUnion(u, v);
      FractionBounds(|u * v|, |u + v|);
    }
  }

  lemma JaccardSymmetric(u: set<int>, v: set<int>)
    ensures Jaccard(u, v) == Jaccard(v, u)
  {
    assert u + v == v + u && u * v == v * u;
  }

  /** A non-empty product set is fully similar to itself. */
  lemma JaccardSelf(u: set<int>)
    requires u != {}
    ensures Jaccard(u, u) == 1.0
  {
    assert u + u == u && u * u == u;
  }

  /** Users sharing no product have similarity 0, so they are never neighbours. */
  lemma JaccardDisjoint(u: set<int>, v: set<int>)
    requires u * v == {}
    ensures Jaccard(u, v) == 0.0
    ensures !(Jaccard(u, v) > MinSimilarity)
  {
  }

  function UserIds(ixs: seq<Interaction>): seq<int> {
    seq(|ixs|, i requires 0 <= i < |ixs| => ixs[i].userId)
  }

  /** The users of `order` whose product set in `ixs` is non-empty and similar enough to `known`. */
  function Scored(order: seq<int>, known: set<int>, ixs: seq<Interaction>): seq<Neighbour> {
    if order == [] then []
    else
      var o := order[|order| - 1];
      var v := ProductsBy(ixs, o);
      Scored(order[..|order| - 1], known, ixs)
        + (if |v| > 0 && Jaccard(known, v) > MinSimilarity then [(o, Jaccard(known, v))] else [])
  }

  /**
   * Reference result of the neighbour search: every other user, in the order they first
   * appear among the interactions, scored and thresholded, then sorted by similarity.
   */
  function SimilarUsers(db: Database, userId: int, known: set<int>): seq<Neighbour> {
    var others := OtherUsersInteractions(db, userId);
    SortDesc(Scored(Dedup(UserIds(others)), known, others), SimOf)
  }

  lemma {:induction false} ScoredSpec(order: seq<int>, known: set<int>, ixs: seq<Interaction>)
    requires Distinct(order)
    ensures DistinctBy(Scored(order, known, ixs), UserOf)
    ensures forall n :: n in Scored(order, known, ixs) ==>
              n.0 in order && ProductsBy(ixs, n.0) != {}
              && n.1 == Jaccard(known, ProductsBy(ixs, n.0)) && n.1 > MinSimilarity
    ensures forall o :: o in order && ProductsBy(ixs, o) != {} && Jaccard(known, ProductsBy(ixs, o)) > MinSimilarity ==>
              (o, Jaccard(known, ProductsBy(ixs, o))) in Scored(order, known, ixs)
  {
    if order != [] {
      var init, o := order[..|order| - 1], order[|order| - 1];
      assert order == init + [o];
      assert Distinct(init);
      ScoredSpec(init, known, ixs);
      var before := Scored(init, known, ixs);
      var r := Scored(order, known, ixs);
      forall n | n in before ensures n.0 != o {
        assert n.0 in init;
      }
      forall p | p in order && ProductsBy(ixs, p) != {} && Jaccard(known, ProductsBy(ixs, p)) > MinSimilarity
        ensures (p, Jaccard(known, ProductsBy(ixs, p))) in r
      {
        if p != o {
          assert p in init;
        }
      }
      if |ProductsBy(ixs, o)| > 0 && Jaccard(known, ProductsBy(ixs, o)) > MinSimilarity {
        forall i, j | 0 <= i < j < |r| ensures r[i].0 != r[j].0 {
          if j == |r| - 1 {
            assert r[i] in before;
          } else {
            assert r[i] == before[i] && r[j] == before[j];
          }
        }
      }
    }
  }

  /** `o` appears among `ixs`' users exactly when `o` has products there. */
  lemma UserIdsSpec(ixs: seq<Interaction>, o: int)
    ensures o in UserIds(ixs) <==> ProductsBy(ixs, o) != {}
  {
    if o in UserIds(ixs) {
      var i :| 0 <= i < |ixs| && UserIds(ixs)[i] == o;
      assert ixs[i].productId in ProductsBy(ixs, o);
    }
    if ProductsBy(ixs, o) != {} {
      var p :| p in ProductsBy(ixs, o);
      var ix :| ix in ixs && ix.userId == o && ix.productId == p;
      var i :| 0 <= i < |ixs| && ixs[i] == ix;
      assert UserIds(ixs)[i] == o;
    }
  }

  /** Leaving the requesting user out does not change anybody else's product set. */
  lemma OthersProducts(db: Database, userId: int, o: int)
    requires o != userId
    ensures ProductsBy(OtherUsersInteractions(db, userId), o) == ProductsBy(db.interactions, o)
  {
  }

  lemma OthersExcludeUser(db: Database, userId: int)
    ensures ProductsBy(OtherUsersInteractions(db, userId), userId) == {}
  {
  }

  /**
   * The neighbour list is sorted by similarity, lists each user at most once, never the
   * requesting user, keeps exactly the users with interactions whose Jaccard similarity to
   * `known` is strictly above 0.1, and pairs each with that similarity.
   */
  lemma SimilarUsersSpec(db: Database, userId: int, known: set<int>)
    ensures SortedDesc(SimilarUsers(db, userId, known), SimOf)
    ensures DistinctBy(SimilarUsers(db, userId, known), UserOf)
    ensures forall n :: n in SimilarUsers(db, userId, known) ==>
              n.0 != userId && ProductsBy(db.interactions, n.0) != {}
              && n.1 == Jaccard(known, ProductsBy(db.interactions, n.0)) && n.1 > MinSimilarity
    ensures forall o :: o != userId && ProductsBy(db.interactions, o) != {}
                        && Jaccard(known, ProductsBy(db.interactions, o)) > MinSimilarity ==>
              (o, Jaccard(known, ProductsBy(db.interactions, o))) in SimilarUsers(db, userId, known)
  {
    var others := OtherUsersInteractions(db, userId);
    var order := Dedup(UserIds(others));
    var scored := Scored(order, known, others);
    DedupSpec(UserIds(others));
    ScoredSpec(order, known, others);
    SortDescMembers(scored, SimOf);
    SortDescDistinctBy(scored, SimOf, UserOf);
    forall n | n in scored
      ensures n.0 != userId && ProductsBy(db.interactions, n.0) != {}
              && n.1 == Jaccard(known, ProductsBy(db.interactions, n.0))
    {
      OthersExcludeUser(db, userId);
      OthersProducts(db, userId, n.0);
    }
    forall o | o != userId && ProductsBy(db.interactions, o) != {}
               && Jaccard(known, ProductsBy(db.interactions, o)) > MinSimilarity
      ensures (o, Jaccard(known, ProductsBy(db.interactions, o))) in scored
    {
      OthersProducts(db, userId, o);
      UserIdsSpec(others, o);
    }
  }

  lemma GroupStep(ixs: seq<Interaction>, i: int, o: int)
    requires 0 <= i < |ixs|
    ensures UserIds(ixs[..i + 1]) == UserIds(ixs[..i]) + [ixs[i].userId]
    ensures ProductsBy(ixs[..i + 1], o)
         == ProductsBy(ixs[..i], o) + (if ixs[i].userId == o then {ixs[i].productId} else {})
  {
    assert ixs[..i + 1] == ixs[..i] + [ixs[i]];
  }

  /** The grouping loop: each user's product set, users in first-seen order. */
  method GroupByUser(others: seq<Interaction>) returns (order: seq<int>, productSets: map<int, set<int>>)
    ensures order == Dedup(UserIds(others))
    ensures forall o :: o in productSets <==> o in UserIds(others)
    ensures forall o :: o in productSets ==> productSets[o] == ProductsBy(others, o)
  {
    order, productSets := [], map[];
    for i := 0 to |others|
      invariant order == Dedup(UserIds(others[..i]))
      invariant forall o :: o in productSets <==> o in UserIds(others[..i])
      invariant forall o :: o in productSets ==> productSets[o] == ProductsBy(others[..i], o)
    {
      var ix := others[i];
      forall o ensures ProductsBy(others[..i + 1], o)
                    == ProductsBy(others[..i], o) + (if ix.userId == o then {ix.productId} else {})
      {
        GroupStep(others, i, o);
      }
      GroupStep(others, i, ix.userId);
      DedupSpec(UserIds(others[..i]));
      UserIdsSpec(others[..i], ix.userId);
      assert UserIds(others[..i + 1])[..i] == UserIds(others[..i]);
      if ix.userId !in productSets {
        order := order + [ix.userId];
        productSets := productSets[ix.userId := {}];
      }
      productSets := productSets[ix.userId := productSets[ix.userId] + {ix.productId}];
    }
    assert others[..|others|] == others;
  }

  /**
   * `_find_similar_users`: groups the other users' interactions into product sets, scores
   * each user with a non-empty set by Jaccard similarity, keeps those above 0.1 and sorts them.
   */
  method FindSimilarUsers(db: Database, userId: int, userProducts: set<int>) returns (similar: seq<Neighbour>)
    ensures similar == SimilarUsers(db, userId, userProducts)
    ensures SortedDesc(similar, SimOf)
    ensures DistinctBy(similar, UserOf)
    ensures forall n :: n in similar ==>
              n.0 != userId && n.1 == Jaccard(userProducts, ProductsBy(db.interactions, n.0)) && n.1 > MinSimilarity
    ensures forall o :: o != userId && ProductsBy(db.interactions, o) != {}
                        && Jaccard(userProducts, ProductsBy(db.interactions, o)) > MinSimilarity ==>
              (o, Jaccard(userProducts, ProductsBy(db.interactions, o))) in similar
  {
    var others := OtherUsersInteractions(db, userId);
    var order, productSets := GroupByUser(others);
    DedupSpec(UserIds(others));

    // Keep the users whose Jaccard similarity passes the threshold.
    var similarities: seq<Neighbour> := [];
    for i := 0 to |order|
      invariant similarities == Scored(order[..i], userProducts, others)
    {
      assert order[..i + 1][..i] == order[..i];
      var o := order[i];
      assert o in order;
      var otherProducts := productSets[o];
      if |otherProducts| > 0 {
        var similarity := Jaccard(userProducts, otherProducts);
        if similarity > MinSimilarity {
          similarities := similarities + [(o, similarity)];
        }
      }
    }
    assert order[..|order|] == order;

    similar := SortDesc(similarities, SimOf);
    SimilarUsersSpec(db, userId, userProducts);
  }
}
