/** User-based collaborative filtering and its popularity fallback for new users. */
module CollaborativeFiltering {
  import opened Wrappers
  import opened Ranking
  import opened Records
  import opened ScoreTable
  import opened Similarity

  /** Only the ten most similar users are consulted. */
  const NeighbourCount: int := 10

  /** Purchases count three times, likes twice, views once; a search falls through unscaled. */
  function TypeWeight(kind: InteractionType): (r: real)
    ensures 1.0 <= r <= 3.0
    ensures r == 3.0 <==> kind == Purchase
    ensures r == 2.0 <==> kind == Like
    ensures r == 1.0 <==> kind == View || kind == Search
  {
    match kind
    case Purchase => 3.0
    case Like => 2.0
    case View => 1.0
    case Search => 1.0
  }

  /** `rating / 5.0` when the rating is truthy; a missing rating and a rating of 0 leave the score alone. */
  function RatingFactor(rating: Option<real>): (r: real)
    ensures rating.None? || rating == Some(0.0) ==> r == 1.0
    ensures rating.Some? && 0.0 <= rating.value <= 5.0 ==> 0.0 <= r <= 1.0
    ensures rating.Some? && rating.value != 0.0 ==> 5.0 * r == rating.value
  {
    match rating
    case Some(r) => if r != 0.0 then r / 5.0 else 1.0
    case None => 1.0
  }

  /** What one interaction of a neighbour with similarity `sim` adds to its product's score. */
  function Contribution(sim: real, ix: Interaction): (r: real)
    ensures sim == 0.0 ==> r == 0.0
    ensures RatingFactor(ix.rating) == 1.0 ==> r == sim * TypeWeight(ix.kind)
  {
    sim * TypeWeight(ix.kind) * RatingFactor(ix.rating)
  }

  /**
   * With a rating in [0, 5] (or none) a contribution is non-negative and at most three times
   * the neighbour's similarity; an unrated view or search contributes exactly the similarity.
   */
  lemma ContributionBounds(sim: real, ix: Interaction)
    requires 0.0 <= sim
    requires ix.rating.Some? ==> 0.0 <= ix.rating.value <= 5.0
    ensures 0.0 <= Contribution(sim, ix) <= 3.0 * sim
    ensures (ix.kind == View || ix.kind == Search) && RatingFactor(ix.rating) == 1.0 ==> Contribution(sim, ix) == sim
  {
    var w, f := TypeWeight(ix.kind), RatingFactor(ix.rating);
    assert 0.0 <= f <= 1.0;
    assert 1.0 <= w <= 3.0;
    var a := sim * w;
    ScaleDown(sim, w, 3.0);
    ScaleDown(a, f, 1.0);
    assert Contribution(sim, ix) == a * f;
    assert a * f <= a;
    assert a <= 3.0 * sim;
  }

  lemma ScaleDown(a: real, b: real, c: real)
    requires 0.0 <= a && 0.0 <= b <= c
    ensures 0.0 <= a * b <= a * c
  {
  }

  /** A rating of 0 is falsy: it weighs exactly like no rating at all. */
  lemma ZeroRatingIsNoRating(sim: real, u: int, p: int, kind: InteractionType)
    ensures Contribution(sim, Interaction(u, p, kind, Some(0.0))) == Contribution(sim, Interaction(u, p, kind, None))
    ensures RatingFactor(Some(0.0)) == 1.0
  {
  }

  /** The weights rank the interaction types: purchase over like over view, and search like view. */
  lemma TypeWeightOrder(sim: real, u: int, p: int, rating: Option<real>)
    requires 0.0 <= sim && 0.0 <= RatingFactor(rating)
    ensures Contribution(sim, Interaction(u, p, Purchase, rating)) >= Contribution(sim, Interaction(u, p, Like, rating))
    ensures Contribution(sim, Interaction(u, p, Like, rating)) >= Contribution(sim, Interaction(u, p, View, rating))
    ensures Contribution(sim, Interaction(u, p, Search, rating)) == Contribution(sim, Interaction(u, p, View, rating))
  {
    var f := RatingFactor(rating);
    assert sim * 3.0 * f - sim * 2.0 * f == sim * f;
    assert sim * 2.0 * f - sim * 1.0 * f == sim * f;
    assert 0.0 <= sim * f;
  }

  /** Interactions of user `o` with products outside `known`, in table order. */
  function NeighbourInteractions(db: Database, o: int, known: set<int>): seq<Interaction> {
    Where(db.interactions, (ix: Interaction) => ix.userId == o && ix.productId !in known)
  }

  /** The (product, contribution) pairs one neighbour adds. */
  function Contributions(sim: real, ixs: seq<Interaction>): seq<Pair> {
    seq(|ixs|, i requires 0 <= i < |ixs| => (ixs[i].productId, Contribution(sim, ixs[i])))
  }

  /** All pairs the neighbours add, neighbour by neighbour in ranking order. */
  function CollabPairs(db: Database, neighbours: seq<Neighbour>, known: set<int>): seq<Pair> {
    if neighbours == [] then []
    else
      var n := neighbours[|neighbours| - 1];
      CollabPairs(db, neighbours[..|neighbours| - 1], known)
        + Contributions(n.1, NeighbourInteractions(db, n.0, known))
  }

  /** A product scores only through a neighbour's interaction with it, and never when it is known. */
  lemma {:induction false} CollabPairsSpec(db: Database, neighbours: seq<Neighbour>, known: set<int>)
    ensures forall k :: k in Firsts(CollabPairs(db, neighbours, known)) ==>
              k !in known && exists n :: n in neighbours && k in ProductsBy(db.interactions, n.0)
  {
    if neighbours != [] {
      var init, n := neighbours[..|neighbours| - 1], neighbours[|neighbours| - 1];
      var ixs := NeighbourInteractions(db, n.0, known);
      CollabPairsSpec(db, init, known);
      forall k | k in Firsts(CollabPairs(db, neighbours, known))
        ensures k !in known && exists m :: m in neighbours && k in ProductsBy(db.interactions, m.0)
      {
        var ps := CollabPairs(db, init, known) + Contributions(n.1, ixs);
        var i :| 0 <= i < |ps| && ps[i].0 == k;
        if i < |CollabPairs(db, init, known)| {
          assert Firsts(CollabPairs(db, init, known))[i] == k;
          assert k in Firsts(CollabPairs(db, init, known));
          var m :| m in init && k in ProductsBy(db.interactions, m.0);
          assert m in neighbours;
        } else {
          var ix := ixs[i - |CollabPairs(db, init, known)|];
          assert ix in ixs;
          assert ix in db.interactions && ix.productId == k;
          assert n in neighbours;
        }
      }
    }
  }

  /** Every product a neighbour interacted with is scored, unless the user already knows it. */
  lemma {:induction false} CollabPairsComplete(db: Database, neighbours: seq<Neighbour>, known: set<int>)
    ensures forall n, ix :: n in neighbours && ix in db.interactions && ix.userId == n.0 && ix.productId !in known ==>
              ix.productId in Firsts(CollabPairs(db, neighbours, known))
  {
    if neighbours != [] {
      var init, last := neighbours[..|neighbours| - 1], neighbours[|neighbours| - 1];
      var before := CollabPairs(db, init, known);
      var ixs := NeighbourInteractions(db, last.0, known);
      CollabPairsComplete(db, init, known);
      forall n, ix | n in neighbours && ix in db.interactions && ix.userId == n.0 && ix.productId !in known
        ensures ix.productId in Firsts(CollabPairs(db, neighbours, known))
      {
        var ps := before + Contributions(last.1, ixs);
        assert CollabPairs(db, neighbours, known) == ps;
        if n in init {
          var i :| 0 <= i < |before| && Firsts(before)[i] == ix.productId;
          assert ps[i] == before[i];
          assert Firsts(ps)[i] == ix.productId;
        } else {
          assert n == last;
          assert ix in ixs;
          var j :| 0 <= j < |ixs| && ixs[j] == ix;
          assert ps[|before| + j].0 == ix.productId;
          assert Firsts(ps)[|before| + j] == ix.productId;
        }
      }
    }
  }

  /** The user's own products, as the source collects them from the user's interactions. */
  lemma KnownProducts(db: Database, userId: int)
    ensures ProductSet(InteractionsOf(db, userId)) == ProductsBy(db.interactions, userId)
    ensures InteractionsOf(db, userId) == [] <==> ProductsBy(db.interactions, userId) == {}
  {
    var ixs := InteractionsOf(db, userId);
    if ixs != [] {
      assert ixs[0] in ixs;
      assert ixs[0].productId in ProductsBy(db.interactions, userId);
    }
    if ProductsBy(db.interactions, userId) != {} {
      var p :| p in ProductsBy(db.interactions, userId);
      var ix :| ix in db.interactions && ix.userId == userId && ix.productId == p;
      assert ix in ixs;
    }
  }

  /** The summed scores the neighbours give each product. */
  function CollabScores(db: Database, userId: int): seq<Pair> {
    var known := ProductSet(InteractionsOf(db, userId));
    CollabPairs(db, Take(SimilarUsers(db, userId, known), NeighbourCount), known)
  }

  /** The number of interactions with product `id`. */
  function InteractionCount(ixs: seq<Interaction>, id: int): nat {
    |Where(ixs, (ix: Interaction) => ix.productId == id)|
  }

  /** One group per product of `ids` that has interactions: (id, count). */
  function Groups(ids: seq<int>, ixs: seq<Interaction>): seq<Pair> {
    if ids == [] then []
    else
      var id := ids[|ids| - 1];
      Groups(ids[..|ids| - 1], ixs)
        + (if InteractionCount(ixs, id) > 0 then [(id, InteractionCount(ixs, id) as real)] else [])
  }

  function ProductIds(products: seq<Product>): seq<int> {
    seq(|products|, i requires 0 <= i < |products| => products[i].id)
  }

  /** The inner join of products with interactions grouped by product id, in catalogue order. */
  function PopularityGroups(db: Database): seq<Pair> {
    Groups(Dedup(ProductIds(db.products)), db.interactions)
  }

  lemma {:induction false} GroupsSpec(ids: seq<int>, ixs: seq<Interaction>)
    requires Distinct(ids)
    ensures DistinctBy(Groups(ids, ixs), Key)
    ensures forall q :: q in Groups(ids, ixs) ==>
              q.0 in ids && InteractionCount(ixs, q.0) > 0 && q.1 == InteractionCount(ixs, q.0) as real
    ensures forall id :: id in ids && InteractionCount(ixs, id) > 0 ==>
              (id, InteractionCount(ixs, id) as real) in Groups(ids, ixs)
  {
    if ids != [] {
      var init, id := ids[..|ids| - 1], ids[|ids| - 1];
      assert ids == init + [id];
      assert Distinct(init);
      GroupsSpec(init, ixs);
      var before := Groups(init, ixs);
      var r := Groups(ids, ixs);
      forall q | q in before ensures q.0 != id {
        assert q.0 in init;
      }
      forall x | x in ids && InteractionCount(ixs, x) > 0 ensures (x, InteractionCount(ixs, x) as real) in r {
        if x != id {
          assert x in init;
        }
      }
      if InteractionCount(ixs, id) > 0 {
        forall i, j | 0 <= i < j < |r| ensures r[i].0 != r[j].0 {
          if j == |r| - 1 {
            assert r[i] in before;
          } else {
            assert r[i] == before[i] && r[j] == before[j];
          }
        }
      }
    }
  }

  /**
   * The popular products, each with its interaction count as score, sorted by count, with
   * distinct ids, at most `limit` of them when `limit` is non-negative; every product with
   * interactions that has a strictly higher count than a returned one is returned too.
   */
  lemma PopularSpec(db: Database, limit: int)
    ensures SortedDesc(Attach(db.products, SqlLimit(SortDesc(PopularityGroups(db), Score), limit)), CandidateScore)
    ensures DistinctBy(Attach(db.products, SqlLimit(SortDesc(PopularityGroups(db), Score), limit)), CandidateId)
    ensures 0 <= limit ==> |Attach(db.products, SqlLimit(SortDesc(PopularityGroups(db), Score), limit))| <= limit
    ensures forall c :: c in Attach(db.products, SqlLimit(SortDesc(PopularityGroups(db), Score), limit)) ==>
              c.product in db.products && c.product.id == c.productId
              && InteractionCount(db.interactions, c.productId) > 0
              && c.score == InteractionCount(db.interactions, c.productId) as real
    ensures forall c, p :: c in Attach(db.products, SqlLimit(SortDesc(PopularityGroups(db), Score), limit))
                           && p in db.products && InteractionCount(db.interactions, p.id) as real > c.score ==>
              Candidate(p.id, Lookup(db.products, p.id).value, InteractionCount(db.interactions, p.id) as real)
                in Attach(db.products, SqlLimit(SortDesc(PopularityGroups(db), Score), limit))
  {
    var ids := ProductIds(db.products);
    var groups := PopularityGroups(db);
    var sorted := SortDesc(groups, Score);
    var cut := SqlLimit(sorted, limit);
    DedupSpec(ids);
    GroupsSpec(Dedup(ids), db.interactions);
    SortDescMembers(groups, Score);
    SortDescDistinctBy(groups, Score, Key);
    TopSpec(db.products, sorted, |cut|);
    forall c, p | c in Attach(db.products, cut) && p in db.products
                  && InteractionCount(db.interactions, p.id) as real > c.score
      ensures Candidate(p.id, Lookup(db.products, p.id).value, InteractionCount(db.interactions, p.id) as real)
                in Attach(db.products, cut)
    {
      var i :| 0 <= i < |db.products| && db.products[i] == p;
      assert ids[i] == p.id;
      assert (p.id, InteractionCount(db.interactions, p.id) as real) in sorted;
    }
  }

  /** `_get_popular_products`: the most-interacted products, counts as scores. */
  method PopularProducts(db: Database, limit: int) returns (recs: seq<Candidate>)
    ensures recs == Attach(db.products, SqlLimit(SortDesc(PopularityGroups(db), Score), limit))
  {
    var popularProducts := SqlLimit(SortDesc(PopularityGroups(db), Score), limit);
    recs := Format(db.products, popularProducts);
  }

  /** The ranked, formatted top `limit` of the summed neighbour scores. */
  function CollaborativeOutcome(db: Database, userId: int, limit: int): seq<Candidate> {
    if InteractionsOf(db, userId) == [] then Attach(db.products, SqlLimit(SortDesc(PopularityGroups(db), Score), limit))
    else Attach(db.products, Take(SortDesc(Totals(CollabScores(db, userId)), Score), limit))
  }

  /**
   * For a user with interactions: the candidates are sorted and distinct, at most `limit`
   * when `limit` is non-negative, none is a product the user already interacted with, each
   * scores the sum of its neighbours' contributions, and no existing product with a higher
   * sum is left out; every product a retained neighbour interacted with that the user does
   * not know is scored.
   */
  lemma CollaborativeSpec(db: Database, userId: int, limit: int)
    requires InteractionsOf(db, userId) != []
    ensures SortedDesc(CollaborativeOutcome(db, userId, limit), CandidateScore)
    ensures DistinctBy(CollaborativeOutcome(db, userId, limit), CandidateId)
    ensures 0 <= limit ==> |CollaborativeOutcome(db, userId, limit)| <= limit
    ensures forall c :: c in CollaborativeOutcome(db, userId, limit) ==>
              c.productId !in ProductsBy(db.interactions, userId)
              && c.productId in Firsts(CollabScores(db, userId))
              && c.score == Total(CollabScores(db, userId), c.productId)
              && Lookup(db.products, c.productId) == Some(c.product)
    ensures forall c, k :: c in CollaborativeOutcome(db, userId, limit) && k in Firsts(CollabScores(db, userId))
                           && Total(CollabScores(db, userId), k) > c.score && Lookup(db.products, k).Some? ==>
              Candidate(k, Lookup(db.products, k).value, Total(CollabScores(db, userId), k))
                in CollaborativeOutcome(db, userId, limit)
    ensures forall n, ix :: n in Take(SimilarUsers(db, userId, ProductSet(InteractionsOf(db, userId))), NeighbourCount)
                            && ix in db.interactions && ix.userId == n.0 && ix.productId !in ProductsBy(db.interactions, userId) ==>
              ix.productId in Firsts(CollabScores(db, userId))
  {
    var known := ProductSet(InteractionsOf(db, userId));
    var ns := Take(SimilarUsers(db, userId, known), NeighbourCount);
    var ps := CollabScores(db, userId);
    var table := Totals(ps);
    var sorted := SortDesc(table, Score);
    var cut := Take(sorted, limit);
    KnownProducts(db, userId);
    CollabPairsSpec(db, ns, known);
    CollabPairsComplete(db, ns, known);
    TotalsSpec(ps);
    SortDescMembers(table, Score);
    SortDescDistinctBy(table, Score, Key);
    TopSpec(db.products, sorted, |cut|);
  }

  /** One `+=` of the inner loop, as a step of the summing dict over the contributions. */
  lemma NeighbourStep(keys: seq<int>, m: map<int, real>, done: seq<Pair>, sim: real, ixs: seq<Interaction>, j: int)
    requires 0 <= j < |ixs|
    requires SumTable(keys, m, done + Contributions(sim, ixs[..j]))
    ensures var p := (ixs[j].productId, Contribution(sim, ixs[j]));
            SumTable(if p.0 in m then keys else keys + [p.0],
                     m[p.0 := if p.0 in m then m[p.0] + p.1 else p.1],
                     done + Contributions(sim, ixs[..j + 1]))
  {
    var p := (ixs[j].productId, Contribution(sim, ixs[j]));
    ContributionsAppend(sim, ixs, j);
    var before := done + Contributions(sim, ixs[..j]);
    assert before + [p] == done + Contributions(sim, ixs[..j + 1]);
    SumStep(keys, m, before, p);
  }

  lemma ContributionsAppend(sim: real, ixs: seq<Interaction>, j: int)
    requires 0 <= j < |ixs|
    ensures Contributions(sim, ixs[..j + 1])
         == Contributions(sim, ixs[..j]) + [(ixs[j].productId, Contribution(sim, ixs[j]))]
  {
  }

  /** The score computation of the inner loop: type weight first, then the rating when it is truthy. */
  method BaseScore(similarityScore: real, interaction: Interaction) returns (baseScore: real)
    ensures baseScore == Contribution(similarityScore, interaction)
  {
    baseScore := similarityScore;
    if interaction.kind == Purchase {
      baseScore := baseScore * 3.0;
    } else if interaction.kind == Like {
      baseScore := baseScore * 2.0;
    } else if interaction.kind == View {
      baseScore := baseScore * 1.0;
    }
    if interaction.rating.Some? && interaction.rating.value != 0.0 {
      baseScore := baseScore * (interaction.rating.value / 5.0);
    }
  }

  /** `d[k] += v` for a key already present, `d[k] = v` (a new last key) otherwise. */
  method AddScore(keys0: seq<int>, recommendations0: map<int, real>, productId: int, baseScore: real)
    returns (keys: seq<int>, recommendations: map<int, real>)
    ensures keys == if productId in recommendations0 then keys0 else keys0 + [productId]
    ensures recommendations == recommendations0[productId :=
              if productId in recommendations0 then recommendations0[productId] + baseScore else baseScore]
  {
    keys, recommendations := keys0, recommendations0;
    if productId in recommendations {
      recommendations := recommendations[productId := recommendations[productId] + baseScore];
    } else {
      keys := keys + [productId];
      recommendations := recommendations[productId := baseScore];
    }
  }

  /**
   * The inner loop of `_get_collaborative_recommendations`: adds one neighbour's weighted
   * interactions to the running per-product sums.
   */
  method AddNeighbour(keys0: seq<int>, recommendations0: map<int, real>, ghost done: seq<Pair>,
                      similarityScore: real, similarUserInteractions: seq<Interaction>)
    returns (keys: seq<int>, recommendations: map<int, real>)
    requires SumTable(keys0, recommendations0, done)
    ensures SumTable(keys, recommendations, done + Contributions(similarityScore, similarUserInteractions))
  {
    keys, recommendations := keys0, recommendations0;
    assert done + Contributions(similarityScore, similarUserInteractions[..0]) == done;
    for j := 0 to |similarUserInteractions|
      invariant SumTable(keys, recommendations, done + Contributions(similarityScore, similarUserInteractions[..j]))
    {
      var interaction := similarUserInteractions[j];
      var productId := interaction.productId;

      var baseScore := BaseScore(similarityScore, interaction);

      NeighbourStep(keys, recommendations, done, similarityScore, similarUserInteractions, j);
      keys, recommendations := AddScore(keys, recommendations, productId, baseScore);
    }
    assert similarUserInteractions[..|similarUserInteractions|] == similarUserInteractions;
  }

  /**
   * `_get_collaborative_recommendations`: a user without interactions gets the popular
   * products; otherwise the ten most similar users' interactions with products the user does
   * not know are weighted and summed per product, and the top `limit` sums are formatted.
   */
  method CollaborativeRecommendations(db: Database, userId: int, limit: int) returns (recs: seq<Candidate>)
    ensures recs == CollaborativeOutcome(db, userId, limit)
    ensures SortedDesc(recs, CandidateScore) && DistinctBy(recs, CandidateId)
    ensures 0 <= limit ==> |recs| <= limit
    ensures forall c :: c in recs ==>
              c.productId !in ProductsBy(db.interactions, userId) && Lookup(db.products, c.productId) == Some(c.product)
  {
    recs := CollaborativeLoop(db, userId, limit);
    CollaborativeShape(db, userId, limit);
  }

  /** Both paths of the collaborative scorer return a sorted, duplicate-free list of unknown products. */
  lemma CollaborativeShape(db: Database, userId: int, limit: int)
    ensures SortedDesc(CollaborativeOutcome(db, userId, limit), CandidateScore)
    ensures DistinctBy(CollaborativeOutcome(db, userId, limit), CandidateId)
    ensures 0 <= limit ==> |CollaborativeOutcome(db, userId, limit)| <= limit
    ensures forall c :: c in CollaborativeOutcome(db, userId, limit) ==>
              c.productId !in ProductsBy(db.interactions, userId) && Lookup(db.products, c.productId) == Some(c.product)
  {
    KnownProducts(db, userId);
    if InteractionsOf(db, userId) == [] {
      PopularSpec(db, limit);
      forall c | c in CollaborativeOutcome(db, userId, limit)
        ensures Lookup(db.products, c.productId) == Some(c.product)
      {
        AttachSpec(db.products, SqlLimit(SortDesc(PopularityGroups(db), Score), limit));
      }
    } else {
      CollaborativeSpec(db, userId, limit);
    }
  }

  method CollaborativeLoop(db: Database, userId: int, limit: int) returns (recs: seq<Candidate>)
    ensures recs == CollaborativeOutcome(db, userId, limit)
  {
    var userInteractions := InteractionsOf(db, userId);
    if userInteractions == [] {
      // A user with no history gets the most-interacted products.
      recs := PopularProducts(db, limit);
      return;
    }
    var userProducts := ProductSet(userInteractions);
    var similarUsers := FindSimilarUsers(db, userId, userProducts);
    var neighbours := Take(similarUsers, NeighbourCount);

    var keys: seq<int> := [];
    var recommendations: map<int, real> := map[];
    for i := 0 to |neighbours|
      invariant SumTable(keys, recommendations, CollabPairs(db, neighbours[..i], userProducts))
    {
      var similarUserId, similarityScore := neighbours[i].0, neighbours[i].1;
      ghost var done := CollabPairs(db, neighbours[..i], userProducts);
      var similarUserInteractions := NeighbourInteractions(db, similarUserId, userProducts);
      keys, recommendations := AddNeighbour(keys, recommendations, done, similarityScore, similarUserInteractions);
      assert neighbours[..i + 1][..i] == neighbours[..i];
    }
    assert neighbours[..|neighbours|] == neighbours;

    var ps := CollabPairs(db, neighbours, userProducts);
    SumTableItems(keys, recommendations, ps);
    assert ps == CollabScores(db, userId);
    recs := Format(db.products, Take(SortDesc(Items(keys, recommendations), Score), limit));
  }
}
