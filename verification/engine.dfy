/**
 * The recommendation engine object: it caches the content similarity matrix together with
 * the time it was built, and serves hybrid recommendations.
 */
module Engine {
  import opened Wrappers
  import opened Ranking
  import opened Records
  import opened ScoreTable
  import opened CollaborativeFiltering
  import opened ContentFiltering
  import opened HybridMerge

  /** The similarity matrix is rebuilt when it is more than an hour old. */
  const CacheSeconds: real := 3600.0

  /** The feature text of every catalogue product, in catalogue order. */
  function FeatureTexts(products: seq<Product>): (r: seq<string>)
    ensures |r| == |products|
    ensures forall i :: 0 <= i < |products| ==> r[i] == FeatureText(products[i])
  {
    seq(|products|, i requires 0 <= i < |products| => FeatureText(products[i]))
  }

  /**
   * What content-based scoring returns for the user, given the matrix it reads: the only
   * error is an `IndexError`, and a user whose scoring never reaches the matrix gets nothing.
   */
  function ContentOutcome(db: Database, userId: int, limit: int, m: Matrix): (r: Result<seq<Candidate>>)
    ensures r.Err? ==> r.error == IndexError
    ensures !UsesMatrix(db, userId) ==> r == Ok([])
  {
    var userInteractions := InteractionsOf(db, userId);
    if userInteractions == [] then Ok([])
    else
      var liked := Liked(db.products, userInteractions);
      if liked == [] then Ok([])
      else Content(m, db.products, liked, ProductSet(userInteractions), limit)
  }

  /** Whether content scoring reaches the matrix at all. */
  predicate UsesMatrix(db: Database, userId: int) {
    InteractionsOf(db, userId) != [] && Liked(db.products, InteractionsOf(db, userId)) != []
  }

  /**
   * What `get_recommendations` returns, given the matrix content scoring reads: it fails
   * exactly when content scoring fails, and then with the same error.
   */
  function Recommend(db: Database, userId: int, limit: int, m: Matrix): (r: Result<seq<Recommendation>>)
    ensures r.Err? <==> ContentOutcome(db, userId, limit / 2, m).Err?
    ensures r.Err? ==> r.error == IndexError
    ensures !UsesMatrix(db, userId) ==> r.Ok?
  {
    var content := ContentOutcome(db, userId, limit / 2, m);
    if content.Err? then Err(content.error)
    else Ok(Blend(CollaborativeOutcome(db, userId, limit / 2), content.value, limit))
  }

  /**
   * Successful content scoring yields a sorted, duplicate-free list of at most `limit`
   * existing products the user has not interacted with.
   */
  lemma ContentOutcomeSpec(db: Database, userId: int, limit: int, m: Matrix)
    requires ContentOutcome(db, userId, limit, m).Ok?
    ensures SortedDesc(ContentOutcome(db, userId, limit, m).value, CandidateScore)
    ensures DistinctBy(ContentOutcome(db, userId, limit, m).value, CandidateId)
    ensures 0 <= limit ==> |ContentOutcome(db, userId, limit, m).value| <= limit
    ensures forall c :: c in ContentOutcome(db, userId, limit, m).value ==>
              c.productId !in ProductsBy(db.interactions, userId) && Lookup(db.products, c.productId) == Some(c.product)
  {
    var userInteractions := InteractionsOf(db, userId);
    if userInteractions != [] {
      var liked := Liked(db.products, userInteractions);
      if liked != [] {
        KnownProducts(db, userId);
        ContentSpec(m, db.products, liked, ProductSet(userInteractions), limit);
      }
    }
  }

  /** Content scoring only errs when it uses the matrix, and then exactly when a liked product's row is bad. */
  lemma ContentOutcomeError(db: Database, userId: int, limit: int, m: Matrix)
    ensures ContentOutcome(db, userId, limit, m).Err? <==>
              UsesMatrix(db, userId)
              && exists s :: s in Liked(db.products, InteractionsOf(db, userId)) && !RowOk(m, db.products, s)
  {
  }

  /** A square matrix over the current catalogue, as a fresh rebuild produces, never makes scoring fail. */
  lemma SquareMatrixNeverFails(db: Database, userId: int, limit: int, m: Matrix)
    requires |m| == |db.products|
    requires forall i :: 0 <= i < |m| ==> |m[i]| == |db.products|
    ensures ContentOutcome(db, userId, limit, m).Ok?
  {
    forall s | s in Liked(db.products, InteractionsOf(db, userId)) ensures RowOk(m, db.products, s) {
    }
  }

  /**
   * A matrix built for a one-product catalogue, still cached after a second product was
   * added, makes content scoring fail for a user who liked the new product.
   */
  lemma OneInteraction(ix: Interaction, products: seq<Product>)
    ensures InteractionsOf(Database([ix], products), ix.userId) == [ix]
  {
    var r := InteractionsOf(Database([ix], products), ix.userId);
    assert ix in r;
    assert r[0] in [ix];
    assert r == [ix];
  }

  lemma StaleMatrixFails()
    ensures ContentOutcome(
              Database([Interaction(7, 2, Like, None)], [Product(1, "books", None), Product(2, "games", None)]),
              7, 5, [[1.0]]).Err?
  {
    var games := Product(2, "games", None);
    var products := [Product(1, "books", None), games];
    var ix := Interaction(7, 2, Like, None);
    var db := Database([ix], products);
    OneInteraction(ix, products);
    assert Lookup(products, 2) == Some(games) by {
      assert products[1..] == [games];
    }
    assert Liked(products, [ix]) == [games];
    assert PositionOf(products, 2) == Some(1);
    assert !RowOk([[1.0]], products, games);
    ContentOutcomeError(db, 7, 5, [[1.0]]);
  }

  /**
   * A successful recommendation list is sorted by blended score, at most `limit` long when
   * `limit` is non-negative, names each product once, only existing products, and none the
   * user has interacted with.
   */
  lemma RecommendSpec(db: Database, userId: int, limit: int, m: Matrix)
    requires Recommend(db, userId, limit, m).Ok?
    ensures SortedDesc(Recommend(db, userId, limit, m).value, RecScore)
    ensures 0 <= limit ==> |Recommend(db, userId, limit, m).value| <= limit
    ensures DistinctBy(Recommend(db, userId, limit, m).value, RecProductId)
    ensures forall x :: x in Recommend(db, userId, limit, m).value ==>
              x.product in db.products && x.product.id !in ProductsBy(db.interactions, userId)
  {
    var collab := CollaborativeOutcome(db, userId, limit / 2);
    var content := ContentOutcome(db, userId, limit / 2, m).value;
    CollaborativeShape(db, userId, limit / 2);
    ContentOutcomeSpec(db, userId, limit / 2, m);
    BlendSpec(collab, content, limit);
    MergedIsReference(collab, content);
    forall c: Candidate | c in collab + content ensures c.product.id == c.productId && c.productId !in ProductsBy(db.interactions, userId)
                                             && c.product in db.products {
    }
    MergedRefSpec(collab, content);
    var merged := Merged(collab, content);
    var sorted := SortDesc(merged, RecScore);
    SortDescDistinctBy(merged, RecScore, RecProductId);
    assert Take(sorted, limit) == sorted[..|Take(sorted, limit)|];
    forall x | x in Take(sorted, limit)
      ensures x.product in db.products && x.product.id !in ProductsBy(db.interactions, userId)
    {
      assert x in merged;
      var c: Candidate :| c in collab + content && x.product == c.product;
    }
  }

  lemma CollaborativeZero(db: Database, userId: int)
    ensures CollaborativeOutcome(db, userId, 0) == []
  {
    var groups := SortDesc(PopularityGroups(db), Score);
    assert SqlLimit(groups, 0) == [];
    assert Take(SortDesc(Totals(CollabScores(db, userId)), Score), 0) == [];
  }

  lemma ContentZero(db: Database, userId: int, m: Matrix)
    ensures ContentOutcome(db, userId, 0, m).Ok? ==> ContentOutcome(db, userId, 0, m).value == []
  {
    if UsesMatrix(db, userId) {
      var userInteractions := InteractionsOf(db, userId);
      var liked := Liked(db.products, userInteractions);
      if forall s :: s in liked ==> RowOk(m, db.products, s) {
        var table := Maxima(ContentPairs(m, db.products, liked, ProductSet(userInteractions)));
        assert Take(SortDesc(table, Score), 0) == [];
      }
    }
  }

  /**
   * `limit // 2` is 0 for a limit of 0 or 1, so both scorers return nothing and so does
   * the blend: such a call yields no recommendations (or the content scorer's error).
   */
  lemma SmallLimitIsEmpty(db: Database, userId: int, limit: int, m: Matrix)
    requires 0 <= limit < 2
    ensures Recommend(db, userId, limit, m).Ok? ==> Recommend(db, userId, limit, m).value == []
    ensures !UsesMatrix(db, userId) ==> Recommend(db, userId, limit, m) == Ok([])
  {
    assert limit / 2 == 0;
    CollaborativeZero(db, userId);
    ContentZero(db, userId, m);
    assert Merged([], []) == [];
  }

  class RecommendationEngine {
    /** `content_similarity_matrix`, or `None` before the first build. */
    var contentSimilarityMatrix: Option<Matrix>
    /** `last_update`: the clock reading of the last build. */
    var lastUpdate: Option<real>

    /** The two cache fields are only ever set together. */
    predicate Valid()
      reads this
    {
      contentSimilarityMatrix.Some? <==> lastUpdate.Some?
    }

    /** `__init__`: nothing cached yet. */
    constructor ()
      ensures contentSimilarityMatrix == None && lastUpdate == None
      ensures Valid()
    {
      contentSimilarityMatrix := None;
      lastUpdate := None;
    }

    /**
     * The rebuild condition: never built, older than an hour at `now`, or no matrix. Once a
     * matrix and its time stamp are cached, it is stale exactly when more than an hour old.
     */
    function Stale(now: real): (r: bool)
      reads this
      ensures lastUpdate.None? || contentSimilarityMatrix.None? ==> r
      ensures lastUpdate.Some? && contentSimilarityMatrix.Some? ==> (r <==> lastUpdate.value + CacheSeconds < now)
    {
      lastUpdate.None? || now - lastUpdate.value > CacheSeconds || contentSimilarityMatrix.None?
    }

    /**
     * `_update_content_similarity_matrix`: when the cache is stale and the catalogue is not
     * empty, rebuild the matrix from the products' feature texts and stamp it with `now`;
     * otherwise leave the cache alone. `similarity` stands for TF-IDF followed by cosine
     * similarity, and `now` for the clock reading.
     */
    method UpdateContentSimilarityMatrix(products: seq<Product>, now: real, similarity: seq<string> -> Matrix)
      requires Valid()
      modifies this
      ensures Valid()
      ensures old(Stale(now)) && |products| > 0 ==>
                contentSimilarityMatrix == Some(similarity(FeatureTexts(products))) && lastUpdate == Some(now)
      ensures !(old(Stale(now)) && |products| > 0) ==>
                contentSimilarityMatrix == old(contentSimilarityMatrix) && lastUpdate == old(lastUpdate)
      ensures |products| > 0 ==> !Stale(now)
    {
      if lastUpdate.None? || now - lastUpdate.value > CacheSeconds || contentSimilarityMatrix.None? {
        // One feature text per product, in catalogue order.
        var contentFeatures: seq<string> := [];
        for i := 0 to |products|
          invariant contentFeatures == FeatureTexts(products[..i])
        {
          contentFeatures := contentFeatures + [FeatureText(products[i])];
        }
        assert products[..|products|] == products;
        if |contentFeatures| > 0 {
          contentSimilarityMatrix := Some(similarity(contentFeatures));
          lastUpdate := Some(now);
        }
      }
    }

    /**
     * `_get_content_based_recommendations`: nothing for a user without interactions or
     * without liked or bought products that exist; otherwise refresh the cache and score the
     * catalogue against the liked products through the cached matrix.
     */
    method ContentBasedRecommendations(db: Database, userId: int, limit: int, now: real,
                                       similarity: seq<string> -> Matrix) returns (r: Result<seq<Candidate>>)
      requires Valid()
      modifies this
      ensures Valid()
      ensures !UsesMatrix(db, userId) ==>
                r == Ok([]) && contentSimilarityMatrix == old(contentSimilarityMatrix) && lastUpdate == old(lastUpdate)
      ensures UsesMatrix(db, userId) ==>
                && (old(Stale(now)) ==> contentSimilarityMatrix == Some(similarity(FeatureTexts(db.products))) && lastUpdate == Some(now))
                && (!old(Stale(now)) ==> contentSimilarityMatrix == old(contentSimilarityMatrix) && lastUpdate == old(lastUpdate))
                && contentSimilarityMatrix.Some?
                && r == ContentOutcome(db, userId, limit, contentSimilarityMatrix.value)
      ensures r.Ok? ==> SortedDesc(r.value, CandidateScore) && DistinctBy(r.value, CandidateId)
      ensures r.Ok? && 0 <= limit ==> |r.value| <= limit
      ensures r.Ok? ==> forall c :: c in r.value ==>
                c.productId !in ProductsBy(db.interactions, userId) && Lookup(db.products, c.productId) == Some(c.product)
    {
      var userInteractions := InteractionsOf(db, userId);
      if userInteractions == [] {
        return Ok([]);
      }

      // The seeds: existing products the user liked or bought.
      var likedProducts := LikedProducts(db.products, userInteractions);
      if likedProducts == [] {
        return Ok([]);
      }
      LikedSpec(db.products, userInteractions);
      assert likedProducts[0] in db.products;

      // Refresh the cached matrix if it is stale.
      UpdateContentSimilarityMatrix(db.products, now, similarity);

      var allProducts := db.products;
      var interactedProductIds := ProductSet(userInteractions);
      r := ScoreContent(contentSimilarityMatrix.value, allProducts, likedProducts, interactedProductIds, limit);
      if r.Ok? {
        ContentOutcomeSpec(db, userId, limit, contentSimilarityMatrix.value);
      }
    }

    /**
     * `get_recommendations`: half the limit from each scorer, merged with weights 0.7 and
     * 0.3, sorted by blended score and cut to `limit`; an error of the content scorer
     * propagates.
     */
    method GetRecommendations(db: Database, userId: int, limit: int, now: real,
                              similarity: seq<string> -> Matrix) returns (r: Result<seq<Recommendation>>)
      requires Valid()
      modifies this
      ensures Valid()
      ensures !UsesMatrix(db, userId) ==>
                contentSimilarityMatrix == old(contentSimilarityMatrix) && lastUpdate == old(lastUpdate)
      ensures UsesMatrix(db, userId) ==>
                && (old(Stale(now)) ==> contentSimilarityMatrix == Some(similarity(FeatureTexts(db.products))) && lastUpdate == Some(now))
                && (!old(Stale(now)) ==> contentSimilarityMatrix == old(contentSimilarityMatrix) && lastUpdate == old(lastUpdate))
                && contentSimilarityMatrix.Some?
      ensures r == Recommend(db, userId, limit, contentSimilarityMatrix.GetOr([]))
      ensures r.Ok? ==> SortedDesc(r.value, RecScore) && DistinctBy(r.value, RecProductId)
      ensures r.Ok? && 0 <= limit ==> |r.value| <= limit
      ensures r.Ok? ==> forall x :: x in r.value ==>
                x.product in db.products && x.product.id !in ProductsBy(db.interactions, userId)
    {
      var collaborativeRecs := CollaborativeRecommendations(db, userId, limit / 2);
      var contentRecs :- ContentBasedRecommendations(db, userId, limit / 2, now, similarity);
      var recs := Combine(collaborativeRecs, contentRecs, limit);
      r := Ok(recs);
      RecommendSpec(db, userId, limit, contentSimilarityMatrix.GetOr([]));
    }
  }
}
