/** Content-based filtering over a product-by-product similarity matrix. */
module ContentFiltering {
  import opened Wrappers
  import opened Ranking
  import opened Records
  import opened ScoreTable

  /** A product is a content candidate only when its similarity is strictly above this. */
  const MinContentSimilarity: real := 0.1

  /** A similarity matrix: row `i` holds the similarities of catalogue product `i` to every product. */
  type Matrix = seq<seq<real>>

  predicate LikesOrBuys(ix: Interaction) {
    ix.kind == Like || ix.kind == Purchase
  }

  /** The products behind the user's likes and purchases, in interaction order, duplicates kept. */
  function Liked(products: seq<Product>, ixs: seq<Interaction>): seq<Product> {
    if ixs == [] then []
    else
      var ix := ixs[|ixs| - 1];
      Liked(products, ixs[..|ixs| - 1])
        + (if LikesOrBuys(ix) && Lookup(products, ix.productId).Some? then [Lookup(products, ix.productId).value] else [])
  }

  /** Exactly the existing products the user liked or bought are the seeds of content scoring. */
  lemma {:induction false} LikedSpec(products: seq<Product>, ixs: seq<Interaction>)
    ensures forall p :: p in Liked(products, ixs) ==>
              p in products && exists ix :: ix in ixs && LikesOrBuys(ix) && ix.productId == p.id
    ensures forall ix :: ix in ixs && LikesOrBuys(ix) && Lookup(products, ix.productId).Some? ==>
              Lookup(products, ix.productId).value in Liked(products, ixs)
  {
    if ixs != [] {
      var init, last := ixs[..|ixs| - 1], ixs[|ixs| - 1];
      assert ixs == init + [last];
      LikedSpec(products, init);
    }
  }

  /** The loop collecting `liked_products`. */
  method LikedProducts(products: seq<Product>, userInteractions: seq<Interaction>) returns (liked: seq<Product>)
    ensures liked == Liked(products, userInteractions)
  {
    liked := [];
    for i := 0 to |userInteractions|
      invariant liked == Liked(products, userInteractions[..i])
    {
      assert userInteractions[..i + 1][..i] == userInteractions[..i];
      var interaction := userInteractions[i];
      if interaction.kind == Like || interaction.kind == Purchase {
        var product := Lookup(products, interaction.productId);
        if product.Some? {
          liked := liked + [product.value];
        }
      }
    }
    assert userInteractions[..|userInteractions|] == userInteractions;
  }

  /** The matrix row of a seed, or nothing when the seed has no position or no row. */
  function RowOf(m: Matrix, products: seq<Product>, seed: Product): (r: seq<real>)
    ensures RowOk(m, products, seed) ==> |r| <= |products|
  {
    match PositionOf(products, seed.id)
    case Some(i) => if i < |m| then m[i] else []
    case None => []
  }

  /**
   * Scoring a seed does not raise: either the seed has no catalogue position, or its row
   * exists and is no longer than the catalogue.
   */
  predicate RowOk(m: Matrix, products: seq<Product>, seed: Product) {
    match PositionOf(products, seed.id)
    case Some(i) => i < |m| && |m[i]| <= |products|
    case None => true
  }

  /** The (product, similarity) pairs of one row that pass the known-product and threshold filters. */
  function RowPairs(row: seq<real>, products: seq<Product>, known: set<int>): seq<Pair>
    requires |row| <= |products|
  {
    if row == [] then []
    else
      var k := |row| - 1;
      RowPairs(row[..k], products, known)
        + (if products[k].id !in known && row[k] > MinContentSimilarity then [(products[k].id, row[k])] else [])
  }

  lemma {:induction false} RowPairsSpec(row: seq<real>, products: seq<Product>, known: set<int>)
    requires |row| <= |products|
    ensures forall q :: q in RowPairs(row, products, known) ==>
              q.0 !in known && q.1 > MinContentSimilarity
              && exists k :: 0 <= k < |row| && products[k].id == q.0 && row[k] == q.1
    ensures forall k :: 0 <= k < |row| && products[k].id !in known && row[k] > MinContentSimilarity ==>
              (products[k].id, row[k]) in RowPairs(row, products, known)
  {
    if row != [] {
      var k := |row| - 1;
      RowPairsSpec(row[..k], products, known);
      forall q | q in RowPairs(row, products, known)
        ensures exists j :: 0 <= j < |row| && products[j].id == q.0 && row[j] == q.1
      {
        if q in RowPairs(row[..k], products, known) {
          var j :| 0 <= j < k && products[j].id == q.0 && row[..k][j] == q.1;
          assert row[j] == q.1;
        }
      }
      forall j | 0 <= j < |row| && products[j].id !in known && row[j] > MinContentSimilarity
        ensures (products[j].id, row[j]) in RowPairs(row, products, known)
      {
        if j < k {
          assert row[..k][j] == row[j];
        }
      }
    }
  }

  lemma RowStep(row: seq<real>, products: seq<Product>, known: set<int>, k: int)
    requires 0 <= k < |row| && k < |products|
    ensures RowPairs(row[..k + 1], products, known)
         == RowPairs(row[..k], products, known)
            + (if products[k].id !in known && row[k] > MinContentSimilarity then [(products[k].id, row[k])] else [])
  {
    assert row[..k + 1][..k] == row[..k];
  }

  /** All pairs the seeds contribute, seed by seed. */
  function ContentPairs(m: Matrix, products: seq<Product>, seeds: seq<Product>, known: set<int>): seq<Pair>
    requires forall s :: s in seeds ==> RowOk(m, products, s)
  {
    if seeds == [] then []
    else
      var s := seeds[|seeds| - 1];
      ContentPairs(m, products, seeds[..|seeds| - 1], known) + RowPairs(RowOf(m, products, s), products, known)
  }

  lemma {:induction false} ContentPairsSound(m: Matrix, products: seq<Product>, seeds: seq<Product>, known: set<int>)
    requires forall s :: s in seeds ==> RowOk(m, products, s)
    ensures forall q :: q in ContentPairs(m, products, seeds, known) ==>
              q.0 !in known && q.1 > MinContentSimilarity
              && exists s, k :: s in seeds && 0 <= k < |RowOf(m, products, s)| && products[k].id == q.0
                                && RowOf(m, products, s)[k] == q.1
  {
    if seeds != [] {
      var init, last := seeds[..|seeds| - 1], seeds[|seeds| - 1];
      assert seeds == init + [last];
      ContentPairsSound(m, products, init, known);
      RowPairsSpec(RowOf(m, products, last), products, known);
    }
  }

  lemma {:induction false} ContentPairsComplete(m: Matrix, products: seq<Product>, seeds: seq<Product>, known: set<int>)
    requires forall s :: s in seeds ==> RowOk(m, products, s)
    ensures forall s, k :: s in seeds && 0 <= k < |RowOf(m, products, s)| && products[k].id !in known
                           && RowOf(m, products, s)[k] > MinContentSimilarity ==>
              (products[k].id, RowOf(m, products, s)[k]) in ContentPairs(m, products, seeds, known)
  {
    if seeds != [] {
      var init, last := seeds[..|seeds| - 1], seeds[|seeds| - 1];
      assert seeds == init + [last];
      ContentPairsComplete(m, products, init, known);
      RowPairsSpec(RowOf(m, products, last), products, known);
    }
  }


  /**
   * The reference of the scoring loop: an `IndexError` when some seed's row is missing or
   * longer than the catalogue, otherwise the top `limit` of each product's best similarity.
   */
  function Content(m: Matrix, products: seq<Product>, seeds: seq<Product>, known: set<int>, limit: int)
    : (r: Result<seq<Candidate>>)
    ensures r.Err? <==> exists s :: s in seeds && !RowOk(m, products, s)
    ensures r.Err? ==> r.error == IndexError
    ensures r.Ok? && 0 <= limit ==> |r.value| <= limit
  {
    if forall s :: s in seeds ==> RowOk(m, products, s) then
      Ok(Attach(products, Take(SortDesc(Maxima(ContentPairs(m, products, seeds, known)), Score), limit)))
    else Err(IndexError)
  }

  /** The ranking table behind a successful content scoring: one best similarity per product. */
  function ContentTable(m: Matrix, products: seq<Product>, seeds: seq<Product>, known: set<int>): seq<Pair>
    requires forall s :: s in seeds ==> RowOk(m, products, s)
  {
    Maxima(ContentPairs(m, products, seeds, known))
  }

  /**
   * When scoring succeeds, the candidates are sorted and distinct, at most `limit` when `limit`
   * is non-negative, none is known to the user, each scores above 0.1 with the best similarity
   * of its product, and no existing product with a higher best similarity is left out.
   */
  lemma ContentSpec(m: Matrix, products: seq<Product>, seeds: seq<Product>, known: set<int>, limit: int)
    requires Content(m, products, seeds, known, limit).Ok?
    ensures SortedDesc(Content(m, products, seeds, known, limit).value, CandidateScore)
    ensures DistinctBy(Content(m, products, seeds, known, limit).value, CandidateId)
    ensures 0 <= limit ==> |Content(m, products, seeds, known, limit).value| <= limit
    ensures forall c :: c in Content(m, products, seeds, known, limit).value ==>
              c.productId !in known && c.score > MinContentSimilarity
              && Lookup(products, c.productId) == Some(c.product)
              && (c.productId, c.score) in ContentTable(m, products, seeds, known)
    ensures forall c, q :: c in Content(m, products, seeds, known, limit).value
                           && q in ContentTable(m, products, seeds, known) && q.1 > c.score
                           && Lookup(products, q.0).Some? ==>
              Candidate(q.0, Lookup(products, q.0).value, q.1) in Content(m, products, seeds, known, limit).value
  {
    var ps := ContentPairs(m, products, seeds, known);
    var table := Maxima(ps);
    var sorted := SortDesc(table, Score);
    var cut := Take(sorted, limit);
    assert Content(m, products, seeds, known, limit).value == Attach(products, cut);
    MaximaSpec(ps);
    SortDescMembers(table, Score);
    SortDescDistinctBy(table, Score, Key);
    TopSpec(products, sorted, |cut|);
    forall q | q in table ensures q.0 !in known && q.1 > MinContentSimilarity {
      ContentPairsSound(m, products, seeds, known);
      BestIsMax(ps, q.0);
      var i :| 0 <= i < |ps| && ps[i].0 == q.0 && ps[i].1 == q.1;
      assert ps[i] in ps;
    }
  }

  /** A pair of the list never exceeds the best score of its key. */
  lemma PairAtMostBest(ps: seq<Pair>, x: Pair)
    requires x in ps
    ensures x.0 in Firsts(ps) && x.1 <= Best(ps, x.0)
  {
    var j :| 0 <= j < |ps| && ps[j] == x;
    assert Firsts(ps)[j] == x.0;
    BestIsMax(ps, x.0);
  }

  /**
   * A product's entry in the table bounds its similarity to every seed: the table keeps the
   * largest similarity.
   */
  lemma ContentTableBound(m: Matrix, products: seq<Product>, seeds: seq<Product>, known: set<int>,
                          q: Pair, s: Product, k: int)
    requires forall s :: s in seeds ==> RowOk(m, products, s)
    requires q in ContentTable(m, products, seeds, known) && s in seeds
    requires 0 <= k < |RowOf(m, products, s)| && products[k].id == q.0
    ensures RowOf(m, products, s)[k] <= q.1
  {
    var ps := ContentPairs(m, products, seeds, known);
    MaximaSpec(ps);
    assert q.0 in Firsts(ps) && q.1 == Best(ps, q.0);
    var j :| 0 <= j < |ps| && Firsts(ps)[j] == q.0;
    assert q.0 !in known && ps[j].1 > MinContentSimilarity by {
      ContentPairsSound(m, products, seeds, known);
      assert ps[j] in ps;
    }
    PairAtMostBest(ps, ps[j]);
    var x := (products[k].id, RowOf(m, products, s)[k]);
    if x.1 > MinContentSimilarity {
      ContentPairsComplete(m, products, seeds, known);
      PairAtMostBest(ps, x);
    }
  }

  /** A product's entry in the table is its similarity to some seed. */
  lemma ContentTableAttained(m: Matrix, products: seq<Product>, seeds: seq<Product>, known: set<int>, q: Pair)
    requires forall s :: s in seeds ==> RowOk(m, products, s)
    requires q in ContentTable(m, products, seeds, known)
    ensures exists s, k :: s in seeds && 0 <= k < |RowOf(m, products, s)|
                           && products[k].id == q.0 && RowOf(m, products, s)[k] == q.1
  {
    var ps := ContentPairs(m, products, seeds, known);
    MaximaSpec(ps);
    ContentPairsSound(m, products, seeds, known);
    BestIsMax(ps, q.0);
    var i :| 0 <= i < |ps| && ps[i].0 == q.0 && ps[i].1 == q.1;
    assert ps[i] in ps;
  }

  /**
   * The inner loop over one similarity row: skips known products, keeps the best similarity
   * above 0.1 per product, and fails like the source's `all_products[idx]` when the row is
   * longer than the catalogue.
   */
  method ScanRow(keys0: seq<int>, recommendations0: map<int, real>, ghost done: seq<Pair>,
                 similarities: seq<real>, allProducts: seq<Product>, interactedProductIds: set<int>)
    returns (ok: bool, keys: seq<int>, recommendations: map<int, real>)
    requires MaxTable(keys0, recommendations0, done)
    ensures ok <==> |similarities| <= |allProducts|
    ensures ok ==> MaxTable(keys, recommendations, done + RowPairs(similarities, allProducts, interactedProductIds))
  {
    keys, recommendations := keys0, recommendations0;
    assert done + RowPairs(similarities[..0], allProducts, interactedProductIds) == done;
    for idx := 0 to |similarities|
      invariant idx <= |allProducts|
      invariant MaxTable(keys, recommendations, done + RowPairs(similarities[..idx], allProducts, interactedProductIds))
    {
      if idx >= |allProducts| {
        return false, keys, recommendations;
      }
      var similarity := similarities[idx];
      var product := allProducts[idx];
      var before := RowPairs(similarities[..idx], allProducts, interactedProductIds);
      RowStep(similarities, allProducts, interactedProductIds, idx);

      // Products the user already knows are never scored.
      if product.id in interactedProductIds {
        assert done + RowPairs(similarities[..idx + 1], allProducts, interactedProductIds) == done + before;
        continue;
      }
      if similarity <= MinContentSimilarity {
        assert done + RowPairs(similarities[..idx + 1], allProducts, interactedProductIds) == done + before;
      }
      if similarity > MinContentSimilarity {
        MaxStep(keys, recommendations, done + before, (product.id, similarity));
        assert done + before + [(product.id, similarity)] == done + (before + [(product.id, similarity)]);
        if product.id in recommendations {
          recommendations := recommendations[product.id := MaxOf(recommendations[product.id], similarity)];
        } else {
          keys := keys + [product.id];
          recommendations := recommendations[product.id := similarity];
        }
      }
    }
    ok := true;
    assert similarities[..|similarities|] == similarities;
  }

  /**
   * The scoring part of `_get_content_based_recommendations`: for every seed with a
   * catalogue position, scan its matrix row, then rank and format the best similarities.
   */
  method ScoreContent(m: Matrix, allProducts: seq<Product>, likedProducts: seq<Product>,
                      interactedProductIds: set<int>, limit: int) returns (r: Result<seq<Candidate>>)
    ensures r == Content(m, allProducts, likedProducts, interactedProductIds, limit)
  {
    var keys: seq<int> := [];
    var recommendations: map<int, real> := map[];
    for i := 0 to |likedProducts|
      invariant forall s :: s in likedProducts[..i] ==> RowOk(m, allProducts, s)
      invariant MaxTable(keys, recommendations, ContentPairs(m, allProducts, likedProducts[..i], interactedProductIds))
    {
      var likedProduct := likedProducts[i];
      assert likedProducts[..i + 1] == likedProducts[..i] + [likedProduct];
      assert likedProduct in likedProducts;
      ghost var done := ContentPairs(m, allProducts, likedProducts[..i], interactedProductIds);
      match PositionOf(allProducts, likedProduct.id) {
        case None =>
          assert RowPairs(RowOf(m, allProducts, likedProduct), allProducts, interactedProductIds) == [];
          assert done + [] == done;
        case Some(likedIdx) =>
          if likedIdx >= |m| {
            r := Err(IndexError);
            return;
          }
          var similarities := m[likedIdx];
          var ok;
          ok, keys, recommendations := ScanRow(keys, recommendations, done, similarities, allProducts, interactedProductIds);
          if !ok {
            r := Err(IndexError);
            return;
          }
      }
    }
    assert likedProducts[..|likedProducts|] == likedProducts;
    var ps := ContentPairs(m, allProducts, likedProducts, interactedProductIds);
    MaxTableItems(keys, recommendations, ps);
    var productRecs := Format(allProducts, Take(SortDesc(Items(keys, recommendations), Score), limit));
    r := Ok(productRecs);
  }
}
