/**
 * The rows the recommendation engine reads from its database, and the queries it runs
 * on them. Tables are sequences in the order the database returns them.
 */
module Records {
  import opened Wrappers

  datatype InteractionType = View | Like | Purchase | Search

  /** A row of `user_interactions`; `rating` is a nullable float. */
  datatype Interaction = Interaction(userId: int, productId: int, kind: InteractionType, rating: Option<real>)

  /** A row of `products`, reduced to what scoring reads (the display fields of the table are not modelled). */
  datatype Product = Product(id: int, category: string, description: Option<string>)

  datatype Database = Database(interactions: seq<Interaction>, products: seq<Product>)

  /** A scored candidate as the scorers hand it on: `{'product_id', 'product', 'score'}`. */
  datatype Candidate = Candidate(productId: int, product: Product, score: real)

  function CandidateId(c: Candidate): int { c.productId }
  function CandidateScore(c: Candidate): real { c.score }

  /** A filtered query over the interactions table, keeping table order. */
  function Where(s: seq<Interaction>, keep: Interaction -> bool): (r: seq<Interaction>)
    ensures forall ix :: ix in r <==> ix in s && keep(ix)
    ensures |r| <= |s|
  {
    if s == [] then []
    else
      assert s == s[..|s| - 1] + [s[|s| - 1]];
      Where(s[..|s| - 1], keep) + (if keep(s[|s| - 1]) then [s[|s| - 1]] else [])
  }

  /**
   * A filter keeps every copy of a kept row and no copy of a dropped one: identical rows
   * (the same user viewing the same product twice) are all counted.
   */
  lemma {:induction false} WhereMultiplicity(s: seq<Interaction>, keep: Interaction -> bool)
    ensures forall x :: multiset(Where(s, keep))[x] == if keep(x) then multiset(s)[x] else 0
  {
    if s != [] {
      var init, last := s[..|s| - 1], s[|s| - 1];
      WhereMultiplicity(init, keep);
      assert s == init + [last];
      assert multiset(s) == multiset(init) + multiset{last};
    }
  }

  /** `UserInteraction.user_id == userId` */
  function InteractionsOf(db: Database, userId: int): seq<Interaction> {
    Where(db.interactions, (ix: Interaction) => ix.userId == userId)
  }

  /** `UserInteraction.user_id != userId` */
  function OtherUsersInteractions(db: Database, userId: int): seq<Interaction> {
    Where(db.interactions, (ix: Interaction) => ix.userId != userId)
  }

  /** `{interaction.product_id for interaction in ixs}` */
  function ProductSet(ixs: seq<Interaction>): set<int> {
    set ix | ix in ixs :: ix.productId
  }

  /** The products user `o` has interacted with in `ixs`. */
  function ProductsBy(ixs: seq<Interaction>, o: int): set<int> {
    set ix | ix in ixs && ix.userId == o :: ix.productId
  }

  /** `db.query(Product).filter(Product.id == id).first()` */
  function Lookup(products: seq<Product>, id: int): (r: Option<Product>)
    ensures r.Some? ==> r.value in products && r.value.id == id
    ensures r.None? ==> forall p :: p in products ==> p.id != id
  {
    if products == [] then None
    else if products[0].id == id then Some(products[0])
    else Lookup(products[1..], id)
  }

  /**
   * `{product.id: idx for idx, product in enumerate(products)}[id]`: the dict comprehension
   * keeps the last position of an id.
   */
  function PositionOf(products: seq<Product>, id: int): (r: Option<nat>)
    ensures r.Some? ==> r.value < |products| && products[r.value].id == id
    ensures r.None? ==> forall p :: p in products ==> p.id != id
  {
    if products == [] then None
    else if products[|products| - 1].id == id then Some(|products| - 1)
    else
      assert products == products[..|products| - 1] + [products[|products| - 1]];
      PositionOf(products[..|products| - 1], id)
  }

  /** `f"{product.category} {product.description or ''}"` */
  function FeatureText(p: Product): (r: string)
    ensures p.category + " " <= r
    ensures r[|p.category| + 1..] == p.description.GetOr("")
    ensures |r| == |p.category| + 1 + |p.description.GetOr("")|
    ensures p.description.None? ==> r == p.category + " "
  {
    p.category + " " + p.description.GetOr("")
  }
}
