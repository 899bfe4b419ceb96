/**
 * The score dicts the scorers build (`recommendations[product_id] = ...`) and the loop that
 * turns their ranked items into candidates. A dict is modelled by the sequence of its keys in
 * insertion order plus a map; the reference meaning of a dict built from a stream of
 * (product id, score) pairs is given by `Total` (summing scorer) and `Best` (max scorer).
 */
module ScoreTable {
  import opened Wrappers
  import opened Ranking
  import opened Records

  /** A (product id, score) pair: one dict item. */
  type Pair = (int, real)

  function Key(p: Pair): int { p.0 }
  function Score(p: Pair): real { p.1 }

  function Firsts(ps: seq<Pair>): seq<int> {
    seq(|ps|, i requires 0 <= i < |ps| => ps[i].0)
  }

  /** Sum of the scores paired with `k`. */
  function Total(ps: seq<Pair>, k: int): real {
    if ps == [] then 0.0
    else Total(ps[..|ps| - 1], k) + (if ps[|ps| - 1].0 == k then ps[|ps| - 1].1 else 0.0)
  }

  /** Python's `max(a, b)`: `a` unless `b` is strictly larger. */
  function MaxOf(a: real, b: real): real {
    if b > a then b else a
  }

  /** Largest score paired with `k`. */
  function Best(ps: seq<Pair>, k: int): real
    requires k in Firsts(ps)
  {
    var init, last := ps[..|ps| - 1], ps[|ps| - 1];
    assert Firsts(ps) == Firsts(init) + [last.0];
    if last.0 != k then Best(init, k)
    else if k in Firsts(init) then MaxOf(Best(init, k), last.1)
    else last.1
  }

  /** `keys`/`m` is the dict left by `d[k] += v` (or `d[k] = v` for a new key) over `ps`. */
  ghost predicate SumTable(keys: seq<int>, m: map<int, real>, ps: seq<Pair>) {
    && keys == Dedup(Firsts(ps))
    && (forall k :: k in m <==> k in Firsts(ps))
    && (forall k :: k in m ==> m[k] == Total(ps, k))
  }

  /** `keys`/`m` is the dict left by `d[k] = max(d[k], v)` (or `d[k] = v` for a new key) over `ps`. */
  ghost predicate MaxTable(keys: seq<int>, m: map<int, real>, ps: seq<Pair>) {
    && keys == Dedup(Firsts(ps))
    && (forall k :: k in m <==> k in Firsts(ps))
    && (forall k :: k in m ==> k in Firsts(ps) && m[k] == Best(ps, k))
  }

  lemma FirstsAppend(ps: seq<Pair>, p: Pair)
    ensures Firsts(ps + [p]) == Firsts(ps) + [p.0]
  {
  }

  /** One `+=` step of the summing dict. */
  lemma SumStep(keys: seq<int>, m: map<int, real>, ps: seq<Pair>, p: Pair)
    requires SumTable(keys, m, ps)
    ensures SumTable(if p.0 in m then keys else keys + [p.0],
                     m[p.0 := if p.0 in m then m[p.0] + p.1 else p.1], ps + [p])
  {
    var keys' := if p.0 in m then keys else keys + [p.0];
    var m' := m[p.0 := if p.0 in m then m[p.0] + p.1 else p.1];
    var ps' := ps + [p];
    DedupStep(ps, p);
    assert keys' == Dedup(Firsts(ps'));
    forall k | k in m' ensures m'[k] == Total(ps', k) {
      TotalStep(ps, p, k);
      if k !in m {
        TotalAbsent(ps, k);
      }
    }
  }

  lemma DedupStep(ps: seq<Pair>, p: Pair)
    ensures forall k :: k in Firsts(ps + [p]) <==> k in Firsts(ps) || k == p.0
    ensures Dedup(Firsts(ps + [p]))
         == if p.0 in Firsts(ps) then Dedup(Firsts(ps)) else Dedup(Firsts(ps)) + [p.0]
  {
    var f, f' := Firsts(ps), Firsts(ps + [p]);
    FirstsAppend(ps, p);
    DedupSpec(f);
    assert f'[..|f'| - 1] == f;
  }

  /** A key that never occurs sums to zero. */
  lemma {:induction false} TotalAbsent(ps: seq<Pair>, k: int)
    requires k !in Firsts(ps)
    ensures Total(ps, k) == 0.0
  {
    if ps != [] {
      var init := ps[..|ps| - 1];
      FirstsAppend(init, ps[|ps| - 1]);
      assert ps == init + [ps[|ps| - 1]];
      TotalAbsent(init, k);
    }
  }

  lemma TotalStep(ps: seq<Pair>, p: Pair, k: int)
    ensures Total(ps + [p], k) == Total(ps, k) + (if p.0 == k then p.1 else 0.0)
  {
    assert (ps + [p])[..|ps|] == ps;
  }

  /** One `max` step of the max dict. */
  lemma MaxStep(keys: seq<int>, m: map<int, real>, ps: seq<Pair>, p: Pair)
    requires MaxTable(keys, m, ps)
    ensures MaxTable(if p.0 in m then keys else keys + [p.0],
                     m[p.0 := if p.0 in m then MaxOf(m[p.0], p.1) else p.1], ps + [p])
  {
    var keys' := if p.0 in m then keys else keys + [p.0];
    var m' := m[p.0 := if p.0 in m then MaxOf(m[p.0], p.1) else p.1];
    var ps' := ps + [p];
    DedupStep(ps, p);
    assert keys' == Dedup(Firsts(ps'));
    forall k | k in m' ensures k in Firsts(ps') && m'[k] == Best(ps', k) {
      assert ps'[..|ps|] == ps;
    }
  }

  /** `d.items()`, in insertion order. */
  function Items(keys: seq<int>, m: map<int, real>): seq<Pair>
    requires forall i :: 0 <= i < |keys| ==> keys[i] in m
  {
    seq(|keys|, i requires 0 <= i < |keys| && keys[i] in m => (keys[i], m[keys[i]]))
  }

  /** Reference dict of a summing scorer: each key once, first-occurrence order, with its total. */
  function Totals(ps: seq<Pair>): seq<Pair> {
    var ks := Dedup(Firsts(ps));
    seq(|ks|, i requires 0 <= i < |ks| => (ks[i], Total(ps, ks[i])))
  }

  /** Reference dict of a max scorer: each key once, first-occurrence order, with its best score. */
  function Maxima(ps: seq<Pair>): seq<Pair> {
    var ks := Dedup(Firsts(ps));
    DedupSpec(Firsts(ps));
    seq(|ks|, i requires 0 <= i < |ks| => (ks[i], Best(ps, ks[i])))
  }

  lemma SumTableItems(keys: seq<int>, m: map<int, real>, ps: seq<Pair>)
    requires SumTable(keys, m, ps)
    ensures forall i :: 0 <= i < |keys| ==> keys[i] in m
    ensures Items(keys, m) == Totals(ps)
  {
    DedupSpec(Firsts(ps));
    forall i | 0 <= i < |keys| ensures keys[i] in m {
      var k := keys[i];
      assert k in Dedup(Firsts(ps));
    }
  }

  lemma MaxTableItems(keys: seq<int>, m: map<int, real>, ps: seq<Pair>)
    requires MaxTable(keys, m, ps)
    ensures forall i :: 0 <= i < |keys| ==> keys[i] in m
    ensures Items(keys, m) == Maxima(ps)
  {
    DedupSpec(Firsts(ps));
    forall i | 0 <= i < |keys| ensures keys[i] in m {
      var k := keys[i];
      assert k in Dedup(Firsts(ps));
    }
  }

  /** The summed dict lists every key of the stream exactly once, with the sum of its scores. */
  lemma TotalsSpec(ps: seq<Pair>)
    ensures DistinctBy(Totals(ps), Key)
    ensures forall q :: q in Totals(ps) ==> q.0 in Firsts(ps) && q.1 == Total(ps, q.0)
    ensures forall k :: k in Firsts(ps) ==> (k, Total(ps, k)) in Totals(ps)
  {
    var ks := Dedup(Firsts(ps));
    DedupSpec(Firsts(ps));
    var t := Totals(ps);
    forall k | k in Firsts(ps) ensures (k, Total(ps, k)) in t {
      var i :| 0 <= i < |ks| && ks[i] == k;
      assert t[i] == (k, Total(ps, k));
    }
  }

  /** The max dict lists every key of the stream exactly once, with its largest score. */
  lemma MaximaSpec(ps: seq<Pair>)
    ensures DistinctBy(Maxima(ps), Key)
    ensures forall q :: q in Maxima(ps) ==> q.0 in Firsts(ps) && q.1 == Best(ps, q.0)
    ensures forall k :: k in Firsts(ps) ==> (k, Best(ps, k)) in Maxima(ps)
  {
    var ks := Dedup(Firsts(ps));
    DedupSpec(Firsts(ps));
    var t := Maxima(ps);
    forall k | k in Firsts(ps) ensures (k, Best(ps, k)) in t {
      var i :| 0 <= i < |ks| && ks[i] == k;
      assert t[i] == (k, Best(ps, k));
    }
  }

  /** `Best` is a maximum: no pair for `k` scores higher, and some pair for `k` attains it. */
  lemma {:induction false} BestIsMax(ps: seq<Pair>, k: int)
    requires k in Firsts(ps)
    ensures forall i :: 0 <= i < |ps| && ps[i].0 == k ==> ps[i].1 <= Best(ps, k)
    ensures exists i :: 0 <= i < |ps| && ps[i].0 == k && ps[i].1 == Best(ps, k)
  {
    var init, last := ps[..|ps| - 1], ps[|ps| - 1];
    FirstsAppend(init, last);
    assert ps == init + [last];
    if k in Firsts(init) {
      BestIsMax(init, k);
      var j :| 0 <= j < |init| && init[j].0 == k && init[j].1 == Best(init, k);
      if last.0 == k && last.1 > Best(init, k) {
        assert ps[|ps| - 1].1 == Best(ps, k);
      } else {
        assert ps[j].1 == Best(ps, k);
      }
    } else {
      forall i | 0 <= i < |init| ensures ps[i].0 != k {
        assert ps[i] == init[i] && Firsts(init)[i] == init[i].0;
      }
      assert ps[|ps| - 1].1 == Best(ps, k);
    }
  }

  /** A summed score is additive over consecutive runs of the stream. */
  lemma {:induction false} TotalAppend(a: seq<Pair>, b: seq<Pair>, k: int)
    ensures Total(a + b, k) == Total(a, k) + Total(b, k)
  {
    if b != [] {
      var b' := b[..|b| - 1];
      TotalAppend(a, b', k);
      assert (a + b)[..|a + b| - 1] == a + b';
    } else {
      assert a + b == a;
    }
  }

  /** Ranked items whose product still exists, as candidates (lookups that fail are dropped). */
  function Attach(products: seq<Product>, ranked: seq<Pair>): (r: seq<Candidate>)
    ensures |r| <= |ranked|
  {
    if ranked == [] then []
    else
      var q := ranked[|ranked| - 1];
      Attach(products, ranked[..|ranked| - 1])
        + (match Lookup(products, q.0)
           case Some(p) => [Candidate(q.0, p, q.1)]
           case None => [])
  }

  /** Formatting keeps at most one candidate per ranked pair, invents none and drops none that exists. */
  lemma {:induction false} AttachMembers(products: seq<Product>, ranked: seq<Pair>)
    ensures |Attach(products, ranked)| <= |ranked|
    ensures forall c :: c in Attach(products, ranked) ==>
              (c.productId, c.score) in ranked && Lookup(products, c.productId) == Some(c.product)
    ensures forall q :: q in ranked && Lookup(products, q.0).Some? ==>
              Candidate(q.0, Lookup(products, q.0).value, q.1) in Attach(products, ranked)
  {
    if ranked != [] {
      var init, q := ranked[..|ranked| - 1], ranked[|ranked| - 1];
      assert ranked == init + [q];
      AttachMembers(products, init);
    }
  }

  /** Formatting keeps a ranking's order. */
  lemma {:induction false} AttachSorted(products: seq<Product>, ranked: seq<Pair>)
    requires SortedDesc(ranked, Score)
    ensures SortedDesc(Attach(products, ranked), CandidateScore)
  {
    if ranked != [] {
      var init, q := ranked[..|ranked| - 1], ranked[|ranked| - 1];
      assert SortedDesc(init, Score);
      AttachSorted(products, init);
      AttachMembers(products, init);
      var before := Attach(products, init);
      forall c | c in before ensures c.score >= q.1 {
        var j :| 0 <= j < |init| && init[j] == (c.productId, c.score);
        assert ranked[j] == init[j];
      }
      match Lookup(products, q.0) {
        case Some(p) => SortedAppend(before, Candidate(q.0, p, q.1), CandidateScore);
        case None =>
      }
    }
  }

  /** Formatting keeps a ranking's ids distinct. */
  lemma {:induction false} AttachDistinct(products: seq<Product>, ranked: seq<Pair>)
    requires DistinctBy(ranked, Key)
    ensures DistinctBy(Attach(products, ranked), CandidateId)
  {
    if ranked != [] {
      var init, q := ranked[..|ranked| - 1], ranked[|ranked| - 1];
      assert DistinctBy(init, Key);
      AttachDistinct(products, init);
      AttachMembers(products, init);
      var before := Attach(products, init);
      forall c | c in before ensures c.productId != q.0 {
        var j :| 0 <= j < |init| && init[j] == (c.productId, c.score);
        assert ranked[j] == init[j];
      }
      match Lookup(products, q.0) {
        case Some(p) => DistinctByAppend(before, Candidate(q.0, p, q.1), CandidateId);
        case None =>
      }
    }
  }

  /**
   * Formatting keeps the ranking's order and ids, drops exactly the ids whose product is
   * missing, and never invents a candidate.
   */
  lemma AttachSpec(products: seq<Product>, ranked: seq<Pair>)
    ensures |Attach(products, ranked)| <= |ranked|
    ensures forall c :: c in Attach(products, ranked) ==>
              (c.productId, c.score) in ranked && Lookup(products, c.productId) == Some(c.product)
    ensures forall q :: q in ranked && Lookup(products, q.0).Some? ==>
              Candidate(q.0, Lookup(products, q.0).value, q.1) in Attach(products, ranked)
    ensures SortedDesc(ranked, Score) ==> SortedDesc(Attach(products, ranked), CandidateScore)
    ensures DistinctBy(ranked, Key) ==> DistinctBy(Attach(products, ranked), CandidateId)
  {
    AttachMembers(products, ranked);
    if SortedDesc(ranked, Score) {
      AttachSorted(products, ranked);
    }
    if DistinctBy(ranked, Key) {
      AttachDistinct(products, ranked);
    }
  }

  /** The formatting loop shared by the three scorers. */
  method Format(products: seq<Product>, ranked: seq<Pair>) returns (recs: seq<Candidate>)
    ensures recs == Attach(products, ranked)
    ensures |recs| <= |ranked|
    ensures forall c :: c in recs ==> (c.productId, c.score) in ranked && Lookup(products, c.productId) == Some(c.product)
    ensures SortedDesc(ranked, Score) ==> SortedDesc(recs, CandidateScore)
    ensures DistinctBy(ranked, Key) ==> DistinctBy(recs, CandidateId)
  {
    recs := [];
    for i := 0 to |ranked|
      invariant recs == Attach(products, ranked[..i])
    {
      assert ranked[..i + 1][..i] == ranked[..i];
      var q := ranked[i];
      match Lookup(products, q.0) {
        case Some(p) => recs := recs + [Candidate(q.0, p, q.1)];
        case None =>
      }
    }
    assert ranked[..|ranked|] == ranked;
    AttachSpec(products, ranked);
  }

  /** SQL `LIMIT n`; a negative limit means no limit. */
  function SqlLimit<T>(s: seq<T>, n: int): (r: seq<T>)
    ensures |r| <= |s| && r == s[..|r|]
    ensures 0 <= n ==> |r| <= n
    ensures n < 0 ==> r == s
  {
    if n < 0 then s else Take(s, n)
  }

  /**
   * Formatting a prefix of a ranking: the candidates are sorted, carry distinct ids, are
   * no more than the prefix, come from the ranking, and no existing product that scores
   * strictly higher than a returned candidate is left out.
   */
  lemma TopSpec(products: seq<Product>, sorted: seq<Pair>, m: nat)
    requires SortedDesc(sorted, Score) && DistinctBy(sorted, Key)
    requires m <= |sorted|
    ensures SortedDesc(Attach(products, sorted[..m]), CandidateScore)
    ensures DistinctBy(Attach(products, sorted[..m]), CandidateId)
    ensures |Attach(products, sorted[..m])| <= m
    ensures forall c :: c in Attach(products, sorted[..m]) ==>
              (c.productId, c.score) in sorted && Lookup(products, c.productId) == Some(c.product)
    ensures forall c, q :: c in Attach(products, sorted[..m]) && q in sorted && q.1 > c.score
                           && Lookup(products, q.0).Some? ==>
              Candidate(q.0, Lookup(products, q.0).value, q.1) in Attach(products, sorted[..m])
  {
    var pre := sorted[..m];
    var r := Attach(products, pre);
    assert SortedDesc(pre, Score) && DistinctBy(pre, Key);
    AttachSpec(products, pre);
    forall c, q | c in r && q in sorted && q.1 > c.score && Lookup(products, q.0).Some?
      ensures Candidate(q.0, Lookup(products, q.0).value, q.1) in r
    {
      var i :| 0 <= i < m && pre[i] == (c.productId, c.score);
      var j :| 0 <= j < |sorted| && sorted[j] == q;
      assert sorted[i] == pre[i];
      assert j < i;
      assert q == pre[j];
    }
  }
}
