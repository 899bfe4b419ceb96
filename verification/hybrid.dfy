/** The hybrid step: merging the collaborative and content-based candidates into one ranking. */
module HybridMerge {
  import opened Wrappers
  import opened Ranking
  import opened Records

  /** Collaborative scores count 0.7, content-based scores 0.3. */
  const CollaborativeWeight: real := 0.7
  const ContentWeight: real := 0.3

  datatype AlgorithmType = Collaborative | ContentBased | Hybrid

  /** A `RecommendationResponse`: the product, its blended score and where it came from. */
  datatype Recommendation = Recommendation(product: Product, score: real, algorithmType: AlgorithmType)

  function RecScore(r: Recommendation): real { r.score }
  function RecProductId(r: Recommendation): int { r.product.id }

  /** The `all_recs` dict: keys in insertion order and the entry of each key. */
  datatype Table = Table(keys: seq<int>, entries: map<int, Recommendation>)

  function Ids(s: seq<Candidate>): seq<int> {
    seq(|s|, i requires 0 <= i < |s| => s[i].productId)
  }

  /** A collaborative candidate overwrites its key with 0.7 times its score. */
  function PutCollaborative(t: Table, c: Candidate): Table {
    Table(if c.productId in t.entries then t.keys else t.keys + [c.productId],
          t.entries[c.productId := Recommendation(c.product, c.score * CollaborativeWeight, Collaborative)])
  }

  /** A content candidate adds 0.3 times its score to an existing key and marks it hybrid, or creates the key. */
  function PutContent(t: Table, c: Candidate): Table {
    if c.productId in t.entries then
      var e := t.entries[c.productId];
      Table(t.keys, t.entries[c.productId := Recommendation(e.product, e.score + c.score * ContentWeight, Hybrid)])
    else
      Table(t.keys + [c.productId], t.entries[c.productId := Recommendation(c.product, c.score * ContentWeight, ContentBased)])
  }

  /** The dict after the collaborative loop. */
  function CollaborativeTable(collab: seq<Candidate>): (t: Table)
    ensures forall k :: k in t.entries <==> k in t.keys
  {
    if collab == [] then Table([], map[])
    else PutCollaborative(CollaborativeTable(collab[..|collab| - 1]), collab[|collab| - 1])
  }

  /** The dict after both loops. */
  function MergeTable(collab: seq<Candidate>, content: seq<Candidate>): (t: Table)
    ensures forall k :: k in t.entries <==> k in t.keys
  {
    if content == [] then CollaborativeTable(collab)
    else PutContent(MergeTable(collab, content[..|content| - 1]), content[|content| - 1])
  }

  /** `all_recs.values()`, in insertion order. */
  function Values(t: Table): seq<Recommendation>
    requires forall i :: 0 <= i < |t.keys| ==> t.keys[i] in t.entries
  {
    seq(|t.keys|, i requires 0 <= i < |t.keys| => t.entries[t.keys[i]])
  }

  function Merged(collab: seq<Candidate>, content: seq<Candidate>): seq<Recommendation> {
    var t := MergeTable(collab, content);
    assert forall i :: 0 <= i < |t.keys| ==> t.keys[i] in t.keys;
    Values(t)
  }

  /** The blended ranking: all merged entries by score, cut to `limit`. */
  function Blend(collab: seq<Candidate>, content: seq<Candidate>, limit: int): (r: seq<Recommendation>)
    ensures |r| <= |Merged(collab, content)|
    ensures 0 <= limit ==> |r| <= limit
  {
    SortDescMembers(Merged(collab, content), RecScore);
    Take(SortDesc(Merged(collab, content), RecScore), limit)
  }

  /** The first candidate with id `k`. */
  function Find(s: seq<Candidate>, k: int): (r: Option<Candidate>)
    ensures r.Some? ==> r.value in s && r.value.productId == k
    ensures r.None? <==> k !in Ids(s)
  {
    if s == [] then None
    else
      var init, last := s[..|s| - 1], s[|s| - 1];
      assert s == init + [last];
      assert Ids(s) == Ids(init) + [last.productId];
      var r := Find(init, k);
      if r.Some? then r else if last.productId == k then Some(last) else None
  }

  /**
   * Reference entry for product `k`, read off the two candidate lists: blended and marked
   * hybrid when both recommend it, otherwise weighted by the one list that does.
   */
  function Expected(collab: seq<Candidate>, content: seq<Candidate>, k: int): Recommendation
    requires k in Ids(collab) || k in Ids(content)
  {
    match Find(collab, k)
    case Some(c) =>
      (match Find(content, k)
       case Some(d) => Recommendation(c.product, c.score * CollaborativeWeight + d.score * ContentWeight, Hybrid)
       case None => Recommendation(c.product, c.score * CollaborativeWeight, Collaborative))
    case None =>
      var d := Find(content, k).value;
      Recommendation(d.product, d.score * ContentWeight, ContentBased)
  }

  /** The reference merge: one entry per recommended id, in first-recommendation order. */
  function MergedRef(collab: seq<Candidate>, content: seq<Candidate>): seq<Recommendation> {
    var ks := Dedup(Ids(collab) + Ids(content));
    DedupIndex(Ids(collab) + Ids(content));
    seq(|ks|, i requires 0 <= i < |ks| => Expected(collab, content, ks[i]))
  }

  lemma {:induction false} CollaborativeTableSpec(collab: seq<Candidate>)
    requires DistinctBy(collab, CandidateId)
    ensures CollaborativeTable(collab).keys == Dedup(Ids(collab))
    ensures forall k :: k in CollaborativeTable(collab).entries ==>
              k in Ids(collab) && CollaborativeTable(collab).entries[k] == Expected(collab, [], k)
  {
    if collab != [] {
      var init, c := collab[..|collab| - 1], collab[|collab| - 1];
      assert collab == init + [c];
      assert Ids(collab) == Ids(init) + [c.productId];
      assert DistinctBy(init, CandidateId);
      CollaborativeTableSpec(init);
      assert c.productId !in Ids(init) by {
        forall j | 0 <= j < |init| ensures Ids(init)[j] != c.productId {
          assert collab[j] == init[j];
        }
      }
      var t := CollaborativeTable(collab);
      forall k | k in t.entries ensures k in Ids(collab) && t.entries[k] == Expected(collab, [], k) {
        if k != c.productId {
          assert Find(collab, k) == Find(init, k);
        }
      }
    }
  }

  lemma DistinctLast(s: seq<Candidate>)
    requires s != [] && DistinctBy(s, CandidateId)
    ensures s[|s| - 1].productId !in Ids(s[..|s| - 1])
  {
    var init := s[..|s| - 1];
    forall j | 0 <= j < |init| ensures Ids(init)[j] != s[|s| - 1].productId {
      assert s[j] == init[j];
    }
  }

  lemma {:induction false} MergeTableKeys(collab: seq<Candidate>, content: seq<Candidate>)
    requires DistinctBy(collab, CandidateId)
    ensures MergeTable(collab, content).keys == Dedup(Ids(collab) + Ids(content))
  {
    if content == [] {
      CollaborativeTableSpec(collab);
      assert Ids(collab) + Ids(content) == Ids(collab);
    } else {
      var init, d := content[..|content| - 1], content[|content| - 1];
      assert Ids(content) == Ids(init) + [d.productId];
      assert Ids(collab) + Ids(content) == (Ids(collab) + Ids(init)) + [d.productId];
      MergeTableKeys(collab, init);
      DedupSpec(Ids(collab) + Ids(init));
    }
  }

  lemma {:induction false} MergeTableEntries(collab: seq<Candidate>, content: seq<Candidate>)
    requires DistinctBy(collab, CandidateId) && DistinctBy(content, CandidateId)
    ensures forall k :: k in MergeTable(collab, content).entries ==>
              (k in Ids(collab) || k in Ids(content))
              && MergeTable(collab, content).entries[k] == Expected(collab, content, k)
  {
    if content == [] {
      CollaborativeTableSpec(collab);
    } else {
      var init, d := content[..|content| - 1], content[|content| - 1];
      assert Ids(content) == Ids(init) + [d.productId];
      assert DistinctBy(init, CandidateId);
      MergeTableEntries(collab, init);
      DistinctLast(content);
      var t := MergeTable(collab, content);
      forall k | k in t.entries ensures (k in Ids(collab) || k in Ids(content)) && t.entries[k] == Expected(collab, content, k) {
        if k != d.productId {
          OldKeyEntry(collab, content, k);
        } else {
          NewKeyEntry(collab, content);
        }
      }
    }
  }

  /** A content candidate leaves the other keys' entries, and their expected entries, alone. */
  lemma OldKeyEntry(collab: seq<Candidate>, content: seq<Candidate>, k: int)
    requires content != [] && k != content[|content| - 1].productId
    requires k in MergeTable(collab, content).entries
    requires var init := content[..|content| - 1];
             k in MergeTable(collab, init).entries
             && (k in Ids(collab) || k in Ids(init))
             && MergeTable(collab, init).entries[k] == Expected(collab, init, k)
    ensures (k in Ids(collab) || k in Ids(content))
            && MergeTable(collab, content).entries[k] == Expected(collab, content, k)
  {
    var init, d := content[..|content| - 1], content[|content| - 1];
    assert Ids(content) == Ids(init) + [d.productId];
    assert Find(content, k) == Find(init, k);
  }

  /** The entry of the last content candidate's key is its expected blended entry. */
  lemma NewKeyEntry(collab: seq<Candidate>, content: seq<Candidate>)
    requires content != []
    requires DistinctBy(collab, CandidateId) && DistinctBy(content, CandidateId)
    requires var init := content[..|content| - 1];
             forall k :: k in MergeTable(collab, init).entries ==>
               (k in Ids(collab) || k in Ids(init)) && MergeTable(collab, init).entries[k] == Expected(collab, init, k)
    ensures var k := content[|content| - 1].productId;
            (k in Ids(collab) || k in Ids(content))
            && MergeTable(collab, content).entries[k] == Expected(collab, content, k)
  {
    var init, d := content[..|content| - 1], content[|content| - 1];
    var k := d.productId;
    assert Ids(content) == Ids(init) + [d.productId];
    DistinctLast(content);
    assert Find(init, k) == None;
    assert Find(content, k) == Some(d);
    MergeTableKeys(collab, init);
    DedupSpec(Ids(collab) + Ids(init));
    assert k in MergeTable(collab, init).entries <==> k in Ids(collab);
  }

  /**
   * When neither list repeats an id (as both scorers guarantee), the dict merge equals the
   * reference: one entry per recommended id, weighted 0.7/0.3 and tagged by which lists
   * recommend it.
   */
  lemma MergedIsReference(collab: seq<Candidate>, content: seq<Candidate>)
    requires DistinctBy(collab, CandidateId) && DistinctBy(content, CandidateId)
    ensures Merged(collab, content) == MergedRef(collab, content)
  {
    MergeTableKeys(collab, content);
    MergeTableEntries(collab, content);
    DedupSpec(Ids(collab) + Ids(content));
  }

  /**
   * Properties of the reference merge: every entry is the expected entry of a recommended id,
   * every recommended id has its entry, and, when candidates carry their own product, no
   * product appears twice.
   */
  lemma MergedRefSpec(collab: seq<Candidate>, content: seq<Candidate>)
    ensures forall r :: r in MergedRef(collab, content) ==>
              exists k :: (k in Ids(collab) || k in Ids(content)) && r == Expected(collab, content, k)
    ensures forall k :: k in Ids(collab) || k in Ids(content) ==> Expected(collab, content, k) in MergedRef(collab, content)
    ensures forall r :: r in MergedRef(collab, content) ==> exists c :: c in collab + content && r.product == c.product
    ensures (forall c :: c in collab + content ==> c.product.id == c.productId) ==>
              DistinctBy(MergedRef(collab, content), RecProductId)
  {
    var ks := Dedup(Ids(collab) + Ids(content));
    var r := MergedRef(collab, content);
    DedupSpec(Ids(collab) + Ids(content));
    forall x | x in r ensures exists k :: (k in Ids(collab) || k in Ids(content)) && x == Expected(collab, content, k) {
      var i :| 0 <= i < |r| && r[i] == x;
      assert ks[i] in ks;
    }
    forall x | x in r ensures exists c :: c in collab + content && x.product == c.product {
      var i :| 0 <= i < |r| && r[i] == x;
      assert ks[i] in ks;
      var f := Find(collab, ks[i]);
      if f.None? {
        assert Find(content, ks[i]).value in collab + content;
      } else {
        assert f.value in collab + content;
      }
    }
    forall k | k in Ids(collab) || k in Ids(content) ensures Expected(collab, content, k) in r {
      assert k in Ids(collab) + Ids(content);
      var i :| 0 <= i < |ks| && ks[i] == k;
      assert r[i] == Expected(collab, content, k);
    }
    if forall c :: c in collab + content ==> c.product.id == c.productId {
      forall k | k in Ids(collab) || k in Ids(content) ensures Expected(collab, content, k).product.id == k {
        var f := Find(collab, k);
        if f.None? {
          assert Find(content, k).value in collab + content;
        } else {
          assert f.value in collab + content;
        }
      }
      forall i, j | 0 <= i < j < |r| ensures RecProductId(r[i]) != RecProductId(r[j]) {
        assert ks[i] in ks && ks[j] in ks;
      }
    }
  }

  /** Entries are tagged hybrid exactly when both lists recommend the product. */
  lemma ExpectedTag(collab: seq<Candidate>, content: seq<Candidate>, k: int)
    requires k in Ids(collab) || k in Ids(content)
    ensures Expected(collab, content, k).algorithmType == Hybrid <==> k in Ids(collab) && k in Ids(content)
    ensures Expected(collab, content, k).algorithmType == Collaborative <==> k in Ids(collab) && k !in Ids(content)
    ensures Expected(collab, content, k).algorithmType == ContentBased <==> k !in Ids(collab) && k in Ids(content)
  {
  }

  /**
   * The blended list is sorted by score, at most `limit` long when `limit` is non-negative,
   * and nothing left out scores strictly higher than something kept.
   */
  lemma BlendSpec(collab: seq<Candidate>, content: seq<Candidate>, limit: int)
    ensures SortedDesc(Blend(collab, content, limit), RecScore)
    ensures 0 <= limit ==> |Blend(collab, content, limit)| <= limit
    ensures forall x :: x in Blend(collab, content, limit) ==> x in Merged(collab, content)
    ensures forall x, y :: x in Blend(collab, content, limit) && y in Merged(collab, content) && y.score > x.score ==>
              y in Blend(collab, content, limit)
  {
    var merged := Merged(collab, content);
    var sorted := SortDesc(merged, RecScore);
    var cut := Take(sorted, limit);
    SortDescMembers(merged, RecScore);
    SortedPrefixTop(sorted, RecScore, |cut|);
    assert SortedDesc(cut, RecScore);
    assert forall x :: x in cut ==> x in sorted;
  }

  /** The first dict loop: every collaborative candidate at weight 0.7. */
  method CollaborativePass(collaborativeRecs: seq<Candidate>) returns (keys: seq<int>, allRecs: map<int, Recommendation>)
    ensures Table(keys, allRecs) == CollaborativeTable(collaborativeRecs)
  {
    keys, allRecs := [], map[];
    for i := 0 to |collaborativeRecs|
      invariant Table(keys, allRecs) == CollaborativeTable(collaborativeRecs[..i])
    {
      var rec := collaborativeRecs[i];
      assert collaborativeRecs[..i + 1][..i] == collaborativeRecs[..i] && collaborativeRecs[..i + 1][i] == rec;
      assert CollaborativeTable(collaborativeRecs[..i + 1]) == PutCollaborative(Table(keys, allRecs), rec);
      if rec.productId !in allRecs {
        keys := keys + [rec.productId];
      }
      allRecs := allRecs[rec.productId := Recommendation(rec.product, rec.score * CollaborativeWeight, Collaborative)];
    }
    assert collaborativeRecs[..|collaborativeRecs|] == collaborativeRecs;
  }

  lemma MergeTablePrefix(collab: seq<Candidate>, content: seq<Candidate>, i: nat)
    requires i < |content|
    ensures MergeTable(collab, content[..i + 1]) == PutContent(MergeTable(collab, content[..i]), content[i])
  {
    assert content[..i + 1][..i] == content[..i];
  }

  /** One step of the second loop: add 0.3 times the score to an existing entry, or create it. */
  method AddContent(keys0: seq<int>, allRecs0: map<int, Recommendation>, rec: Candidate)
    returns (keys: seq<int>, allRecs: map<int, Recommendation>)
    ensures Table(keys, allRecs) == PutContent(Table(keys0, allRecs0), rec)
  {
    keys, allRecs := keys0, allRecs0;
    if rec.productId in allRecs {
      var e := allRecs[rec.productId];
      allRecs := allRecs[rec.productId := Recommendation(e.product, e.score + rec.score * ContentWeight, Hybrid)];
    } else {
      keys := keys + [rec.productId];
      allRecs := allRecs[rec.productId := Recommendation(rec.product, rec.score * ContentWeight, ContentBased)];
    }
  }

  /** The second dict loop: content candidates at weight 0.3, summed into existing entries. */
  method ContentPass(keys0: seq<int>, allRecs0: map<int, Recommendation>,
                     collaborativeRecs: seq<Candidate>, contentRecs: seq<Candidate>)
    returns (keys: seq<int>, allRecs: map<int, Recommendation>)
    requires Table(keys0, allRecs0) == CollaborativeTable(collaborativeRecs)
    ensures Table(keys, allRecs) == MergeTable(collaborativeRecs, contentRecs)
  {
    keys, allRecs := keys0, allRecs0;
    assert contentRecs[..0] == [];
    for i := 0 to |contentRecs|
      invariant Table(keys, allRecs) == MergeTable(collaborativeRecs, contentRecs[..i])
    {
      MergeTablePrefix(collaborativeRecs, contentRecs, i);
      keys, allRecs := AddContent(keys, allRecs, contentRecs[i]);
    }
    assert contentRecs[..|contentRecs|] == contentRecs;
  }

  /** The dict loops of `get_recommendations` followed by the sort and the cut. */
  method Combine(collaborativeRecs: seq<Candidate>, contentRecs: seq<Candidate>, limit: int)
    returns (recs: seq<Recommendation>)
    ensures recs == Blend(collaborativeRecs, contentRecs, limit)
  {
    var keys, allRecs := CollaborativePass(collaborativeRecs);
    keys, allRecs := ContentPass(keys, allRecs, collaborativeRecs, contentRecs);
    // Rank by blended score and cut to the limit.
    recs := Take(SortDesc(Values(Table(keys, allRecs)), RecScore), limit);
  }
}
