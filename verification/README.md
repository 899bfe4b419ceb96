# Hybrid product recommender and knowledge-base flattener, modelled in Dafny

This project models two pieces of a small e-commerce and chatbot system.

**The recommendation engine** (`RecommendationEngine`) ranks products for a user. It blends two scorers:

- **Collaborative filtering.**
  - It finds the other users whose product sets have a Jaccard similarity above 0.1 with the user's.
  - It takes the 10 most similar of them.
  - It adds up their interactions with products the user does not know. Each interaction is weighted 3 for a purchase, 2 for a like and 1 for a view. A truthy rating scales it by rating/5.
  - It returns the best `limit` products.
  - A user without interactions gets the most-interacted-with products instead.
- **Content-based filtering.**
  - For every product the user liked or bought, it reads that product's row of a cached content-similarity matrix.
  - Every unknown product gets the best similarity it reaches above 0.1.
  - The matrix is rebuilt from the products' `category description` texts when it is missing or more than 3600 seconds old.

`get_recommendations` asks each scorer for `limit // 2` products. It weights collaborative scores by 0.7 and content scores by 0.3. It sums the two scores for a product both scorers name and tags it `hybrid`. It sorts by blended score and cuts the list to `limit`.

**The chatbot's knowledge-base loader** does two things:

- It flattens a nested JSON knowledge base into question/answer entries. Each entry is tagged with the dotted and indexed path it was found under, e.g. `python.basics[0]`.
- It builds the text each entry is indexed under: question, answer and key points joined by spaces.

## How it is modelled

| module | file | what it holds |
|---|---|---|
| `Wrappers` | wrappers.dfy | `Option`, `Result` and the two Python exceptions that can escape (`IndexError`, `TypeError`) |
| `Ranking` | ranking.dfy | `sorted(..., reverse=True)` as a stable descending insertion sort, the slice `[:n]` including negative `n`, and dict key order |
| `Records` | records.dfy | interactions, products and candidates; the database as two in-memory tables; the queries the engine issues |
| `ScoreTable` | score_table.dfy | the `{product_id: score}` dicts the scorers fill, with `+=` or `max`, as insertion-ordered keys plus a map; the formatting loop; SQL `LIMIT` |
| `Similarity` | similarity.dfy | Jaccard similarity and `_find_similar_users` |
| `CollaborativeFiltering` | collaborative.dfy | `_get_collaborative_recommendations` and `_get_popular_products` |
| `ContentFiltering` | content.dfy | liked products and the scoring loop of `_get_content_based_recommendations` |
| `HybridMerge` | hybrid.dfy | the weighted merge and ranking in `get_recommendations` |
| `Engine` | engine.dfy | the `RecommendationEngine` class with its two cache fields |
| `KnowledgeBase` | knowledge_base.dfy | JSON values, `extract_qa_pairs` and `flatten_knowledge_base` |
| `KbText` | kb_text.dfy | the text-assembly loop of `load_kb_embeddings` |

**Methods and specifications.**

- Every loop of the source is a Dafny method with the same loop, with one exception. The two loops inside the recursive `extract_qa_pairs` (over a dict's items and over a list's elements) are the recursive functions `KnowledgeBase.ExtractFields` and `KnowledgeBase.ExtractItems`, mutually recursive with `KnowledgeBase.Extract`.
- Each method is proved equal to a specification function. The function is written independently, usually "by last element" over the input.
- The properties the system promises are proved as lemmas about those functions: sortedness, distinct ids, bounds, provenance, threshold, top-k and error conditions.
- Methods that only compute are module-level methods. The class keeps the methods that read or write the cache fields (`content_similarity_matrix`, `last_update`).

**Exceptions.**

- Python exceptions that the modelled code itself raises on well-typed data are modelled as `Result` errors. Errors raised inside TF-IDF vectorising are not (see "Left out").
- The content scorer raises `IndexError` when it reads the matrix and some liked product's catalogue position has no row, or has a row longer than the catalogue. A shorter row raises nothing: the scan just stops early. Both cases arise when the catalogue changed while the cache was fresh.
- Text assembly raises `TypeError` when a question or answer is not a string, or when the key points cannot be joined.

**Numbers.**

- Python floats are modelled as mathematical reals.
- Python `//` by 2 coincides with Dafny's `/` on `int`, for negative limits too.
- A negative `limit` follows Python slicing (it counts from the end).
- In the popularity query, a negative `limit` follows SQLite's `LIMIT` (no limit).

## Model

| member | source | states |
|---|---|---|
| `Ranking.SortDesc` | Product_Recommendation/backend/recommendation_engine.py:147 | the sorted list is a permutation of the input and is in non-increasing score order |
| `Ranking.SortDescMembers` | Product_Recommendation/backend/recommendation_engine.py:147 | sorting keeps the length and exactly the elements of the input |
| `Ranking.SortDescStable` | Product_Recommendation/backend/recommendation_engine.py:52 | Python's sort is stable: elements with equal score keep their input order |
| `Ranking.SortDescOfSorted` | Product_Recommendation/backend/recommendation_engine.py:52 | an already ordered list is returned unchanged |
| `Ranking.SortDescDistinctBy` | Product_Recommendation/backend/recommendation_engine.py:111 | sorting neither merges nor duplicates ids: distinct ids stay distinct |
| `Ranking.Take` | Product_Recommendation/backend/recommendation_engine.py:111 | `s[:n]` is a prefix of `s` of length `min(n, len(s))`; a negative `n` drops that many elements from the end |
| `Ranking.DedupSpec` | Product_Recommendation/backend/recommendation_engine.py:130-134 | the dict's keys: every value of the input, each once, nothing else |
| `Ranking.DedupOrder` | Product_Recommendation/backend/recommendation_engine.py:130-134 | the dict's keys keep insertion order: a key listed before another first occurs earlier in the input |
| `Ranking.SortedPrefixTop` | Product_Recommendation/backend/recommendation_engine.py:52 | cutting a sorted list keeps its best elements: nothing left out scores strictly higher than something kept |
| `Records.Where` | Product_Recommendation/backend/recommendation_engine.py:66-68 | a filtered query returns a row exactly when it is in the table and satisfies the filter, and no more rows than the table has |
| `Records.WhereMultiplicity` | Product_Recommendation/backend/recommendation_engine.py:66-68 | a filtered query keeps every copy of a row that satisfies the filter and none of one that does not, so identical interactions are each counted |
| `Records.Lookup` | Product_Recommendation/backend/recommendation_engine.py:112 | `.first()` of the id query: a catalogue product with that id, or none exists |
| `Records.PositionOf` | Product_Recommendation/backend/recommendation_engine.py:175 | `product_id_to_index`: an index in the catalogue holding that id, or the id is absent |
| `ScoreTable.SumStep` | Product_Recommendation/backend/recommendation_engine.py:104-107 | one `+=`-or-insert step keeps the dict equal to the per-key sums over the pairs seen, with keys in first-seen order |
| `ScoreTable.MaxStep` | Product_Recommendation/backend/recommendation_engine.py:196-199 | one `max`-or-insert step keeps the dict equal to the per-key maxima over the pairs seen |
| `ScoreTable.SumTableItems` | Product_Recommendation/backend/recommendation_engine.py:111 | `.items()` of a summing dict is the reference table of totals |
| `ScoreTable.MaxTableItems` | Product_Recommendation/backend/recommendation_engine.py:203 | `.items()` of a max dict is the reference table of maxima |
| `ScoreTable.TotalsSpec` | Product_Recommendation/backend/recommendation_engine.py:81-107 | the totals table has each product once, every scored product, and each with the sum of its contributions |
| `ScoreTable.MaximaSpec` | Product_Recommendation/backend/recommendation_engine.py:178-199 | the maxima table has each product once, every scored product, and each with its best similarity |
| `ScoreTable.BestIsMax` | Product_Recommendation/backend/recommendation_engine.py:197 | the kept score is at least every similarity seen for the product and equals one of them |
| `ScoreTable.TotalAppend` | Product_Recommendation/backend/recommendation_engine.py:104-107 | a product's total over two batches of contributions is the sum of its totals over each |
| `ScoreTable.AttachSpec` | Product_Recommendation/backend/recommendation_engine.py:110-120 | formatting keeps order and ids, drops exactly the ids without a product, invents nothing, and preserves sortedness and distinct ids |
| `ScoreTable.Format` | Product_Recommendation/backend/recommendation_engine.py:110-120 | the formatting loop yields the reference list: at most one candidate per ranked pair, each with its looked-up product, sorted and distinct when the ranking is |
| `ScoreTable.SqlLimit` | Product_Recommendation/backend/recommendation_engine.py:251 | `LIMIT n` keeps a prefix of at most `n` rows, and all rows when `n` is negative |
| `ScoreTable.TopSpec` | Product_Recommendation/backend/recommendation_engine.py:111-120 | the formatted top-`m` list is sorted, distinct, at most `m` long, drawn from the ranking, and misses no existing product that scores strictly higher than one it contains |
| `Similarity.Jaccard` | Product_Recommendation/backend/recommendation_engine.py:140-142 | intersection over union of two product sets (0 for two empty sets): never negative, and 0 exactly when the sets share no product |
| `Similarity.JaccardBounds` | Product_Recommendation/backend/recommendation_engine.py:140-142 | the similarity lies in [0, 1] |
| `Similarity.JaccardSymmetric` | Product_Recommendation/backend/recommendation_engine.py:140-142 | the similarity does not depend on argument order |
| `Similarity.JaccardSelf` | Product_Recommendation/backend/recommendation_engine.py:140-142 | a non-empty product set is fully similar to itself |
| `Similarity.JaccardDisjoint` | Product_Recommendation/backend/recommendation_engine.py:140-145 | users with no product in common score 0 and never pass the 0.1 threshold |
| `Similarity.UserIdsSpec` | Product_Recommendation/backend/recommendation_engine.py:129-134 | a user gets a group exactly when they have at least one product |
| `Similarity.ScoredSpec` | Product_Recommendation/backend/recommendation_engine.py:137-145 | the thresholded list names each user once, each with its Jaccard score above 0.1, and every such user |
| `Similarity.SimilarUsersSpec` | Product_Recommendation/backend/recommendation_engine.py:122-147 | similar users are sorted by similarity, distinct, never the user themself, exactly the users with Jaccard above 0.1, each with that score |
| `Similarity.GroupByUser` | Product_Recommendation/backend/recommendation_engine.py:129-134 | the grouping loop lists each other user once, in first-seen order, with exactly the products they interacted with |
| `Similarity.FindSimilarUsers` | Product_Recommendation/backend/recommendation_engine.py:122-147 | the grouping and scoring loops compute the reference neighbour list, with all the properties above |
| `CollaborativeFiltering.TypeWeight` | Product_Recommendation/backend/recommendation_engine.py:93-99 | the type factor lies in [1, 3]; it is 3 exactly for a purchase and 2 exactly for a like, and 1 exactly for a view or a search |
| `CollaborativeFiltering.RatingFactor` | Product_Recommendation/backend/recommendation_engine.py:101-102 | no rating or a rating of 0 leaves the score alone; a truthy rating scales it by rating/5, which lies in [0, 1] for a rating in [0, 5] |
| `CollaborativeFiltering.Contribution` | Product_Recommendation/backend/recommendation_engine.py:93-102 | a neighbour with similarity 0 contributes nothing; with an unscaled rating an interaction contributes the similarity times its type factor |
| `CollaborativeFiltering.ContributionBounds` | Product_Recommendation/backend/recommendation_engine.py:93-102 | with a rating in [0, 5] an interaction adds between 0 and three times the similarity; an unrated view adds exactly the similarity |
| `CollaborativeFiltering.ZeroRatingIsNoRating` | Product_Recommendation/backend/recommendation_engine.py:101-102 | a rating of 0 is falsy and scales nothing, like a missing rating |
| `CollaborativeFiltering.TypeWeightOrder` | Product_Recommendation/backend/recommendation_engine.py:93-99 | a purchase weighs at least a like, a like at least a view, and a search (no branch) the same as a view |
| `CollaborativeFiltering.BaseScore` | Product_Recommendation/backend/recommendation_engine.py:93-102 | the if-chain computes the interaction's contribution |
| `CollaborativeFiltering.AddNeighbour` | Product_Recommendation/backend/recommendation_engine.py:89-107 | the inner loop keeps the dict equal to the per-product sums including this neighbour's contributions |
| `CollaborativeFiltering.CollabPairsSpec` | Product_Recommendation/backend/recommendation_engine.py:83-107 | a product is scored only through a neighbour's interaction with it, and never when the user knows it |
| `CollaborativeFiltering.CollabPairsComplete` | Product_Recommendation/backend/recommendation_engine.py:83-107 | every product a neighbour interacted with is scored, unless the user already knows it |
| `CollaborativeFiltering.GroupsSpec` | Product_Recommendation/backend/recommendation_engine.py:242-248 | the join and group-by yields each product once, exactly the products with interactions, each with its interaction count |
| `CollaborativeFiltering.PopularSpec` | Product_Recommendation/backend/recommendation_engine.py:239-263 | popular products are sorted by count, distinct, at most `limit`, scored by their interaction count, and no existing product with a higher count is left out |
| `CollaborativeFiltering.PopularProducts` | Product_Recommendation/backend/recommendation_engine.py:239-263 | the query and formatting loop compute the reference popularity list |
| `CollaborativeFiltering.CollaborativeSpec` | Product_Recommendation/backend/recommendation_engine.py:63-120 | for a user with history: sorted, distinct, at most `limit`, no known product, each scored by its neighbours' total, and no existing higher-scoring product left out; every product a retained neighbour interacted with that the user does not know is scored |
| `CollaborativeFiltering.CollaborativeShape` | Product_Recommendation/backend/recommendation_engine.py:63-120 | on both paths the result is sorted, distinct, at most `limit`, only existing unknown products with their catalogue record |
| `CollaborativeFiltering.CollaborativeRecommendations` | Product_Recommendation/backend/recommendation_engine.py:63-120 | the collaborative scorer computes the reference result, with the properties above |
| `CollaborativeFiltering.CollaborativeLoop` | Product_Recommendation/backend/recommendation_engine.py:70-120 | the popularity fallback, the neighbour loop over the top 10, and the formatting compute the reference result |
| `ContentFiltering.LikedSpec` | Product_Recommendation/backend/recommendation_engine.py:159-165 | the seeds are exactly the existing products the user liked or bought |
| `ContentFiltering.LikedProducts` | Product_Recommendation/backend/recommendation_engine.py:159-165 | the loop computes the reference seed list, in interaction order |
| `ContentFiltering.RowOf` | Product_Recommendation/backend/recommendation_engine.py:182-186 | when a seed's row is usable it is no longer than the catalogue |
| `ContentFiltering.RowPairsSpec` | Product_Recommendation/backend/recommendation_engine.py:188-199 | a row contributes exactly the unknown products with similarity above 0.1, with that similarity |
| `ContentFiltering.ContentPairsSound` | Product_Recommendation/backend/recommendation_engine.py:181-199 | every scored pair comes from some seed's row, is unknown and is above 0.1 |
| `ContentFiltering.ContentPairsComplete` | Product_Recommendation/backend/recommendation_engine.py:181-199 | every unknown product above 0.1 in some seed's row is scored |
| `ContentFiltering.Content` | Product_Recommendation/backend/recommendation_engine.py:173-212 | scoring fails, with `IndexError` only, exactly when some seed's row is unusable; a successful result is at most `limit` long |
| `ContentFiltering.ContentSpec` | Product_Recommendation/backend/recommendation_engine.py:173-212 | content results are sorted, distinct, at most `limit`, unknown, above 0.1, with their catalogue record and their table score, and no existing higher-scoring product is left out |
| `ContentFiltering.ContentTableBound` | Product_Recommendation/backend/recommendation_engine.py:195-199 | a product's content score is at least its similarity in every seed's row |
| `ContentFiltering.ContentTableAttained` | Product_Recommendation/backend/recommendation_engine.py:195-199 | a product's content score is its similarity in some seed's row |
| `ContentFiltering.ScanRow` | Product_Recommendation/backend/recommendation_engine.py:186-199 | the inner loop succeeds exactly when the row fits the catalogue, and then keeps the dict equal to the per-product maxima |
| `ContentFiltering.ScoreContent` | Product_Recommendation/backend/recommendation_engine.py:173-212 | the scoring loop computes the reference result, including the `IndexError` of a stale matrix |
| `HybridMerge.CollaborativeTable` | Product_Recommendation/backend/recommendation_engine.py:31-36 | after the first loop the dict's entries are exactly its keys |
| `HybridMerge.MergeTable` | Product_Recommendation/backend/recommendation_engine.py:28-49 | after both loops the dict's entries are exactly its keys |
| `HybridMerge.CollaborativeTableSpec` | Product_Recommendation/backend/recommendation_engine.py:31-36 | the first loop holds each collaborative product once, at 0.7 times its score, tagged collaborative |
| `HybridMerge.MergeTableKeys` | Product_Recommendation/backend/recommendation_engine.py:28-49 | the merged dict holds the collaborative ids, then the new content ids, each once |
| `HybridMerge.MergeTableEntries` | Product_Recommendation/backend/recommendation_engine.py:39-49 | each merged entry is 0.7·collaborative + 0.3·content with the matching tag |
| `HybridMerge.MergedIsReference` | Product_Recommendation/backend/recommendation_engine.py:28-49 | the dict's values are the independent per-product reference blend |
| `HybridMerge.MergedRefSpec` | Product_Recommendation/backend/recommendation_engine.py:28-49 | every named product is blended once; each blend's product comes from a candidate; blends name distinct products when every candidate carries its product's id |
| `HybridMerge.ExpectedTag` | Product_Recommendation/backend/recommendation_engine.py:35-48 | the tag is `hybrid` iff both scorers named the product, `collaborative` or `content_based` iff only that one did |
| `HybridMerge.Blend` | Product_Recommendation/backend/recommendation_engine.py:51-52 | the ranking is no longer than the merged entries, and at most `limit` long for a non-negative `limit` |
| `HybridMerge.BlendSpec` | Product_Recommendation/backend/recommendation_engine.py:52 | the ranking is sorted, at most `limit`, drawn from the merged entries, and no merged entry scoring higher is left out |
| `HybridMerge.CollaborativePass` | Product_Recommendation/backend/recommendation_engine.py:31-36 | the first loop builds the reference collaborative dict |
| `HybridMerge.AddContent` | Product_Recommendation/backend/recommendation_engine.py:40-49 | one content candidate adds 0.3 times its score to an existing entry and marks it hybrid, or creates a content-based entry |
| `HybridMerge.ContentPass` | Product_Recommendation/backend/recommendation_engine.py:39-49 | starting from the collaborative dict, the second loop builds the reference merged dict |
| `HybridMerge.Combine` | Product_Recommendation/backend/recommendation_engine.py:28-52 | the two dict loops, the sort and the cut compute the reference blend |
| `Engine.FeatureTexts` | Product_Recommendation/backend/recommendation_engine.py:228-231 | one feature text per catalogue product, the `i`-th being product `i`'s feature text |
| `Records.FeatureText` | Product_Recommendation/backend/recommendation_engine.py:230 | a product's feature text starts with its category and a space, and the rest is its description, or nothing when it has none |
| `Engine.ContentOutcome` | Product_Recommendation/backend/recommendation_engine.py:149-212 | content scoring's only error is `IndexError`, and a user without interactions or without existing liked products gets `[]` |
| `Engine.Recommend` | Product_Recommendation/backend/recommendation_engine.py:19-61 | recommending fails exactly when content scoring fails, and then with `IndexError`; a user whose content scoring never reads the matrix always gets a list |
| `Engine.ContentOutcomeSpec` | Product_Recommendation/backend/recommendation_engine.py:149-212 | a successful content result is sorted, distinct, at most `limit`, and only unknown existing products |
| `Engine.ContentOutcomeError` | Product_Recommendation/backend/recommendation_engine.py:181-189 | content scoring fails exactly when it reads the matrix and some liked product's row is missing or longer than the catalogue |
| `Engine.SquareMatrixNeverFails` | Product_Recommendation/backend/recommendation_engine.py:233-236 | a matrix that is square over the current catalogue, as a rebuild produces, never makes scoring fail |
| `Engine.StaleMatrixFails` | Product_Recommendation/backend/recommendation_engine.py:181-189 | a 1×1 matrix still cached after a second product was added makes scoring fail for a user who liked the new product |
| `Engine.RecommendSpec` | Product_Recommendation/backend/recommendation_engine.py:19-61 | recommendations are sorted by blended score, at most `limit`, one per product, only existing products the user has not interacted with |
| `Engine.SmallLimitIsEmpty` | Product_Recommendation/backend/recommendation_engine.py:22-25 | a limit of 0 or 1 gives each scorer `limit // 2 == 0` and so an empty result (or the content error) |
| `Engine.RecommendationEngine.Stale` | Product_Recommendation/backend/recommendation_engine.py:220-222 | the cache is stale when nothing is cached; once a matrix and a time stamp are cached, it is stale exactly when more than 3600 seconds old |
| `Engine.RecommendationEngine.constructor` | Product_Recommendation/backend/recommendation_engine.py:14-17 | a new engine has no matrix and no timestamp |
| `Engine.RecommendationEngine.UpdateContentSimilarityMatrix` | Product_Recommendation/backend/recommendation_engine.py:214-237 | a stale cache over a non-empty catalogue is rebuilt from the feature texts and stamped `now`; otherwise nothing changes; afterwards the cache is fresh whenever the catalogue is non-empty |
| `Engine.RecommendationEngine.ContentBasedRecommendations` | Product_Recommendation/backend/recommendation_engine.py:149-212 | no seeds: `[]` and the cache is untouched; otherwise the cache is refreshed and the result is content scoring over the cached matrix, sorted, distinct, bounded and unknown |
| `Engine.RecommendationEngine.GetRecommendations` | Product_Recommendation/backend/recommendation_engine.py:19-61 | the cache is untouched when content scoring does not read it; otherwise a stale cache is rebuilt from the current catalogue's feature texts and stamped `now`, and a fresh one is kept; the result is the reference blend over the matrix then cached; it is sorted, bounded, one per product, only existing unknown products; the content error propagates |
| `KnowledgeBase.Get` | Chatbot/backend/embedder.py:23-26 | `obj[key]` exists iff the key is present, and is a value stored under it |
| `KnowledgeBase.EntryOf` | Chatbot/backend/embedder.py:25-33 | an entry copies question and answer, takes the path as category, and copies each optional key's value exactly when the key is present |
| `KnowledgeBase.Extract` | Chatbot/backend/embedder.py:21-42 | every entry found from `path` has a category that extends `path` |
| `KnowledgeBase.ExtractFields` | Chatbot/backend/embedder.py:36-39 | every entry found in a dict's values from `path` has a category that extends `path` |
| `KnowledgeBase.ExtractItems` | Chatbot/backend/embedder.py:40-42 | every entry found in a list's elements from `path` has a category that extends `path` |
| `KnowledgeBase.QaIsLeaf` | Chatbot/backend/embedder.py:23-34 | a question/answer object yields only itself and is not descended into |
| `KnowledgeBase.ScalarsAreEmpty` | Chatbot/backend/embedder.py:21-42 | a scalar yields nothing |
| `KnowledgeBase.ExtractComplete` | Chatbot/backend/embedder.py:21-42 | every question/answer object reachable without passing through another one is extracted, with its path |
| `KnowledgeBase.ExtractSound` | Chatbot/backend/embedder.py:21-42 | every extracted entry is such a reachable object with its path |
| `KnowledgeBase.FieldsSound` | Chatbot/backend/embedder.py:36-39 | the dict branch extracts only reachable entries |
| `KnowledgeBase.ItemsSound` | Chatbot/backend/embedder.py:40-42 | the list branch extracts only reachable entries |
| `KnowledgeBase.NestedCategory` | Chatbot/backend/embedder.py:36-45 | a pair under key `python`, element 0 of its list, is filed under category `python[0]` |
| `KnowledgeBase.FlattenItemsSound` | Chatbot/backend/embedder.py:44-47 | every flattened entry is reachable from some top-level item with an empty starting path |
| `KnowledgeBase.FlattenItemsComplete` | Chatbot/backend/embedder.py:44-47 | every entry reachable from a top-level item is flattened |
| `KnowledgeBase.FlattenOfNonList` | Chatbot/backend/embedder.py:44-45 | a top-level dict or string is iterated as strings and flattens to nothing |
| `KnowledgeBase.FlattenKnowledgeBase` | Chatbot/backend/embedder.py:17-47 | the loop computes the reference flattening; a top-level number, boolean or null raises `TypeError` |
| `KbText.KeyPointStrings` | Chatbot/backend/embedder.py:64-65 | joining key points succeeds exactly for a string (its characters), a dict (its keys) or a list of strings (the strings, in order); anything else raises `TypeError` |
| `KbText.EntryText` | Chatbot/backend/embedder.py:62-65 | an entry's text exists exactly when question and answer are strings and any key points can be joined; it starts with question, space, answer, and is just that without key points; otherwise `TypeError` |
| `KbText.SplitJoin` | Chatbot/backend/embedder.py:65 | splitting a space join gives back the words when none contains a space |
| `KbText.TextSplitsIntoParts` | Chatbot/backend/embedder.py:62-65 | an entry's text splits back into question, answer and key points when none contains a space |
| `KbText.AssembledSpec` | Chatbot/backend/embedder.py:59-67 | assembly succeeds iff every entry has a text; then there is one text per entry, in order, stored in the entry, with other fields unchanged |
| `KbText.AssembleTexts` | Chatbot/backend/embedder.py:59-67 | the loop computes the reference texts and entries, raising `TypeError` at the first bad entry |
| `KbText.LoadKbTexts` | Chatbot/backend/embedder.py:57-67 | loading is flattening followed by text assembly, with either step's error propagated |

## Left out

- TF-IDF vectorising and cosine similarity are not modelled. The similarity matrix builder is a function parameter `similarity` of the engine's methods, so the `content_vectorizer` field is not a field of the model.
- `time.time()` is the parameter `now`.
- `Engine.RecommendationEngine.UpdateContentSimilarityMatrix`: `fit_transform` raises `ValueError` (empty vocabulary) when every feature text consists of stop words only, e.g. a one-product catalogue whose category is "Other" and whose description is missing. The `similarity` parameter always returns a matrix, so this error is not modelled.
- The SQLAlchemy session is replaced by two in-memory tables (`Database`).
  - Query results come in table order.
  - `ProductResponse.from_orm` is the product record itself.
  - Database errors are not modelled.
- In the popularity query, the order of products with equal interaction counts is not fixed by SQL. The model takes catalogue order.
- `CollaborativeFiltering.GroupsSpec`: counts are per product id. This matches the join because `Product.id` is the primary key; the model does not re-prove that key uniqueness.
- Python floats are modelled as reals. Rounding, NaN and infinities are not modelled.
- Concurrency is not modelled. The engine's cache fields are shared by all requests, and the model treats calls as sequential.
- `HybridMerge.MergedIsReference`: this lemma and the per-product statements built on it assume that each scorer names a product at most once. Both scorers guarantee this (`CollaborativeSpec`, `ContentSpec`). `Combine` itself is proved for all inputs.
- `KnowledgeBase.ExtractSound`: this lemma and `ExtractComplete` characterise which entries are extracted. They do not state how many times each is extracted, nor the depth-first order of the entries. Stating the count would need a proof that distinct step paths lead to distinct positions of the result, and stating the order would need an order on step paths; neither is modelled.
- JSON objects are sequences of key/value pairs:
  - Lookup takes the first match.
  - Iteration visits every pair.
  - Duplicate keys in the JSON text, which Python's parser collapses, are not modelled.
- `KbText.TextSplitsIntoParts`: the text is only shown to split back into its parts when the parts contain no spaces.
- The rest of `load_kb_embeddings` is not part of this model:
  - opening and parsing the file: the parsed JSON is the input;
  - the TF-IDF matrix;
  - the `embedding` field.
- The FastAPI services, the retriever, the Groq client, the seed data, the ORM models and the schemas are not part of this model.
