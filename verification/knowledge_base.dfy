/**
 * Flattening of the chatbot's nested knowledge base: a depth-first walk over decoded JSON
 * that collects every question/answer object together with the path that leads to it.
 */
module KnowledgeBase {
  import opened Wrappers

  /** A decoded JSON value; an object keeps its items in document order. */
  datatype Json =
    | JNull
    | JBool(b: bool)
    | JNum(n: real)
    | JStr(s: string)
    | JArr(items: seq<Json>)
    | JObj(fields: seq<(string, Json)>)

  /** `key in obj` */
  predicate Has(fields: seq<(string, Json)>, key: string) {
    exists i :: 0 <= i < |fields| && fields[i].0 == key
  }

  /** `obj[key]`, or `None` when the key is absent. */
  function Get(fields: seq<(string, Json)>, key: string): (r: Option<Json>)
    ensures r.Some? <==> Has(fields, key)
    ensures r.Some? ==> (key, r.value) in fields
  {
    if fields == [] then None
    else if fields[0].0 == key then Some(fields[0].1)
    else
      var r := Get(fields[1..], key);
      assert forall i :: 0 < i < |fields| ==> fields[i] == fields[1..][i - 1];
      assert Has(fields[1..], key) ==> Has(fields, key);
      r
  }

  /** An object holding both `"question"` and `"answer"`. */
  predicate IsQa(j: Json) {
    j.JObj? && Has(j.fields, "question") && Has(j.fields, "answer")
  }

  /** A flat knowledge-base entry; `text` is filled in later, when the texts are assembled. */
  datatype QaEntry = QaEntry(
    question: Json,
    answer: Json,
    category: string,
    keyPoints: Option<Json>,
    codeExample: Option<Json>,
    text: Option<string>)

  /** The entry a question/answer object at `path` yields; the optional keys are copied only when present. */
  function EntryOf(j: Json, path: string): (e: QaEntry)
    requires IsQa(j)
    ensures (("question", e.question) in j.fields) && (("answer", e.answer) in j.fields) && e.category == path
    ensures e.keyPoints.Some? <==> Has(j.fields, "key_points")
    ensures e.keyPoints.Some? ==> ("key_points", e.keyPoints.value) in j.fields
    ensures e.codeExample.Some? <==> Has(j.fields, "code_example")
    ensures e.codeExample.Some? ==> ("code_example", e.codeExample.value) in j.fields
    ensures e.text.None?
  {
    QaEntry(Get(j.fields, "question").value, Get(j.fields, "answer").value, path,
            Get(j.fields, "key_points"), Get(j.fields, "code_example"), None)
  }

  function Digit(d: nat): char
    requires d < 10
  {
    "0123456789"[d]
  }

  /** `str(n)` for a natural number. */
  function NatToString(n: nat): string
    decreases n
  {
    if n < 10 then [Digit(n)] else NatToString(n / 10) + [Digit(n % 10)]
  }

  /** `f"{path}.{key}" if path else key` */
  function ChildPath(path: string, key: string): string {
    if path != "" then path + "." + key else key
  }

  /** `f"{path}[{i}]"` */
  function IndexPath(path: string, i: nat): string {
    path + "[" + NatToString(i) + "]"
  }

  /**
   * `extract_qa_pairs(obj, path)`: the entries it appends, in order. A question/answer object
   * yields itself and is not entered; another object is walked value by value; a list
   * element by element; a scalar yields nothing.
   */
  function Extract(obj: Json, path: string): (r: seq<QaEntry>)
    ensures forall k :: 0 <= k < |r| ==> path <= r[k].category
    decreases obj, 1
  {
    if IsQa(obj) then [EntryOf(obj, path)]
    else match obj
      case JObj(fields) => ExtractFields(obj, 0, path)
      case JArr(items) => ExtractItems(obj, 0, path)
      case _ => []
  }

  function ExtractFields(obj: Json, i: nat, path: string): (r: seq<QaEntry>)
    requires obj.JObj? && i <= |obj.fields|
    ensures forall k :: 0 <= k < |r| ==> path <= r[k].category
    decreases obj, 0, |obj.fields| - i
  {
    if i == |obj.fields| then []
    else
      assert obj.fields[i] in obj.fields;
      Extract(obj.fields[i].1, ChildPath(path, obj.fields[i].0)) + ExtractFields(obj, i + 1, path)
  }

  function ExtractItems(obj: Json, i: nat, path: string): (r: seq<QaEntry>)
    requires obj.JArr? && i <= |obj.items|
    ensures forall k :: 0 <= k < |r| ==> path <= r[k].category
    decreases obj, 0, |obj.items| - i
  {
    if i == |obj.items| then []
    else
      assert obj.items[i] in obj.items;
      Extract(obj.items[i], IndexPath(path, i)) + ExtractItems(obj, i + 1, path)
  }

  /** One step down the tree: the `i`-th item of an object, or the `i`-th element of a list. */
  datatype Step = Member(i: nat) | Element(i: nat)

  /**
   * Follows `steps` from `obj`, building the path the source builds, and refuses to pass
   * through a question/answer object; yields the node reached and its path.
   */
  function Walk(obj: Json, steps: seq<Step>, path: string): Option<(Json, string)>
    decreases |steps|
  {
    if steps == [] then Some((obj, path))
    else if IsQa(obj) then None
    else match steps[0]
      case Member(i) =>
        if obj.JObj? && i < |obj.fields| then Walk(obj.fields[i].1, steps[1..], ChildPath(path, obj.fields[i].0))
        else None
      case Element(i) =>
        if obj.JArr? && i < |obj.items| then Walk(obj.items[i], steps[1..], IndexPath(path, i))
        else None
  }

  /** The entry found at the end of `steps`, when the walk succeeds and ends on a question/answer object. */
  function Found(obj: Json, steps: seq<Step>, path: string): Option<QaEntry> {
    match Walk(obj, steps, path)
    case Some((n, p)) => if IsQa(n) then Some(EntryOf(n, p)) else None
    case None => None
  }

  lemma {:induction false} FieldsContain(obj: Json, j: nat, i: nat, path: string)
    requires obj.JObj? && j <= i < |obj.fields|
    ensures forall e :: e in Extract(obj.fields[i].1, ChildPath(path, obj.fields[i].0)) ==> e in ExtractFields(obj, j, path)
    decreases i - j
  {
    var here := Extract(obj.fields[j].1, ChildPath(path, obj.fields[j].0));
    assert ExtractFields(obj, j, path) == here + ExtractFields(obj, j + 1, path);
    if j < i {
      FieldsContain(obj, j + 1, i, path);
    }
  }

  lemma {:induction false} ItemsContain(obj: Json, j: nat, i: nat, path: string)
    requires obj.JArr? && j <= i < |obj.items|
    ensures forall e :: e in Extract(obj.items[i], IndexPath(path, i)) ==> e in ExtractItems(obj, j, path)
    decreases i - j
  {
    if j < i {
      ItemsContain(obj, j + 1, i, path);
    }
  }

  /** Completeness: every question/answer object reachable without entering another one is extracted, with its path. */
  lemma {:induction false} ExtractComplete(obj: Json, steps: seq<Step>, path: string)
    requires Found(obj, steps, path).Some?
    ensures Found(obj, steps, path).value in Extract(obj, path)
    decreases |steps|
  {
    if steps != [] {
      match steps[0]
      case Member(i) =>
        var child, cp := obj.fields[i].1, ChildPath(path, obj.fields[i].0);
        assert Found(obj, steps, path) == Found(child, steps[1..], cp);
        ExtractComplete(child, steps[1..], cp);
        FieldsContain(obj, 0, i, path);
      case Element(i) =>
        var child, cp := obj.items[i], IndexPath(path, i);
        assert Found(obj, steps, path) == Found(child, steps[1..], cp);
        ExtractComplete(child, steps[1..], cp);
        ItemsContain(obj, 0, i, path);
    }
  }

  /** Soundness: every extracted entry is a question/answer object reachable that way, with the path to it. */
  lemma {:induction false} ExtractSound(obj: Json, path: string)
    ensures forall e :: e in Extract(obj, path) ==> exists steps :: Found(obj, steps, path) == Some(e)
    decreases obj, 1
  {
    if IsQa(obj) {
      assert Found(obj, [], path) == Some(EntryOf(obj, path));
    } else if obj.JObj? {
      FieldsSound(obj, 0, path);
    } else if obj.JArr? {
      ItemsSound(obj, 0, path);
    }
  }

  lemma {:induction false} FieldsSound(obj: Json, i: nat, path: string)
    requires obj.JObj? && !IsQa(obj) && i <= |obj.fields|
    ensures forall e :: e in ExtractFields(obj, i, path) ==> exists steps :: Found(obj, steps, path) == Some(e)
    decreases obj, 0, |obj.fields| - i
  {
    if i < |obj.fields| {
      assert obj.fields[i] in obj.fields;
      var child, cp := obj.fields[i].1, ChildPath(path, obj.fields[i].0);
      ExtractSound(child, cp);
      FieldsSound(obj, i + 1, path);
      forall e | e in Extract(child, cp) ensures exists steps :: Found(obj, steps, path) == Some(e) {
        var st :| Found(child, st, cp) == Some(e);
        var steps := [Member(i)] + st;
        assert steps[1..] == st;
        assert Found(obj, steps, path) == Found(child, st, cp);
      }
    }
  }

  lemma {:induction false} ItemsSound(obj: Json, i: nat, path: string)
    requires obj.JArr? && !IsQa(obj) && i <= |obj.items|
    ensures forall e :: e in ExtractItems(obj, i, path) ==> exists steps :: Found(obj, steps, path) == Some(e)
    decreases obj, 0, |obj.items| - i
  {
    if i < |obj.items| {
      assert obj.items[i] in obj.items;
      var child, cp := obj.items[i], IndexPath(path, i);
      ExtractSound(child, cp);
      ItemsSound(obj, i + 1, path);
      forall e | e in Extract(child, cp) ensures exists steps :: Found(obj, steps, path) == Some(e) {
        var st :| Found(child, st, cp) == Some(e);
        var steps := [Element(i)] + st;
        assert steps[1..] == st;
        assert Found(obj, steps, path) == Found(child, st, cp);
      }
    }
  }

  /** A question/answer object yields exactly one entry, and nothing below it is visited. */
  lemma QaIsLeaf(obj: Json, path: string)
    requires IsQa(obj)
    ensures Extract(obj, path) == [EntryOf(obj, path)]
    ensures forall steps :: steps != [] ==> Walk(obj, steps, path).None?
  {
  }

  /** Scalars contribute nothing. */
  lemma ScalarsAreEmpty(obj: Json, path: string)
    requires !obj.JObj? && !obj.JArr?
    ensures Extract(obj, path) == []
  {
  }

  /** `for item in nested_kb`: a list yields its elements, a dict its keys, a string its characters. */
  function TopLevelItems(kb: Json): Result<seq<Json>> {
    match kb
    case JArr(items) => Ok(items)
    case JObj(fields) => Ok(seq(|fields|, i requires 0 <= i < |fields| => JStr(fields[i].0)))
    case JStr(s) => Ok(seq(|s|, i requires 0 <= i < |s| => JStr([s[i]])))
    case _ => Err(TypeError)
  }

  /**
   * The category records the way down from the top-level item: a pair under key `python`,
   * as the element 0 of its list, is filed as `python[0]`.
   */
  lemma NestedCategory()
    ensures var qa := JObj([("question", JStr("q")), ("answer", JStr("a"))]);
            Flatten(JArr([JObj([("python", JArr([qa]))])]))
              == Ok([QaEntry(JStr("q"), JStr("a"), "python[0]", None, None, None)])
  {
    var qa := JObj([("question", JStr("q")), ("answer", JStr("a"))]);
    var list := JArr([qa]);
    var top := JObj([("python", list)]);
    assert qa.fields[0].0 == "question" && qa.fields[1].0 == "answer";
    assert !Has(qa.fields, "key_points") && !Has(qa.fields, "code_example");
    assert qa.fields[1..][0].0 == "answer";
    assert Get(qa.fields, "answer") == Some(JStr("a"));
    assert EntryOf(qa, "python[0]") == QaEntry(JStr("q"), JStr("a"), "python[0]", None, None, None);
    assert NatToString(0) == "0";
    assert IndexPath("python", 0) == "python[0]";
    assert ChildPath("", "python") == "python";
    assert Extract(qa, "python[0]") == [QaEntry(JStr("q"), JStr("a"), "python[0]", None, None, None)];
    assert ExtractItems(list, 1, "python") == [];
    assert Extract(list, "python") == ExtractItems(list, 0, "python");
    assert !Has(top.fields, "question");
    assert ExtractFields(top, 1, "") == [];
    assert Extract(top, "") == ExtractFields(top, 0, "");
    assert [top][..0] == [];
    assert FlattenItems([top]) == Extract(top, "");
    assert Extract(top, "") == [QaEntry(JStr("q"), JStr("a"), "python[0]", None, None, None)];
    assert TopLevelItems(JArr([top])) == Ok([top]);
    assert Flatten(JArr([top])) == Ok(FlattenItems([top]));
  }

  /** Every top-level item walked with an empty path, in order. */
  function FlattenItems(items: seq<Json>): seq<QaEntry> {
    if items == [] then []
    else FlattenItems(items[..|items| - 1]) + Extract(items[|items| - 1], "")
  }

  function Flatten(kb: Json): Result<seq<QaEntry>> {
    match TopLevelItems(kb)
    case Ok(items) => Ok(FlattenItems(items))
    case Err(e) => Err(e)
  }

  /** Every flattened entry is found by walking from some top-level item with an empty starting path. */
  lemma {:induction false} FlattenItemsSound(items: seq<Json>)
    ensures forall e :: e in FlattenItems(items) ==>
              exists j, steps :: 0 <= j < |items| && Found(items[j], steps, "") == Some(e)
  {
    if items != [] {
      var init, last := items[..|items| - 1], items[|items| - 1];
      FlattenItemsSound(init);
      ExtractSound(last, "");
      forall e | e in FlattenItems(items)
        ensures exists j, steps :: 0 <= j < |items| && Found(items[j], steps, "") == Some(e)
      {
        if e in FlattenItems(init) {
          var j, steps :| 0 <= j < |init| && Found(init[j], steps, "") == Some(e);
          assert items[j] == init[j];
        } else {
          assert e in Extract(last, "");
          var steps :| Found(last, steps, "") == Some(e);
          assert Found(items[|items| - 1], steps, "") == Some(e);
        }
      }
    }
  }

  /** Every entry found by walking from a top-level item with an empty starting path is flattened. */
  lemma {:induction false} FlattenItemsComplete(items: seq<Json>, j: int, steps: seq<Step>)
    requires 0 <= j < |items| && Found(items[j], steps, "").Some?
    ensures Found(items[j], steps, "").value in FlattenItems(items)
  {
    var init := items[..|items| - 1];
    if j < |init| {
      assert init[j] == items[j];
      FlattenItemsComplete(init, j, steps);
    } else {
      ExtractComplete(items[j], steps, "");
    }
  }

  /** A top-level dict or string has no nested objects to visit: the result is empty. */
  lemma FlattenOfNonList(kb: Json)
    requires kb.JObj? || kb.JStr?
    ensures Flatten(kb) == Ok([])
  {
    var items := TopLevelItems(kb).value;
    forall i | 0 <= i <= |items| ensures FlattenItems(items[..i]) == [] {
      FlattenStrings(items[..i]);
    }
    assert items[..|items|] == items;
  }

  lemma {:induction false} FlattenStrings(items: seq<Json>)
    requires forall j :: 0 <= j < |items| ==> items[j].JStr?
    ensures FlattenItems(items) == []
  {
    if items != [] {
      FlattenStrings(items[..|items| - 1]);
    }
  }

  /** `flatten_knowledge_base`: walks every top-level item and collects what the walk appends. */
  method FlattenKnowledgeBase(nestedKb: Json) returns (r: Result<seq<QaEntry>>)
    ensures r == Flatten(nestedKb)
  {
    var items :- TopLevelItems(nestedKb);
    var flatKb: seq<QaEntry> := [];
    for i := 0 to |items|
      invariant flatKb == FlattenItems(items[..i])
    {
      assert items[..i + 1][..i] == items[..i];
      flatKb := flatKb + Extract(items[i], "");
    }
    assert items[..|items|] == items;
    r := Ok(flatKb);
  }
}
