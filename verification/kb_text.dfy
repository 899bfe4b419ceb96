/**
 * The text each knowledge-base entry is indexed under: question, answer and, when present,
 * the key points, joined by single spaces.
 */
module KbText {
  import opened Wrappers
  import opened KnowledgeBase

  /** `" ".join(ss)` */
  function Join(ss: seq<string>): string {
    if ss == [] then ""
    else if |ss| == 1 then ss[0]
    else Join(ss[..|ss| - 1]) + " " + ss[|ss| - 1]
  }

  /** `s.split(" ")`: the pieces between single spaces, empty pieces included. */
  function Split(s: string): (r: seq<string>)
    ensures |r| >= 1
  {
    if s == [] then [""]
    else
      var init := Split(s[..|s| - 1]);
      var c := s[|s| - 1];
      if c == ' ' then init + [""] else init[..|init| - 1] + [init[|init| - 1] + [c]]
  }

  predicate NoSpace(w: string) {
    forall i :: 0 <= i < |w| ==> w[i] != ' '
  }

  lemma {:induction false} SplitWord(w: string)
    requires NoSpace(w)
    ensures Split(w) == [w]
  {
    if w != [] {
      var init := w[..|w| - 1];
      SplitWord(init);
      assert init + [w[|w| - 1]] == w;
    }
  }

  lemma {:induction false} SplitAfterSpace(s: string, w: string)
    requires NoSpace(w)
    ensures Split(s + " " + w) == Split(s) + [w]
  {
    if w == [] {
      assert s + " " + w == s + " ";
      assert (s + " ")[..|s|] == s;
    } else {
      var init := w[..|w| - 1];
      SplitAfterSpace(s, init);
      var t := s + " " + w;
      assert t[..|t| - 1] == s + " " + init;
      assert t[|t| - 1] == w[|w| - 1];
      assert init + [w[|w| - 1]] == w;
    }
  }

  /**
   * Splitting a join on spaces gives back the joined words when none of them holds a space
   * (and `[""]` for the empty join).
   */
  lemma {:induction false} SplitJoin(ss: seq<string>)
    requires forall i :: 0 <= i < |ss| ==> NoSpace(ss[i])
    ensures Split(Join(ss)) == (if ss == [] then [""] else ss)
  {
    if |ss| == 1 {
      SplitWord(ss[0]);
    } else if |ss| > 1 {
      var init := ss[..|ss| - 1];
      SplitJoin(init);
      SplitAfterSpace(Join(init), ss[|ss| - 1]);
      assert init + [ss[|ss| - 1]] == ss;
    }
  }

  /** What `" ".join` iterates over: a list of strings, the characters of a string, or the keys of a dict. */
  function KeyPointStrings(kp: Json): (r: Result<seq<string>>)
    ensures r.Ok? <==> kp.JStr? || kp.JObj? || (kp.JArr? && forall i :: 0 <= i < |kp.items| ==> kp.items[i].JStr?)
    ensures r.Err? ==> r.error == TypeError
    ensures r.Ok? && kp.JArr? ==> |r.value| == |kp.items| && forall i :: 0 <= i < |kp.items| ==> JStr(r.value[i]) == kp.items[i]
    ensures r.Ok? && kp.JStr? ==> |r.value| == |kp.s| && forall i :: 0 <= i < |kp.s| ==> r.value[i] == [kp.s[i]]
    ensures r.Ok? && kp.JObj? ==> |r.value| == |kp.fields| && forall i :: 0 <= i < |kp.fields| ==> r.value[i] == kp.fields[i].0
  {
    match kp
    case JArr(items) =>
      if forall i :: 0 <= i < |items| ==> items[i].JStr? then Ok(seq(|items|, i requires 0 <= i < |items| => items[i].s))
      else Err(TypeError)
    case JStr(s) => Ok(seq(|s|, i requires 0 <= i < |s| => [s[i]]))
    case JObj(fields) => Ok(seq(|fields|, i requires 0 <= i < |fields| => fields[i].0))
    case _ => Err(TypeError)
  }

  /** The text of one entry; a non-string question or answer, or unjoinable key points, raise a `TypeError`. */
  function EntryText(e: QaEntry): (r: Result<string>)
    ensures r.Ok? <==> e.question.JStr? && e.answer.JStr? && (e.keyPoints.Some? ==> KeyPointStrings(e.keyPoints.value).Ok?)
    ensures r.Err? ==> r.error == TypeError
    ensures r.Ok? ==> e.question.s + " " + e.answer.s <= r.value
    ensures r.Ok? && e.keyPoints.None? ==> r.value == e.question.s + " " + e.answer.s
  {
    if e.question.JStr? && e.answer.JStr? then
      var base := e.question.s + " " + e.answer.s;
      match e.keyPoints
      case None => Ok(base)
      case Some(kp) =>
        (match KeyPointStrings(kp)
         case Ok(ss) => Ok(base + " " + Join(ss))
         case Err(err) => Err(err))
    else Err(TypeError)
  }

  /**
   * An entry's text splits back into its question, its answer and its key points when none
   * of them contains a space: the text holds exactly those words, in that order.
   */
  lemma TextSplitsIntoParts(e: QaEntry)
    requires EntryText(e).Ok?
    requires NoSpace(e.question.s) && NoSpace(e.answer.s)
    requires e.keyPoints.Some? ==> forall i :: 0 <= i < |KeyPointStrings(e.keyPoints.value).value| ==>
                                     NoSpace(KeyPointStrings(e.keyPoints.value).value[i])
    ensures e.keyPoints.None? ==> Split(EntryText(e).value) == [e.question.s, e.answer.s]
    ensures e.keyPoints.Some? && KeyPointStrings(e.keyPoints.value).value != [] ==>
              Split(EntryText(e).value) == [e.question.s, e.answer.s] + KeyPointStrings(e.keyPoints.value).value
  {
    var q, a := e.question.s, e.answer.s;
    SplitWord(q);
    SplitAfterSpace(q, a);
    if e.keyPoints.Some? {
      var ss := KeyPointStrings(e.keyPoints.value).value;
      if ss != [] {
        var words := [q, a] + ss;
        forall i | 0 <= i < |words| ensures NoSpace(words[i]) {
        }
        SplitJoin(words);
        JoinPrefix(q, a, ss);
      }
    }
  }

  lemma {:induction false} JoinPrefix(q: string, a: string, ss: seq<string>)
    requires ss != []
    ensures Join([q, a] + ss) == q + " " + a + " " + Join(ss)
  {
    if |ss| == 1 {
      assert ([q, a] + ss)[..2] == [q, a];
      assert Join([q, a]) == q + " " + a by {
        assert [q, a][..1] == [q];
      }
    } else {
      var init := ss[..|ss| - 1];
      JoinPrefix(q, a, init);
      assert ([q, a] + ss)[..|ss| + 1] == [q, a] + init;
    }
  }

  /** The result of the text loop: every entry with its text set, and the list of texts. */
  function Assembled(kb: seq<QaEntry>): Result<(seq<QaEntry>, seq<string>)> {
    if kb == [] then Ok(([], []))
    else
      match Assembled(kb[..|kb| - 1])
      case Err(err) => Err(err)
      case Ok(done) =>
        var last := kb[|kb| - 1];
        match EntryText(last)
        case Ok(t) => Ok((done.0 + [last.(text := Some(t))], done.1 + [t]))
        case Err(err) => Err(err)
  }

  /**
   * The text loop succeeds exactly when every entry has a text; then it returns one text per
   * entry, in order, and sets each entry's text to it, leaving its other fields as they were.
   */
  lemma {:induction false} AssembledSpec(kb: seq<QaEntry>)
    ensures Assembled(kb).Ok? <==> forall i :: 0 <= i < |kb| ==> EntryText(kb[i]).Ok?
    ensures Assembled(kb).Ok? ==>
              |Assembled(kb).value.0| == |kb| && |Assembled(kb).value.1| == |kb|
              && forall i :: 0 <= i < |kb| ==>
                   Assembled(kb).value.1[i] == EntryText(kb[i]).value
                   && Assembled(kb).value.0[i] == kb[i].(text := Some(EntryText(kb[i]).value))
  {
    if kb != [] {
      var init := kb[..|kb| - 1];
      AssembledSpec(init);
      assert forall i :: 0 <= i < |init| ==> kb[i] == init[i];
    }
  }

  lemma {:induction false} ErrExtends(kb: seq<QaEntry>, n: nat)
    requires n <= |kb| && Assembled(kb[..n]).Err?
    ensures Assembled(kb) == Assembled(kb[..n])
  {
    if n < |kb| {
      var init := kb[..|kb| - 1];
      assert init[..n] == kb[..n];
      ErrExtends(init, n);
    } else {
      assert kb[..n] == kb;
    }
  }

  /**
   * The text loop of `load_kb_embeddings`: builds each entry's text, stores it in the entry
   * and collects it; the first entry whose text cannot be built raises a `TypeError`.
   */
  method AssembleTexts(kb: seq<QaEntry>) returns (r: Result<(seq<QaEntry>, seq<string>)>)
    ensures r == Assembled(kb)
  {
    var entries := kb;
    var allTexts: seq<string> := [];
    for i := 0 to |kb|
      invariant |entries| == |kb| && entries[i..] == kb[i..]
      invariant Assembled(kb[..i]) == Ok((entries[..i], allTexts))
    {
      assert kb[..i + 1][..i] == kb[..i];
      var entry := entries[i];
      assert entry == kb[i];
      if !(entry.question.JStr? && entry.answer.JStr?) {
        ErrExtends(kb, i + 1);
        return Err(TypeError);
      }
      var text := entry.question.s + " " + entry.answer.s;
      if entry.keyPoints.Some? {
        var points := KeyPointStrings(entry.keyPoints.value);
        if points.Err? {
          ErrExtends(kb, i + 1);
          return Err(TypeError);
        }
        text := text + " " + Join(points.value);
      }
      assert EntryText(entry) == Ok(text);
      allTexts := allTexts + [text];
      entries := entries[i := entry.(text := Some(text))];
      assert entries[..i + 1] == entries[..i] + [entries[i]];
    }
    assert kb[..|kb|] == kb && entries[..|kb|] == entries;
    r := Ok((entries, allTexts));
  }

  /** `load_kb_embeddings` up to the vectoriser: flatten, then assemble the texts. */
  method LoadKbTexts(nestedKb: Json) returns (r: Result<(seq<QaEntry>, seq<string>)>)
    ensures r == (match Flatten(nestedKb) case Ok(kb) => Assembled(kb) case Err(err) => Err(err))
  {
    var kb :- FlattenKnowledgeBase(nestedKb);
    r := AssembleTexts(kb);
  }
}
