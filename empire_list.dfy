/** The summary the empire list page sends for each stored file: the empire
    block taken out of its one-entry wrapper, its name and author, and its
    ethics turned into readable labels. */
module EmpireList {
  import opened Wrappers
  import opened Text
  import opened Parser
  import opened Importer

  // ---------------------------------------------------------------------
  // Labels

  /** Python `s.replace(pat, "")`: every occurrence of `pat`, found left to
      right without overlapping, removed. */
  function RemoveAll(s: string, pat: string): (r: string)
    requires pat != []
    ensures |r| <= |s|
  {
    if |s| < |pat| then s
    else if s[..|pat|] == pat then RemoveAll(s[|pat|..], pat)
    else [s[0]] + RemoveAll(s[1..], pat)
  }

  /** Python `s.replace(a, b)` for single characters: every `a` becomes `b`. */
  function ReplaceChar(s: string, a: char, b: char): (r: string)
    ensures |r| == |s|
    ensures forall i :: 0 <= i < |s| ==> r[i] == (if s[i] == a then b else s[i])
  {
    if s == [] then [] else [if s[0] == a then b else s[0]] + ReplaceChar(s[1..], a, b)
  }

  /** `pat` occurs in `s` at position `i`. */
  predicate OccursAt(s: string, pat: string, i: int)
  {
    0 <= i && i + |pat| <= |s| && s[i..i + |pat|] == pat
  }

  /** With no occurrence of `pat`, removing it changes nothing. */
  lemma {:induction false} RemoveAllMissing(s: string, pat: string)
    requires pat != []
    requires forall i :: !OccursAt(s, pat, i)
    ensures RemoveAll(s, pat) == s
  {
    if |s| >= |pat| {
      assert !OccursAt(s, pat, 0);
      forall i
        ensures !OccursAt(s[1..], pat, i)
      {
        if OccursAt(s[1..], pat, i) {
          assert s[1..][i..i + |pat|] == s[i + 1..i + 1 + |pat|];
          assert OccursAt(s, pat, i + 1);
        }
      }
      RemoveAllMissing(s[1..], pat);
      assert s == [s[0]] + s[1..];
    }
  }

  /** A leading occurrence is removed and the rest is read on. */
  lemma RemoveAllPrefix(pat: string, t: string)
    requires pat != []
    ensures RemoveAll(pat + t, pat) == RemoveAll(t, pat)
  {
    assert (pat + t)[..|pat|] == pat;
    assert (pat + t)[|pat|..] == t;
  }

  /** The label of an ethic: `ethic.replace("ethic_", "").replace("_", " ")`. */
  function EthicLabel(ethic: string): (r: string)
    ensures |r| <= |ethic| && '_' !in r
  {
    ReplaceChar(RemoveAll(ethic, "ethic_"), '_', ' ')
  }

  /** The label of `ethic_` followed by a name without a further `ethic_`
      is the name with its underscores turned into spaces. */
  lemma EthicLabelOf(name: string)
    requires forall i :: !OccursAt(name, "ethic_", i)
    ensures EthicLabel("ethic_" + name) == ReplaceChar(name, '_', ' ')
  {
    RemoveAllPrefix("ethic_", name);
    RemoveAllMissing(name, "ethic_");
  }

  /** The labels of the `ethic` values, in file order; a value that is not a
      string has no `replace` and raises. */
  function Labels(values: seq<Value>): (r: Result<seq<string>, string>)
    ensures r.Ok? <==> forall i :: 0 <= i < |values| ==> values[i].Str?
    ensures r.Ok? ==> (|r.value| == |values|
      && forall i :: 0 <= i < |values| ==> r.value[i] == EthicLabel(values[i].s))
  {
    if values == [] then Ok([])
    else if !values[0].Str? then Err("AttributeError: object has no attribute 'replace'")
    else
      match Labels(values[1..])
      case Err(e) => Err(e)
      case Ok(rest) =>
        assert forall i :: 1 <= i < |values| ==> values[i] == values[1..][i - 1];
        Ok([EthicLabel(values[0].s)] + rest)
  }

  // ---------------------------------------------------------------------
  // One file

  /** What the list page sends for one file. */
  datatype Summary = Summary(author: Option<Value>, name: Option<Value>, ethics: seq<string>)

  /** The empire out of its wrapper: a file holding a single entry stands
      for that entry's value; anything else is taken as it is. */
  function Unwrap(obj: seq<Datum>): Value
  {
    if |obj| == 1 && obj[0].Entry? then obj[0].value else Obj(obj)
  }

  /** The summary of a parsed file. A wrapped string has no entries, so no
      name, author or ethics; a wrapped boolean cannot be searched and
      raises; otherwise `get_value` supplies name and author (raising on a
      duplicate) and `get_values` the ethics. */
  function Summarise(obj: seq<Datum>): (r: Result<Summary, string>)
    ensures Unwrap(obj).Bool? ==> r.Err?
    ensures Unwrap(obj).Str? ==> r == Ok(Summary(None, None, []))
    ensures Unwrap(obj).Obj? ==> var items := Unwrap(obj).items;
      (r.Ok? <==> GetValue(items, "key").Ok? && GetValue(items, "author").Ok?
                  && forall v :: v in GetValues(items, "ethic") ==> v.Str?)
    ensures r.Ok? && Unwrap(obj).Obj? ==> var items := Unwrap(obj).items;
      && r.value.name == GetValue(items, "key").value
      && r.value.author == GetValue(items, "author").value
      && |r.value.ethics| == |GetValues(items, "ethic")|
      && forall i :: 0 <= i < |r.value.ethics| ==> r.value.ethics[i] == EthicLabel(GetValues(items, "ethic")[i].s)
  {
    match Unwrap(obj)
    case Bool(_) => Err("TypeError: 'bool' object is not iterable")
    case Str(_) => Ok(Summary(None, None, []))
    case Obj(items) =>
      match GetValue(items, "key")
      case Err(e) => Err(e)
      case Ok(name) =>
        match GetValue(items, "author")
        case Err(e) => Err(e)
        case Ok(author) =>
          match Labels(GetValues(items, "ethic"))
          case Err(e) => Err(e)
          case Ok(ethics) => Ok(Summary(author, name, ethics))
  }

  /** A file as `store` writes it is summarised from the stored empire
      itself: the wrapper entry named after the empire is taken off. */
  lemma StoredUnwraps(name: string, empire: seq<Datum>)
    requires ShapedObject(empire) && ShapedName(name)
    ensures Unwrap(ParseText(StoredText(name, empire))) == Obj(empire)
  {
    StoredTextRoundTrip(name, empire);
  }

  // ---------------------------------------------------------------------
  // The page

  /** The summary of one file's text. */
  function SummaryOf(text: string): Result<Summary, string>
  {
    Summarise(ParseText(text))
  }

  /** `f` applied to each text in order, or the first error it gives. */
  function Collect(texts: seq<string>, f: string -> Result<Summary, string>): Result<seq<Summary>, string>
  {
    if texts == [] then Ok([])
    else
      match Collect(texts[..|texts| - 1], f)
      case Err(e) => Err(e)
      case Ok(done) =>
        match f(texts[|texts| - 1])
        case Err(e) => Err(e)
        case Ok(s) => Ok(done + [s])
  }

  /** The summaries of the files in order, or the first error raised. */
  function Summaries(texts: seq<string>): Result<seq<Summary>, string>
  {
    Collect(texts, SummaryOf)
  }

  /** Once a text gives an error, so does the whole collection. */
  lemma {:induction false} CollectStop(texts: seq<string>, f: string -> Result<Summary, string>, i: nat)
    requires i <= |texts| && Collect(texts[..i], f).Err?
    ensures Collect(texts, f) == Collect(texts[..i], f)
    decreases |texts| - i
  {
    if i < |texts| {
      assert texts[..i + 1][..i] == texts[..i];
      CollectStop(texts, f, i + 1);
    } else {
      assert texts[..i] == texts;
    }
  }

  /** The collection holds one result per text, in order, and succeeds
      exactly when every text does. */
  lemma {:induction false} CollectInOrder(texts: seq<string>, f: string -> Result<Summary, string>)
    ensures Collect(texts, f).Ok? <==> forall i :: 0 <= i < |texts| ==> f(texts[i]).Ok?
    ensures Collect(texts, f).Ok? ==> (|Collect(texts, f).value| == |texts|
      && forall i :: 0 <= i < |texts| ==> Collect(texts, f).value[i] == f(texts[i]).value)
  {
    if texts != [] {
      var init := texts[..|texts| - 1];
      CollectInOrder(init, f);
      assert forall i :: 0 <= i < |init| ==> init[i] == texts[i];
    }
  }

  /** The page lists one summary per file, in file order, and succeeds
      exactly when every file is summarised. */
  lemma SummariesInOrder(texts: seq<string>)
    ensures Summaries(texts).Ok? <==> forall i :: 0 <= i < |texts| ==> SummaryOf(texts[i]).Ok?
    ensures Summaries(texts).Ok? ==> (|Summaries(texts).value| == |texts|
      && forall i :: 0 <= i < |texts| ==> Summaries(texts).value[i] == SummaryOf(texts[i]).value)
  {
    CollectInOrder(texts, SummaryOf);
  }

  /** `page_ajax_list`: every file read and summarised in turn, the
      summaries collected in order; an exception ends the page. */
  method ListEmpires(texts: seq<string>) returns (output: Result<seq<Summary>, string>)
    ensures output == Summaries(texts)
  {
    var entries: seq<Summary> := [];
    var i := 0;
    while i < |texts|
      invariant 0 <= i <= |texts|
      invariant Summaries(texts[..i]) == Ok(entries)
    {
      var obj := ParseString(texts[i]);
      assert texts[..i + 1][..i] == texts[..i] && texts[..i + 1][i] == texts[i];
      var entry := Summarise(obj);
      if entry.Err? {
        CollectStop(texts, SummaryOf, i + 1);
        return Err(entry.error);
      }
      entries := entries + [entry.value];
      i := i + 1;
    }
    assert texts[..i] == texts;
    output := Ok(entries);
  }
}
