/** What the repair pass of `parse_user_empires` does to a few small
    uploads, for any words in them: an object opened without `=`, a block
    whose `={` stands on a line of its own, and the same after a blank line,
    which shows that a second pass can change what the text parses to. */
module RepairExamples {
  import opened Text
  import opened Parser
  import opened UserEmpires

  /** A non-empty run of `[A-Za-z0-9_.\-]`: a key or a bare value. */
  predicate Word(w: string)
  {
    w != [] && forall c :: c in w ==> IsWordChar(c)
  }

  lemma WordFacts(w: string)
    requires Word(w)
    ensures '\r' !in w && '\n' !in w && '=' !in w && '{' !in w && '}' !in w && '"' !in w
    ensures !IsPySpace(w[0]) && !IsPySpace(w[|w| - 1])
    ensures w[0] != '{' && w[0] != '=' && w[0] != '"' && w[|w| - 1] != '"'
  {
    assert w[0] in w && w[|w| - 1] in w;
  }

  /** A word is its own stripped and unquoted text. */
  lemma WordStripped(w: string)
    requires Word(w)
    ensures Strip(w) == w
  {
    WordFacts(w);
    TrimNoop(w, IsPySpace);
  }

  lemma WordUnquoted(w: string)
    requires Word(w)
    ensures StripQuotes(w) == w
  {
    WordFacts(w);
    TrimNoop(w, IsQuote);
  }

  /** A line without braces or line breaks that starts with a visible
      character. */
  predicate PlainLine(l: string)
  {
    l != [] && '\r' !in l && '\n' !in l && '{' !in l && '}' !in l && !IsPySpace(l[0])
  }

  lemma WordLine(w: string)
    requires Word(w)
    ensures PlainLine(w)
  {
    WordFacts(w);
  }

  /** `\n`, a line, `\n}`: the rest of a block after its opening brace. */
  function Body(l: string): string
  {
    "\n" + (l + ("\n" + "}"))
  }

  /** `={`, then the body: a block opening as the repair pass leaves it. */
  function Opened(l: string): string
  {
    "=" + ("{" + Body(l))
  }

  lemma BodyEarly(l: string)
    requires PlainLine(l)
    ensures '\r' !in Body(l)
    ensures InsertEquals(Body(l)) == Body(l)
    ensures CollapseEquals(Body(l)) == Body(l)
  {
    InsertEqualsPlain(Body(l), []);
    assert Body(l) + [] == Body(l);
    CollapseEqualsNoBrace(Body(l));
  }

  lemma BodyJoin(l: string)
    requires PlainLine(l)
    ensures JoinEquals(Body(l)) == Body(l)
  {
    var t := l + ("\n" + "}");
    assert |t| >= 2 ==> t[1] != '{' by {
      if |l| >= 2 { assert t[1] == l[1] && l[1] in l; } else { assert t[1] == '\n'; }
    }
    JoinEqualsCons('\n', t);
    JoinEqualsPlain(l, "\n" + "}");
    assert JoinEquals("\n" + "}") == "\n" + "}";
  }

  lemma BodyLate(l: string)
    requires PlainLine(l)
    ensures BreakAfterOpen(Body(l)) == Body(l)
    ensures DropEmptyBraces(Body(l), false) == Body(l)
  {
    BreakAfterOpenNoBrace(Body(l));
    DropEmptyBracesNewline(l + ("\n" + "}"));
    DropEmptyBracesPlain(l, "\n" + "}", true);
    assert DropEmptyBraces("\n" + "}", false) == "\n" + "}";
  }

  lemma OpenedInsert(l: string)
    requires PlainLine(l)
    ensures '\r' !in Opened(l)
    ensures InsertEquals(Opened(l)) == Opened(l)
  {
    BodyEarly(l);
    InsertEqualsCons('=', "{" + Body(l));
    InsertEqualsCons('{', Body(l));
  }

  lemma OpenedCollapse(l: string)
    requires PlainLine(l)
    ensures CollapseEquals(Opened(l)) == Opened(l)
  {
    BodyEarly(l);
    CollapseEqualsOpen(Body(l));
  }

  lemma OpenedLate(l: string)
    requires PlainLine(l)
    ensures JoinEquals(Opened(l)) == Opened(l)
    ensures BreakAfterOpen(Opened(l)) == Opened(l)
    ensures DropEmptyBraces(Opened(l), true) == Opened(l)
    ensures DropEmptyBraces(Opened(l), false) == Opened(l)
  {
    BodyJoin(l);
    BodyLate(l);
    JoinEqualsPlain("=", "{" + Body(l));
    JoinEqualsPlain("{", Body(l));
    assert ("{" + Body(l))[1] == '\n';
    BreakAfterOpenCons('=', "{" + Body(l));
    BreakAfterOpenCons('{', Body(l));
    VisibleNotSpace('=');
    DropEmptyBracesPlain("=", "{" + Body(l), true);
    DropEmptyBracesPlain("=", "{" + Body(l), false);
    DropEmptyBracesPlain("{", Body(l), false);
  }

  /** `a`, a newline, then the opening: the block's `={` on a line of its own. */
  lemma OwnLineSteps(a: string, l: string)
    requires Word(a) && PlainLine(l)
    ensures var y := a + ("\n" + Opened(l));
      && '\r' !in y && InsertEquals(y) == y && CollapseEquals(y) == y
      && JoinEquals(y) == a + Opened(l)
  {
    WordFacts(a);
    OpenedInsert(l);
    OpenedCollapse(l);
    OpenedLate(l);
    InsertEqualsPlain(a + "\n", Opened(l));
    CollapseEqualsPlain(a + "\n", Opened(l));
    Assoc(a, "\n", Opened(l));
    JoinEqualsPlain(a, "\n" + Opened(l));
    JoinEqualsAt(Body(l));
  }

  /** The newline before an own-line `={` stays for steps 5 and 6. */
  lemma OwnLineLate(a: string, l: string)
    requires Word(a) && PlainLine(l)
    ensures var y := a + ("\n" + Opened(l));
      BreakAfterOpen(y) == y && DropEmptyBraces(y, true) == y
  {
    WordFacts(a);
    OpenedLate(l);
    BreakAfterOpenPlain(a + "\n", Opened(l));
    Assoc(a, "\n", Opened(l));
    DropEmptyBracesPlain(a, "\n" + Opened(l), true);
    DropEmptyBracesNewline(Opened(l));
  }

  /** `a={`, the body: nothing for any step to do. */
  lemma JoinedSteps(a: string, l: string)
    requires Word(a) && PlainLine(l)
    ensures var z := a + Opened(l);
      && '\r' !in z && InsertEquals(z) == z && CollapseEquals(z) == z
      && JoinEquals(z) == z && BreakAfterOpen(z) == z && DropEmptyBraces(z, true) == z
  {
    WordFacts(a);
    OpenedInsert(l);
    OpenedCollapse(l);
    OpenedLate(l);
    InsertEqualsPlain(a, Opened(l));
    CollapseEqualsPlain(a, Opened(l));
    JoinEqualsPlain(a, Opened(l));
    BreakAfterOpenPlain(a, Opened(l));
    DropEmptyBracesPlain(a, Opened(l), true);
  }

  /** A blank line before an own-line `={`: step 4 removes one newline. */
  lemma BlankLineSteps(a: string, l: string)
    requires Word(a) && PlainLine(l)
    ensures var x := a + ("\n" + ("\n" + Opened(l)));
      && '\r' !in x && InsertEquals(x) == x && CollapseEquals(x) == x
      && JoinEquals(x) == a + ("\n" + Opened(l))
  {
    WordFacts(a);
    OpenedInsert(l);
    OpenedCollapse(l);
    OpenedLate(l);
    var p := a + ("\n" + "\n");
    assert a + ("\n" + ("\n" + Opened(l))) == p + Opened(l);
    InsertEqualsPlain(p, Opened(l));
    CollapseEqualsPlain(p, Opened(l));
    JoinEqualsPlain(a, "\n" + ("\n" + Opened(l)));
    JoinEqualsCons('\n', "\n" + Opened(l));
    JoinEqualsAt(Body(l));
  }

  /** Step 2 on a word before `{`. */
  lemma InsertEqualsWord(k: string, t: string)
    requires Word(k)
    ensures InsertEquals(k + ("{" + t)) == k + ("=" + ("{" + InsertEquals(t)))
  {
    WordFacts(k);
    var n := |k| - 1;
    assert k[n] in k;
    assert '{' !in k[..n] by {
      assert forall i :: 0 <= i < n ==> k[..n][i] == k[i];
    }
    InsertEqualsLast(k[..n], k[n], t);
    assert k == k[..n] + [k[n]];
    SeqAssoc(k[..n], [k[n]], "=" + ("{" + InsertEquals(t)));
    SeqAssoc(k[..n], [k[n]], "{" + t);
  }

  lemma InsertEqualsLast(p: string, c: char, t: string)
    requires '{' !in p && IsWordChar(c)
    ensures InsertEquals(p + ([c] + ("{" + t))) == p + ([c] + ("=" + ("{" + InsertEquals(t))))
  {
    InsertEqualsPlain(p, [c] + ("{" + t));
    InsertEqualsAt(c, t);
    assert [c] + ("{" + t) == [c, '{'] + t;
    assert [c, '=', '{'] + InsertEquals(t) == [c] + ("=" + ("{" + InsertEquals(t)));
  }

  lemma DialectShape(k: string, l: string)
    ensures k + "{\n" + l + "\n}" == k + ("{" + Body(l))
    ensures k + "={\n" + l + "\n}" == k + Opened(l)
  {
  }

  lemma OwnLineShape(a: string, l: string)
    ensures a + "\n={\n" + l + "\n}" == a + ("\n" + Opened(l))
    ensures a + "\n\n={\n" + l + "\n}" == a + ("\n" + ("\n" + Opened(l)))
  {
  }

  /** An object opened without `=` gets one: `foo{` becomes `foo={`. */
  lemma RepairDialect(k: string, l: string)
    requires Word(k) && PlainLine(l)
    ensures Repair(k + "{\n" + l + "\n}") == k + "={\n" + l + "\n}"
  {
    DialectShape(k, l);
    var d := k + ("{" + Body(l));
    WordFacts(k);
    BodyEarly(l);
    DropCarriageReturnsNoop(d);
    InsertEqualsWord(k, Body(l));
    JoinedSteps(k, l);
  }

  /** A `={` on the line after its key is joined to it. */
  lemma RepairJoinedLine(a: string, l: string)
    requires Word(a) && PlainLine(l)
    ensures Repair(a + "\n={\n" + l + "\n}") == a + "={\n" + l + "\n}"
  {
    DialectShape(a, l);
    OwnLineShape(a, l);
    var y := a + ("\n" + Opened(l));
    OwnLineSteps(a, l);
    DropCarriageReturnsNoop(y);
    JoinedSteps(a, l);
  }

  /** After a blank line, one pass only moves the `={` up to the blank line. */
  lemma RepairBlankLine(a: string, l: string)
    requires Word(a) && PlainLine(l)
    ensures Repair(a + "\n\n={\n" + l + "\n}") == a + "\n={\n" + l + "\n}"
  {
    OwnLineShape(a, l);
    var x := a + ("\n" + ("\n" + Opened(l)));
    BlankLineSteps(a, l);
    DropCarriageReturnsNoop(x);
    OwnLineLate(a, l);
  }

  /** The lines of a block opened on the line of `head`. */
  lemma OpenedLines(head: string, l: string)
    requires '\n' !in head && PlainLine(l)
    ensures SplitLines(head + ("{" + Body(l))) == [head + "{"] + ([l] + ["}"])
  {
    assert head + ("{" + Body(l)) == (head + "{") + ("\n" + (l + ("\n" + "}")));
    SplitLinesCons(head + "{", l + ("\n" + "}"));
    SplitLinesCons(l, "}");
    SplitLinesLast("}");
  }

  /** A line that reads as `item`, then lines that read as nothing. */
  lemma ClosedLine(l: string, rest: seq<string>, item: Datum)
    requires Strip(l) != "}"
    requires '=' !in Strip(l) ==> item == Bare(StripQuotes(Strip(l)))
    requires '=' in Strip(l) ==>
      var (key, text) := SplitAtEquals(Strip(l));
      text != "{" && item == Entry(StripQuotes(key), LiteralValue(text))
    requires ParseLines(rest).0 == [] && ParseLines(rest).1 == []
    ensures ParseLines([l] + rest).0 == [item] && ParseLines([l] + rest).1 == []
  {
    ConsTail(l, rest);
    ParseFlatLine([l] + rest, item);
    assert [item] + [] == [item];
  }

  /** A lone `}` closes the block and reads as nothing. */
  lemma ParseCloseLine(lines: seq<string>)
    requires lines == ["}"]
    ensures ParseLines(lines).0 == [] && ParseLines(lines).1 == []
  {
    StripClose(lines[0]);
    ParseClosing(lines);
  }

  lemma StripClose(c: string)
    requires c == "}"
    ensures Strip(c) == "}"
  {
    VisibleNotSpace('}');
    TrimNoop(c, IsPySpace);
  }

  lemma ParseClosing(lines: seq<string>)
    requires lines != [] && Strip(lines[0]) == "}"
    ensures ParseLines(lines).0 == [] && ParseLines(lines).1 == lines[1..]
  {
  }

  /** A word alone on its line reads as a bare string. */
  lemma WordItem(b: string)
    requires Word(b)
    ensures ParseLines([b] + ["}"]).0 == [Bare(b)] && ParseLines([b] + ["}"]).1 == []
  {
    WordReads(b);
    ParseCloseLine(["}"]);
    ClosedLine(b, ["}"], Bare(b));
  }

  lemma WordReads(w: string)
    requires Word(w)
    ensures Strip(w) != "}" && '=' !in Strip(w) && StripQuotes(Strip(w)) == w
  {
    WordFacts(w);
    WordStripped(w);
    WordUnquoted(w);
  }

  /** `j="v"` reads as the entry `j` with the string `v`. */
  lemma QuotedItem(j: string, v: string)
    requires Word(j) && Word(v)
    ensures var l := j + "=\"" + v + "\"";
      ParseLines([l] + ["}"]).0 == [Entry(j, Str(v))] && ParseLines([l] + ["}"]).1 == []
  {
    QuotedReads(j, v);
    ParseCloseLine(["}"]);
    ClosedLine(j + "=\"" + v + "\"", ["}"], Entry(j, Str(v)));
  }

  lemma QuotedReads(j: string, v: string)
    requires Word(j) && Word(v)
    ensures var l := j + "=\"" + v + "\"";
      && Strip(l) != "}" && '=' in Strip(l)
      && SplitAtEquals(Strip(l)).1 != "{"
      && StripQuotes(SplitAtEquals(Strip(l)).0) == j
      && LiteralValue(SplitAtEquals(Strip(l)).1) == Str(v)
  {
    WordUnquoted(j);
    QuotedStrip(j, v);
    SplitAtEqualsOf(j, "\"" + v + "\"");
    QuotedValue(v);
  }

  lemma QuotedStrip(j: string, v: string)
    requires Word(j)
    ensures var l := j + "=\"" + v + "\"";
      Strip(l) == j + "=" + ("\"" + v + "\"")
  {
    WordFacts(j);
    var l := j + "=\"" + v + "\"";
    assert l == j + "=" + ("\"" + v + "\"");
    assert l[0] == j[0] && l[|l| - 1] == '"';
    VisibleNotSpace('"');
    TrimNoop(l, IsPySpace);
  }

  lemma QuotedValue(v: string)
    requires Word(v)
    ensures LiteralValue("\"" + v + "\"") == Str(v)
  {
    WordFacts(v);
    var text := "\"" + v + "\"";
    assert text[0] == '"';
    StripQuotesQuoted(v);
  }

  /** `a={`, a line reading as `item`, `}`: the entry `a` holding `item`. */
  lemma ParseBlock(a: string, l: string, item: Datum)
    requires Word(a) && PlainLine(l)
    requires ParseLines([l] + ["}"]).0 == [item] && ParseLines([l] + ["}"]).1 == []
    ensures ParseText(a + "={\n" + l + "\n}") == [Entry(a, Obj([item]))]
  {
    BlockLines(a, l);
    OpenerReads(a);
    ParseOpening(a + "={", a, [l] + ["}"]);
  }

  lemma BlockLines(a: string, l: string)
    requires Word(a) && PlainLine(l)
    ensures SplitLines(a + "={\n" + l + "\n}") == [a + "={"] + ([l] + ["}"])
  {
    WordFacts(a);
    DialectShape(a, l);
    assert a + Opened(l) == (a + "=") + ("{" + Body(l));
    OpenedLines(a + "=", l);
    assert a + "=" + "{" == a + "={";
  }

  /** `a={` opens a block with key `a`. */
  lemma OpenerReads(a: string)
    requires Word(a)
    ensures var head := a + "={";
      '=' in Strip(head) && SplitAtEquals(Strip(head)).1 == "{"
      && StripQuotes(SplitAtEquals(Strip(head)).0) == a
  {
    WordFacts(a);
    OpenerStripped(a);
    SplitAtEqualsOf(a, "{");
    WordUnquoted(a);
  }

  lemma OpenerStripped(a: string)
    requires Word(a)
    ensures Strip(a + "={") == a + "=" + "{"
  {
    WordFacts(a);
    var head := a + "={";
    assert head == a + "=" + "{";
    assert head[0] == a[0] && head[|head| - 1] == '{';
    VisibleNotSpace('{');
    TrimNoop(head, IsPySpace);
  }

  /** `a`, then `={` on its own line: a bare string and an entry whose key
      is empty. */
  lemma ParseOwnLine(a: string, l: string, item: Datum)
    requires Word(a) && PlainLine(l)
    requires ParseLines([l] + ["}"]).0 == [item] && ParseLines([l] + ["}"]).1 == []
    ensures ParseText(a + "\n={\n" + l + "\n}") == [Bare(a), Entry("", Obj([item]))]
  {
    OwnLineLines(a, l);
    var rest := ["={"] + ([l] + ["}"]);
    WordReads(a);
    ConsTail(a, rest);
    ParseFlatLine([a] + rest, Bare(a));
    OwnOpener(l, item);
  }

  lemma OwnOpener(l: string, item: Datum)
    requires ParseLines([l] + ["}"]).0 == [item] && ParseLines([l] + ["}"]).1 == []
    ensures var rest := ["={"] + ([l] + ["}"]);
      ParseLines(rest).0 == [Entry("", Obj([item]))] && ParseLines(rest).1 == []
  {
    OpenerLine("={");
    ParseOpening("={", "", [l] + ["}"]);
    assert ParseLines([]) == ([], []);
  }

  lemma OwnLineLines(a: string, l: string)
    requires Word(a) && PlainLine(l)
    ensures SplitLines(a + "\n={\n" + l + "\n}") == [a] + (["={"] + ([l] + ["}"]))
  {
    WordFacts(a);
    OwnLineShape(a, l);
    SplitLinesCons(a, Opened(l));
    OpenedLines("=", l);
    assert "=" + "{" == "={";
    assert SplitLines(Opened(l)) == ["={"] + ([l] + ["}"]);
  }

  /** `={` alone opens a block whose key is empty. */
  lemma OpenerLine(line: string)
    requires line == "={"
    ensures '=' in Strip(line) && SplitAtEquals(Strip(line)).1 == "{"
    ensures StripQuotes(SplitAtEquals(Strip(line)).0) == ""
  {
    VisibleNotSpace('=');
    VisibleNotSpace('{');
    TrimNoop(line, IsPySpace);
    SplitAtEqualsOf([], "{");
    assert [] + "=" + "{" == line;
    assert StripQuotes([]) == [];
  }

  lemma QuotedPlain(j: string, v: string)
    requires Word(j) && Word(v)
    ensures PlainLine(j + "=\"" + v + "\"")
  {
    WordFacts(j);
    WordFacts(v);
    var l := j + "=\"" + v + "\"";
    assert l[0] == j[0];
  }

  /** An object opened without `=` is read as that object after repair:
      `k{`, `j="v"`, `}` holds the entry `j` with the string `v`. */
  lemma DialectParses(k: string, j: string, v: string)
    requires Word(k) && Word(j) && Word(v)
    ensures var l := j + "=\"" + v + "\"";
      && Repair(k + "{\n" + l + "\n}") == k + "={\n" + l + "\n}"
      && ParseUserEmpires(k + "{\n" + l + "\n}") == [Entry(k, Obj([Entry(j, Str(v))]))]
  {
    var l := j + "=\"" + v + "\"";
    QuotedPlain(j, v);
    RepairDialect(k, l);
    QuotedItem(j, v);
    ParseBlock(k, l, Entry(j, Str(v)));
  }

  /** Repairing twice can change the parsed result: after a blank line, the
      first pass moves a lone `={` up to the blank line, which leaves it
      opening a block with an empty key, and only the second pass joins it
      to the key `a` on the line before. */
  lemma RepairNotIdempotent(a: string, b: string)
    requires Word(a) && Word(b)
    ensures var x := a + "\n\n={\n" + b + "\n}";
      && ParseUserEmpires(x) == [Bare(a), Entry("", Obj([Bare(b)]))]
      && ParseUserEmpires(Repair(x)) == [Entry(a, Obj([Bare(b)]))]
      && ParseUserEmpires(Repair(x)) != ParseUserEmpires(x)
  {
    WordLine(b);
    RepairBlankLine(a, b);
    RepairJoinedLine(a, b);
    WordItem(b);
    ParseOwnLine(a, b, Bare(b));
    ParseBlock(a, b, Bare(b));
  }
}
