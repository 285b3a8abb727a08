/** The repair pass `parse_user_empires` runs over uploaded text before it
    parses it: six substitutions applied in order, each written out here as
    the left-to-right, non-overlapping rewrite Python's `re.sub` performs. */
module UserEmpires {
  import opened Wrappers
  import opened Text
  import opened Parser

  predicate IsCarriageReturn(c: char)
  {
    c == '\r'
  }

  predicate IsNewline(c: char)
  {
    c == '\n'
  }

  predicate IsEquals(c: char)
  {
    c == '='
  }

  /** The class `[A-Za-z0-9_.\-]`. */
  predicate IsWordChar(c: char)
  {
    ('A' <= c <= 'Z') || ('a' <= c <= 'z') || ('0' <= c <= '9') || c == '_' || c == '.' || c == '-'
  }

  /** What the last step may delete: `\s`, `{` and `}`. */
  predicate IsLayout(c: char)
  {
    IsPySpace(c) || c == '{' || c == '}'
  }

  /** No word character stands right before a `{`. */
  predicate NoWordBrace(s: string)
  {
    forall i :: 0 <= i < |s| - 1 ==> !(IsWordChar(s[i]) && s[i + 1] == '{')
  }

  /** Step 1: every carriage return is removed. */
  function DropCarriageReturns(s: string): (r: string)
    ensures '\r' !in r
    ensures forall c :: c in r <==> c in s && c != '\r'
  {
    var r := Drop(s, IsCarriageReturn);
    assert forall c :: c in r <==> c in s && c != '\r' by {
      forall c
        ensures c in r <==> c in s && c != '\r'
      {
        DropMember(s, IsCarriageReturn, c);
      }
    }
    r
  }

  /** Step 2: a run of word characters directly before `{` gets `=` between
      it and the brace. A match always ends at a `{`, which is not a word
      character, so the matches are exactly the `{`s that follow a word
      character. */
  function InsertEquals(s: string): (r: string)
    ensures |s| <= |r|
    ensures s == [] <==> r == []
    ensures s != [] ==> r[0] == s[0]
    ensures NoWordBrace(r)
  {
    if s == [] then []
    else if |s| >= 2 && IsWordChar(s[0]) && s[1] == '{' then
      [s[0], '=', '{'] + InsertEquals(s[2..])
    else
      [s[0]] + InsertEquals(s[1..])
  }

  /** Step 3: `=`, any whitespace (newlines included), `{` becomes `={`. */
  function CollapseEquals(s: string): (r: string)
    ensures |r| <= |s|
    decreases |s|
  {
    if s == [] then []
    else if s[0] == '=' && SpaceThenBrace(s[1..]).Some? then
      "={" + CollapseEquals(SpaceThenBrace(s[1..]).value)
    else
      [s[0]] + CollapseEquals(s[1..])
  }

  /** When `s` is whitespace followed by `{`, what comes after the `{`. */
  function SpaceThenBrace(s: string): (r: Option<string>)
    ensures r.Some? <==> TrimStart(s, IsPySpace) != [] && TrimStart(s, IsPySpace)[0] == '{'
    ensures r.Some? ==> |r.value| < |s|
  {
    var t := TrimStart(s, IsPySpace);
    if t != [] && t[0] == '{' then
      assert t[0] == s[|s| - |t|];
      Some(t[1..])
    else None
  }

  /** Step 4: `\n={` becomes `={`. */
  function JoinEquals(s: string): (r: string)
    ensures |r| <= |s|
  {
    if s == [] then []
    else if |s| >= 3 && s[0] == '\n' && s[1] == '=' && s[2] == '{' then
      "={" + JoinEquals(s[3..])
    else
      [s[0]] + JoinEquals(s[1..])
  }

  /** Step 5: `={` followed by a character other than a newline gets a
      newline after the brace; the character is consumed by the match. */
  function BreakAfterOpen(s: string): (r: string)
    ensures |s| <= |r|
  {
    if s == [] then []
    else if |s| >= 3 && s[0] == '=' && s[1] == '{' && s[2] != '\n' then
      ['=', '{', '\n', s[2]] + BreakAfterOpen(s[3..])
    else
      [s[0]] + BreakAfterOpen(s[1..])
  }

  /** When `s` is whitespace, `{`, whitespace, `}`, what comes after the `}`. */
  function EmptyBraces(s: string): (r: Option<string>)
    ensures r.Some? ==> |r.value| < |s|
  {
    match SpaceThenBrace(s)
    case None => None
    case Some(t) =>
      var u := TrimStart(t, IsPySpace);
      if u != [] && u[0] == '}' then Some(u[1..]) else None
  }

  /** Step 6: at the start of a line, whitespace, `{`, whitespace, `}` is
      deleted. `atLineStart` says whether `s` starts the text or follows a
      newline. */
  function DropEmptyBraces(s: string, atLineStart: bool): (r: string)
    ensures |r| <= |s|
    decreases |s|
  {
    if s == [] then []
    else if atLineStart && EmptyBraces(s).Some? then
      DropEmptyBraces(EmptyBraces(s).value, false)
    else
      [s[0]] + DropEmptyBraces(s[1..], s[0] == '\n')
  }

  /** The whole repair pass. */
  function Repair(data: string): string
  {
    DropEmptyBraces(BreakAfterOpen(JoinEquals(CollapseEquals(InsertEquals(DropCarriageReturns(data))))), true)
  }

  /** `parse_user_empires`: the repaired text, parsed. */
  function ParseUserEmpires(data: string): seq<Datum>
  {
    ParseText(Repair(data))
  }

  /** Text without carriage returns passes step 1 unchanged. */
  lemma DropCarriageReturnsNoop(s: string)
    requires '\r' !in s
    ensures DropCarriageReturns(s) == s
  {
    DropNone(s, IsCarriageReturn);
  }

  /** Step 2 only inserts `=` characters: without them both texts agree. */
  lemma {:induction false} InsertEqualsKeepsText(s: string)
    ensures Drop(InsertEquals(s), IsEquals) == Drop(s, IsEquals)
    decreases |s|
  {
    if s == [] {
    } else if |s| >= 2 && IsWordChar(s[0]) && s[1] == '{' {
      InsertEqualsKeepsText(s[2..]);
      var rest := InsertEquals(s[2..]);
      assert InsertEquals(s) == [s[0]] + ['='] + (['{'] + rest);
      DropDelete([s[0]], '=', ['{'] + rest, IsEquals);
      DropSamePrefix(['{'], rest, s[2..], IsEquals);
      DropSamePrefix([s[0]], ['{'] + rest, ['{'] + s[2..], IsEquals);
      assert s == [s[0]] + (['{'] + s[2..]);
    } else {
      InsertEqualsKeepsText(s[1..]);
      DropSamePrefix([s[0]], InsertEquals(s[1..]), s[1..], IsEquals);
      assert s == [s[0]] + s[1..];
    }
  }

  /** Text where no `{` follows a word character passes step 2 unchanged. */
  lemma {:induction false} InsertEqualsNoop(s: string)
    requires NoWordBrace(s)
    ensures InsertEquals(s) == s
    decreases |s|
  {
    if s != [] {
      forall i | 0 <= i < |s| - 2
        ensures !(IsWordChar(s[1..][i]) && s[1..][i + 1] == '{')
      {
        assert s[1..][i] == s[i + 1] && s[1..][i + 1] == s[i + 2];
      }
      InsertEqualsNoop(s[1..]);
    }
  }

  /** Step 3 only deletes whitespace. */
  lemma {:induction false} CollapseEqualsKeepsText(s: string)
    ensures Drop(CollapseEquals(s), IsPySpace) == Drop(s, IsPySpace)
    decreases |s|
  {
    if s == [] {
    } else if s[0] == '=' && SpaceThenBrace(s[1..]).Some? {
      var rest := SpaceThenBrace(s[1..]).value;
      CollapseEqualsKeepsText(rest);
      CollapseEqualsMatch(s);
    } else {
      CollapseEqualsKeepsText(s[1..]);
      DropSamePrefix([s[0]], CollapseEquals(s[1..]), s[1..], IsPySpace);
      assert s == [s[0]] + s[1..];
    }
  }

  lemma CollapseEqualsMatch(s: string)
    requires s != [] && s[0] == '=' && SpaceThenBrace(s[1..]).Some?
    requires var rest := SpaceThenBrace(s[1..]).value;
      Drop(CollapseEquals(rest), IsPySpace) == Drop(rest, IsPySpace)
    ensures Drop(CollapseEquals(s), IsPySpace) == Drop(s, IsPySpace)
  {
    var r := CollapseEquals(SpaceThenBrace(s[1..]).value);
    assert CollapseEquals(s) == ['=', '{'] + r;
    OpenKept(r);
    CollapseInput(s);
  }

  lemma OpenKept(x: string)
    ensures Drop(['=', '{'] + x, IsPySpace) == ['=', '{'] + Drop(x, IsPySpace)
  {
    VisibleNotSpace('=');
    VisibleNotSpace('{');
    DropKept(['=', '{'], x, IsPySpace);
  }

  lemma CollapseInput(s: string)
    requires s != [] && s[0] == '=' && SpaceThenBrace(s[1..]).Some?
    ensures Drop(s, IsPySpace) == ['=', '{'] + Drop(SpaceThenBrace(s[1..]).value, IsPySpace)
  {
    var rest := SpaceThenBrace(s[1..]).value;
    VisibleNotSpace('=');
    VisibleNotSpace('{');
    DropStep(s, IsPySpace);
    SpaceThenBraceKeepsText(s[1..]);
    DropCons('{', rest, IsPySpace);
  }

  /** Whitespace and the brace `SpaceThenBrace` skips leave `{` and the rest. */
  lemma SpaceThenBraceKeepsText(s: string)
    requires SpaceThenBrace(s).Some?
    ensures Drop(s, IsPySpace) == Drop(['{'] + SpaceThenBrace(s).value, IsPySpace)
  {
    DropTrimStart(s, IsPySpace, IsPySpace);
    assert TrimStart(s, IsPySpace) == ['{'] + SpaceThenBrace(s).value;
  }

  /** The substitution step 3 makes: `=`, whitespace, `{` becomes `={`. */
  lemma CollapseEqualsJoins(w: string, t: string)
    requires forall i :: 0 <= i < |w| ==> IsPySpace(w[i])
    ensures CollapseEquals("=" + w + "{" + t) == "={" + CollapseEquals(t)
  {
    var s := "=" + w + "{" + t;
    assert s[1..] == w + ("{" + t);
    TrimStartSkips(w, "{" + t, IsPySpace);
    assert ("{" + t)[0] == '{';
    VisibleNotSpace('{');
    TrimStartNoop("{" + t, IsPySpace);
    assert ("{" + t)[1..] == t;
  }

  /** Step 4 only deletes newlines. */
  lemma {:induction false} JoinEqualsKeepsText(s: string)
    ensures Drop(JoinEquals(s), IsNewline) == Drop(s, IsNewline)
    decreases |s|
  {
    if s == [] {
    } else if |s| >= 3 && s[0] == '\n' && s[1] == '=' && s[2] == '{' {
      JoinEqualsKeepsText(s[3..]);
      var rest := JoinEquals(s[3..]);
      assert JoinEquals(s) == "={" + rest;
      DropSamePrefix("={", rest, s[3..], IsNewline);
      DropStep(s, IsNewline);
      assert s[1..] == "={" + s[3..];
    } else {
      JoinEqualsKeepsText(s[1..]);
      DropSamePrefix([s[0]], JoinEquals(s[1..]), s[1..], IsNewline);
      assert s == [s[0]] + s[1..];
    }
  }

  /** Step 5 only inserts newlines. */
  lemma {:induction false} BreakAfterOpenKeepsText(s: string)
    ensures Drop(BreakAfterOpen(s), IsNewline) == Drop(s, IsNewline)
    decreases |s|
  {
    if s == [] {
    } else if |s| >= 3 && s[0] == '=' && s[1] == '{' && s[2] != '\n' {
      BreakAfterOpenKeepsText(s[3..]);
      BreakAfterOpenMatch(s);
    } else {
      BreakAfterOpenKeepsText(s[1..]);
      DropSamePrefix([s[0]], BreakAfterOpen(s[1..]), s[1..], IsNewline);
      assert s == [s[0]] + s[1..];
    }
  }

  lemma BreakAfterOpenMatch(s: string)
    requires |s| >= 3 && s[0] == '=' && s[1] == '{' && s[2] != '\n'
    requires Drop(BreakAfterOpen(s[3..]), IsNewline) == Drop(s[3..], IsNewline)
    ensures Drop(BreakAfterOpen(s), IsNewline) == Drop(s, IsNewline)
  {
    var rest := BreakAfterOpen(s[3..]);
    var x := [s[2]] + rest;
    SameHead(s[2..], rest, IsNewline);
    BreakAfterOpenUnfold(s);
    DropDelete(s[..2], '\n', x, IsNewline);
    DropSamePrefix(s[..2], x, s[2..], IsNewline);
    assert s == s[..2] + s[2..];
  }

  lemma BreakAfterOpenUnfold(s: string)
    requires |s| >= 3 && s[0] == '=' && s[1] == '{' && s[2] != '\n'
    ensures BreakAfterOpen(s) == s[..2] + ['\n'] + ([s[2]] + BreakAfterOpen(s[3..]))
  {
    assert s[..2] == ['=', '{'];
  }

  /** Step 6 only deletes whitespace and braces. */
  lemma {:induction false} DropEmptyBracesKeepsText(s: string, atLineStart: bool)
    ensures Drop(DropEmptyBraces(s, atLineStart), IsLayout) == Drop(s, IsLayout)
    decreases |s|
  {
    if s == [] {
    } else if atLineStart && EmptyBraces(s).Some? {
      DropEmptyBracesKeepsText(EmptyBraces(s).value, false);
      EmptyBracesKeepsText(s);
    } else {
      DropEmptyBracesKeepsText(s[1..], s[0] == '\n');
      DropSamePrefix([s[0]], DropEmptyBraces(s[1..], s[0] == '\n'), s[1..], IsLayout);
      assert s == [s[0]] + s[1..];
    }
  }

  /** An empty-braces match is whitespace and braces only. */
  lemma EmptyBracesKeepsText(s: string)
    requires EmptyBraces(s).Some?
    ensures Drop(s, IsLayout) == Drop(EmptyBraces(s).value, IsLayout)
  {
    var t := SpaceThenBrace(s).value;
    SpaceThenBraceLayout(s);
    SkipLayout(t, '}', EmptyBraces(s).value);
  }

  /** The whitespace and the `{` a match skips are all layout. */
  lemma SpaceThenBraceLayout(s: string)
    requires SpaceThenBrace(s).Some?
    ensures Drop(s, IsLayout) == Drop(SpaceThenBrace(s).value, IsLayout)
  {
    var t := TrimStart(s, IsPySpace);
    assert t == ['{'] + t[1..];
    SkipLayout(s, '{', t[1..]);
  }

  /** Whitespace, then a brace `b`, then `rest`, drops to `rest`. */
  lemma SkipLayout(s: string, b: char, rest: string)
    requires b == '{' || b == '}'
    requires TrimStart(s, IsPySpace) == [b] + rest
    ensures Drop(s, IsLayout) == Drop(rest, IsLayout)
  {
    DropTrimStart(s, IsPySpace, IsLayout);
    DropCons(b, rest, IsLayout);
  }

  /** An empty-braces match contains a `}`. */
  lemma EmptyBracesClose(s: string)
    requires EmptyBraces(s).Some?
    ensures '}' in s
  {
    var a := TrimStart(s, IsPySpace);
    var t := SpaceThenBrace(s).value;
    var u := TrimStart(t, IsPySpace);
    assert t == a[1..];
    assert u[0] == t[|t| - |u|];
    assert t[|t| - |u|] == s[|s| - |t| + (|t| - |u|)];
  }

  /** Text without `}` passes step 6 unchanged. */
  lemma {:induction false} DropEmptyBracesNoop(s: string, atLineStart: bool)
    requires '}' !in s
    ensures DropEmptyBraces(s, atLineStart) == s
    decreases |s|
  {
    if s != [] {
      if EmptyBraces(s).Some? {
        EmptyBracesClose(s);
      }
      assert forall c :: c in s[1..] ==> c in s;
      DropEmptyBracesNoop(s[1..], s[0] == '\n');
    }
  }

  /** The matched `{` and every character after it occur in the input. */
  lemma SpaceThenBraceMember(s: string, c: char)
    requires SpaceThenBrace(s).Some?
    ensures c in SpaceThenBrace(s).value || c == '{' ==> c in s
  {
    var t := TrimStart(s, IsPySpace);
    TrimStartMember(s, IsPySpace, c);
    assert c in t[1..] || c == '{' ==> c in t;
  }

  /** Step 3 puts no character in its output that is not in its input. */
  lemma {:induction false} CollapseEqualsSubset(s: string, c: char)
    ensures c in CollapseEquals(s) ==> c in s
    decreases |s|
  {
    if s != [] {
      if s[0] == '=' && SpaceThenBrace(s[1..]).Some? {
        CollapseEqualsSubset(SpaceThenBrace(s[1..]).value, c);
        SpaceThenBraceMember(s[1..], c);
        assert c in s[1..] ==> c in s;
      } else {
        CollapseEqualsSubset(s[1..], c);
        assert c in s[1..] ==> c in s;
      }
    }
  }

  lemma {:induction false} JoinEqualsSubset(s: string, c: char)
    ensures c in JoinEquals(s) ==> c in s
    decreases |s|
  {
    if s != [] {
      if |s| >= 3 && s[0] == '\n' && s[1] == '=' && s[2] == '{' {
        JoinEqualsSubset(s[3..], c);
        assert c in s[3..] ==> c in s;
      } else {
        JoinEqualsSubset(s[1..], c);
        assert c in s[1..] ==> c in s;
      }
    }
  }

  lemma {:induction false} DropEmptyBracesSubset(s: string, atLineStart: bool, c: char)
    ensures c in DropEmptyBraces(s, atLineStart) ==> c in s
    decreases |s|
  {
    if s != [] {
      if atLineStart && EmptyBraces(s).Some? {
        var rest := EmptyBraces(s).value;
        DropEmptyBracesSubset(rest, false, c);
        EmptyBracesMember(s, c);
      } else {
        DropEmptyBracesSubset(s[1..], s[0] == '\n', c);
        assert c in s[1..] ==> c in s;
      }
    }
  }

  lemma EmptyBracesMember(s: string, c: char)
    requires EmptyBraces(s).Some?
    ensures c in EmptyBraces(s).value ==> c in s
  {
    var t := SpaceThenBrace(s).value;
    var u := TrimStart(t, IsPySpace);
    TrimStartMember(t, IsPySpace, c);
    assert c in u[1..] ==> c in u;
    SpaceThenBraceMember(s, c);
  }

  /** The repaired text has no carriage return, and every character in it
      was in the upload or is an inserted `=` or newline. */
  lemma RepairChars(data: string, c: char)
    ensures c in Repair(data) ==> (c in data && c != '\r') || c == '=' || c == '\n'
  {
    var x1 := DropCarriageReturns(data);
    var x2 := InsertEquals(x1);
    var x3 := CollapseEquals(x2);
    var x4 := JoinEquals(x3);
    var x5 := BreakAfterOpen(x4);
    DropEmptyBracesSubset(x5, true, c);
    BreakAfterOpenKeepsText(x4);
    DropMember(x5, IsNewline, c);
    DropMember(x4, IsNewline, c);
    JoinEqualsSubset(x3, c);
    CollapseEqualsSubset(x2, c);
    InsertEqualsKeepsText(x1);
    DropMember(x2, IsEquals, c);
    DropMember(x1, IsEquals, c);
  }

  /** What the repair pass may add or remove: whitespace, braces and `=`. */
  predicate IsRepairable(c: char)
  {
    IsLayout(c) || c == '='
  }

  /** The repair pass keeps every other character, in order. */
  lemma RepairKeepsText(data: string)
    ensures Drop(Repair(data), IsRepairable) == Drop(data, IsRepairable)
  {
    var x1 := DropCarriageReturns(data);
    var x2 := InsertEquals(x1);
    var x3 := CollapseEquals(x2);
    var x4 := JoinEquals(x3);
    var x5 := BreakAfterOpen(x4);
    DropWiden(data, IsCarriageReturn, IsRepairable);
    InsertEqualsKeepsText(x1);
    DropTransfer(x2, x1, IsEquals, IsRepairable);
    CollapseEqualsKeepsText(x2);
    DropTransfer(x3, x2, IsPySpace, IsRepairable);
    JoinEqualsKeepsText(x3);
    DropTransfer(x4, x3, IsNewline, IsRepairable);
    BreakAfterOpenKeepsText(x4);
    DropTransfer(x5, x4, IsNewline, IsRepairable);
    DropEmptyBracesKeepsText(x5, true);
    DropTransfer(DropEmptyBraces(x5, true), x5, IsLayout, IsRepairable);
  }

  /** Step 2 copies a character that does not end a word before `{`. */
  lemma InsertEqualsCons(c: char, s: string)
    requires !(IsWordChar(c) && s != [] && s[0] == '{')
    ensures InsertEquals([c] + s) == [c] + InsertEquals(s)
  {
    assert ([c] + s)[1..] == s;
  }

  /** Step 2 on a word character followed by `{`. */
  lemma InsertEqualsAt(c: char, s: string)
    requires IsWordChar(c)
    ensures InsertEquals([c, '{'] + s) == [c, '=', '{'] + InsertEquals(s)
  {
    assert ([c, '{'] + s)[2..] == s;
  }

  /** Step 3 copies text without `=`. */
  lemma {:induction false} CollapseEqualsPlain(a: string, b: string)
    requires '=' !in a
    ensures CollapseEquals(a + b) == a + CollapseEquals(b)
  {
    if a != [] {
      assert (a + b)[0] == a[0] && (a + b)[1..] == a[1..] + b;
      CollapseEqualsPlain(a[1..], b);
      SeqAssoc([a[0]], a[1..], CollapseEquals(b));
      assert [a[0]] + a[1..] == a;
    } else {
      assert a + b == b;
    }
  }

  /** Step 3 keeps an `=` that is not followed by whitespace and `{`. */
  lemma CollapseEqualsKeep(s: string)
    requires SpaceThenBrace(s).None?
    ensures CollapseEquals("=" + s) == "=" + CollapseEquals(s)
  {
    assert ("=" + s)[1..] == s;
  }

  /** No newline directly before `={`. */
  predicate NoJoin(s: string)
  {
    forall i :: 0 <= i < |s| - 2 ==> !(s[i] == '\n' && s[i + 1] == '=' && s[i + 2] == '{')
  }

  /** Text with no newline before `={` passes step 4 unchanged. */
  lemma {:induction false} JoinEqualsNoop(s: string)
    requires NoJoin(s)
    ensures JoinEquals(s) == s
    decreases |s|
  {
    if s != [] {
      forall i | 0 <= i < |s| - 3
        ensures !(s[1..][i] == '\n' && s[1..][i + 1] == '=' && s[1..][i + 2] == '{')
      {
        assert s[1..][i] == s[i + 1] && s[1..][i + 1] == s[i + 2] && s[1..][i + 2] == s[i + 3];
      }
      JoinEqualsNoop(s[1..]);
    }
  }

  /** Every `={` ends its line. */
  predicate OpensEndLines(s: string)
  {
    forall i :: 0 <= i < |s| - 2 && s[i] == '=' && s[i + 1] == '{' ==> s[i + 2] == '\n'
  }

  /** Text where every `={` ends its line passes step 5 unchanged. */
  lemma {:induction false} BreakAfterOpenNoop(s: string)
    requires OpensEndLines(s)
    ensures BreakAfterOpen(s) == s
    decreases |s|
  {
    if s != [] {
      forall i | 0 <= i < |s| - 3 && s[1..][i] == '=' && s[1..][i + 1] == '{'
        ensures s[1..][i + 2] == '\n'
      {
        assert s[1..][i] == s[i + 1] && s[1..][i + 1] == s[i + 2] && s[1..][i + 2] == s[i + 3];
      }
      BreakAfterOpenNoop(s[1..]);
    }
  }

  /** Every `{` follows an `=`; at position 0 that means the text does not
      start a line. */
  predicate BracesFollowEquals(s: string, atLineStart: bool)
  {
    && (atLineStart && s != [] ==> s[0] != '{')
    && forall i :: 0 < i < |s| && s[i] == '{' ==> s[i - 1] == '='
  }

  /** Text in which every `{` follows an `=` passes step 6 unchanged: a
      `{` that the step removes starts its line or follows whitespace. */
  lemma {:induction false} DropEmptyBracesKeepsBlocks(s: string, atLineStart: bool)
    requires BracesFollowEquals(s, atLineStart)
    ensures DropEmptyBraces(s, atLineStart) == s
    decreases |s|
  {
    if s != [] {
      if atLineStart {
        NoEmptyBracesAfterEquals(s);
      }
      forall i | 0 < i < |s| - 1 && s[1..][i] == '{'
        ensures s[1..][i - 1] == '='
      {
        assert s[1..][i] == s[i + 1] && s[1..][i - 1] == s[i];
      }
      DropEmptyBracesKeepsBlocks(s[1..], s[0] == '\n');
    }
  }

  /** Where every `{` follows an `=`, no line starts with whitespace and `{`. */
  lemma {:induction false} NoEmptyBracesAfterEquals(s: string)
    requires BracesFollowEquals(s, true)
    ensures SpaceThenBrace(s).None? && EmptyBraces(s).None?
    decreases |s|
  {
    if |s| > 0 && IsPySpace(s[0]) {
      VisibleNotSpace('=');
      forall i | 0 < i < |s| - 1 && s[1..][i] == '{'
        ensures s[1..][i - 1] == '='
      {
        assert s[1..][i] == s[i + 1] && s[1..][i - 1] == s[i];
      }
      assert |s| > 1 ==> s[1..][0] == s[1];
      NoEmptyBracesAfterEquals(s[1..]);
    }
  }

  /** Step 4 copies a character that does not start `\n={`. */
  lemma JoinEqualsCons(c: char, s: string)
    requires !(c == '\n' && |s| >= 2 && s[0] == '=' && s[1] == '{')
    ensures JoinEquals([c] + s) == [c] + JoinEquals(s)
  {
    assert ([c] + s)[1..] == s;
  }

  /** Step 4 on `\n={`. */
  lemma JoinEqualsAt(s: string)
    ensures JoinEquals("\n" + ("=" + ("{" + s))) == "=" + ("{" + JoinEquals(s))
  {
    var t := "\n" + ("=" + ("{" + s));
    assert t[0] == '\n' && t[1] == '=' && t[2] == '{' && t[3..] == s;
  }

  /** Step 3 on `={`: the text is already in the form the step produces. */
  lemma CollapseEqualsOpen(t: string)
    ensures CollapseEquals("=" + ("{" + t)) == "=" + ("{" + CollapseEquals(t))
  {
    var s := "=" + ("{" + t);
    assert s[0] == '=' && s[1..] == "{" + t;
    SpaceThenBraceAt(t);
    assert "={" + CollapseEquals(t) == "=" + ("{" + CollapseEquals(t));
  }

  /** A `{` right away is a match of `SpaceThenBrace`. */
  lemma SpaceThenBraceAt(t: string)
    ensures SpaceThenBrace("{" + t) == Some(t)
  {
    VisibleNotSpace('{');
    TrimStartNoop("{" + t, IsPySpace);
    assert ("{" + t)[0] == '{' && ("{" + t)[1..] == t;
  }

  /** `\s*{` matches whitespace, a `{` and any text after it. */
  lemma SpaceThenBraceOf(w: string, t: string)
    requires forall i :: 0 <= i < |w| ==> IsPySpace(w[i])
    ensures SpaceThenBrace(w + "{" + t) == Some(t)
  {
    assert w + "{" + t == w + ("{" + t);
    TrimStartSkips(w, "{" + t, IsPySpace);
    SpaceThenBraceAt(t);
  }

  /** A match of `\s*{` splits its input into whitespace, a `{` and the
      text it returns. */
  lemma SpaceThenBraceSplit(s: string)
    requires SpaceThenBrace(s).Some?
    ensures var t := SpaceThenBrace(s).value;
            var n := |s| - |t| - 1;
            && 0 <= n && s == s[..n] + "{" + t
            && forall i :: 0 <= i < n ==> IsPySpace(s[i])
  {
    var a := TrimStart(s, IsPySpace);
    var t := a[1..];
    var n := |s| - |a|;
    assert SpaceThenBrace(s) == Some(t);
    assert s == s[..n] + "{" + t by {
      assert a == s[n..] && a == "{" + t;
      assert s[..n] + "{" + t == s[..n] + ("{" + t);
    }
    assert forall i :: 0 <= i < n ==> IsPySpace(s[i]) by {
      TrimStartPrefix(s, IsPySpace);
    }
  }

  /** Step 3 leaves text without `{` unchanged. */
  lemma {:induction false} CollapseEqualsNoBrace(s: string)
    requires '{' !in s
    ensures CollapseEquals(s) == s
    decreases |s|
  {
    if s != [] {
      assert '{' !in s[1..] by {
        assert forall i :: 0 <= i < |s| - 1 ==> s[1..][i] == s[i + 1];
      }
      if SpaceThenBrace(s[1..]).Some? {
        SpaceThenBraceMember(s[1..], '{');
      }
      CollapseEqualsNoBrace(s[1..]);
      assert [s[0]] + s[1..] == s;
    }
  }

  /** Step 5 leaves text without `{` unchanged. */
  lemma {:induction false} BreakAfterOpenNoBrace(s: string)
    requires '{' !in s
    ensures BreakAfterOpen(s) == s
    decreases |s|
  {
    if s != [] {
      assert |s| >= 2 ==> s[1] in s;
      assert '{' !in s[1..] by {
        assert forall i :: 0 <= i < |s| - 1 ==> s[1..][i] == s[i + 1];
      }
      BreakAfterOpenNoBrace(s[1..]);
      assert [s[0]] + s[1..] == s;
    }
  }

  /** Step 2 copies text without `{` that is not followed by `{`. */
  lemma {:induction false} InsertEqualsPlain(a: string, b: string)
    requires '{' !in a && (b == [] || b[0] != '{')
    ensures InsertEquals(a + b) == a + InsertEquals(b)
  {
    if a != [] {
      assert (a + b)[0] == a[0] && (a + b)[1..] == a[1..] + b;
      assert |a + b| >= 2 ==> (a + b)[1] != '{' by {
        if |a| >= 2 { assert (a + b)[1] == a[1] && a[1] in a; } else if |a + b| >= 2 { assert (a + b)[1] == b[0]; }
      }
      InsertEqualsPlain(a[1..], b);
      SeqAssoc([a[0]], a[1..], InsertEquals(b));
      assert [a[0]] + a[1..] == a;
    } else {
      assert a + b == b;
    }
  }

  /** Step 4 copies text without newlines. */
  lemma {:induction false} JoinEqualsPlain(a: string, b: string)
    requires '\n' !in a
    ensures JoinEquals(a + b) == a + JoinEquals(b)
  {
    if a != [] {
      assert (a + b)[0] == a[0] && (a + b)[1..] == a[1..] + b;
      JoinEqualsPlain(a[1..], b);
      SeqAssoc([a[0]], a[1..], JoinEquals(b));
      assert [a[0]] + a[1..] == a;
    } else {
      assert a + b == b;
    }
  }

  /** Step 5 copies text without `=`. */
  lemma {:induction false} BreakAfterOpenPlain(a: string, b: string)
    requires '=' !in a
    ensures BreakAfterOpen(a + b) == a + BreakAfterOpen(b)
  {
    if a != [] {
      assert (a + b)[0] == a[0] && (a + b)[1..] == a[1..] + b;
      BreakAfterOpenPlain(a[1..], b);
      SeqAssoc([a[0]], a[1..], BreakAfterOpen(b));
      assert [a[0]] + a[1..] == a;
    } else {
      assert a + b == b;
    }
  }

  /** Step 5 copies a character that does not start `={` before a
      character other than a newline. */
  lemma BreakAfterOpenCons(c: char, s: string)
    requires !(c == '=' && |s| >= 2 && s[0] == '{' && s[1] != '\n')
    ensures BreakAfterOpen([c] + s) == [c] + BreakAfterOpen(s)
  {
    assert ([c] + s)[1..] == s;
  }

  /** Step 6 copies text without newlines that, at the start of a line,
      starts with neither whitespace nor `{`. */
  lemma {:induction false} DropEmptyBracesPlain(a: string, b: string, atLineStart: bool)
    requires a != [] && '\n' !in a
    requires atLineStart ==> !IsPySpace(a[0]) && a[0] != '{'
    ensures DropEmptyBraces(a + b, atLineStart) == a + DropEmptyBraces(b, false)
  {
    assert (a + b)[0] == a[0] && (a + b)[1..] == a[1..] + b;
    if atLineStart {
      TrimStartNoop(a + b, IsPySpace);
    }
    if |a| > 1 {
      DropEmptyBracesPlain(a[1..], b, false);
      SeqAssoc([a[0]], a[1..], DropEmptyBraces(b, false));
      assert [a[0]] + a[1..] == a;
    } else {
      assert a[1..] + b == b && a == [a[0]];
    }
  }

  /** Step 6 past a newline: the next character starts a line. */
  lemma DropEmptyBracesNewline(t: string)
    ensures DropEmptyBraces("\n" + t, false) == "\n" + DropEmptyBraces(t, true)
  {
    assert ("\n" + t)[1..] == t;
  }
}
