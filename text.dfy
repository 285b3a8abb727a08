/** String helpers shared by the models: the whitespace classes of Python and
    JavaScript, stripping, prefix tests, joining and line splitting. */
module Text {

  /** Python's `str.isspace()`, which is also what `str.strip()` and the
      regular-expression class `\s` use on `str` values. */
  predicate IsPySpace(c: char)
  {
    c == ' ' || c == '\t' || c == '\n' || c == '\r' || c == '\U{B}' || c == '\U{C}'
    || ('\U{1C}' <= c <= '\U{1F}') || c == '\U{85}' || c == '\U{A0}' || c == '\U{1680}'
    || ('\U{2000}' <= c <= '\U{200A}') || c == '\U{2028}' || c == '\U{2029}' || c == '\U{202F}'
    || c == '\U{205F}' || c == '\U{3000}'
  }

  /** Visible ASCII characters are not whitespace. */
  lemma VisibleNotSpace(c: char)
    requires '!' <= c <= '~'
    ensures !IsPySpace(c) && !IsJsSpace(c)
  {
  }

  /** JavaScript's WhiteSpace and LineTerminator characters, which
      `String.prototype.trim` removes. */
  predicate IsJsSpace(c: char)
  {
    c == ' ' || c == '\t' || c == '\n' || c == '\r' || c == '\U{B}' || c == '\U{C}'
    || c == '\U{A0}' || c == '\U{1680}' || ('\U{2000}' <= c <= '\U{200A}') || c == '\U{2028}'
    || c == '\U{2029}' || c == '\U{202F}' || c == '\U{205F}' || c == '\U{3000}' || c == '\U{FEFF}'
  }

  /** Drops the leading characters satisfying `p`. */
  function TrimStart(s: string, p: char -> bool): (r: string)
    ensures |r| <= |s| && r == s[|s| - |r|..]
    ensures r == [] || !p(r[0])
  {
    if |s| > 0 && p(s[0]) then TrimStart(s[1..], p) else s
  }

  /** Drops the trailing characters satisfying `p`. */
  function TrimEnd(s: string, p: char -> bool): (r: string)
    ensures |r| <= |s| && r == s[..|r|]
    ensures r == [] || !p(r[|r| - 1])
  {
    if |s| > 0 && p(s[|s| - 1]) then TrimEnd(s[..|s| - 1], p) else s
  }

  function Trim(s: string, p: char -> bool): string
  {
    TrimEnd(TrimStart(s, p), p)
  }

  /** Python `s.strip()`. */
  function Strip(s: string): string
  {
    Trim(s, IsPySpace)
  }

  predicate IsQuote(c: char)
  {
    c == '"'
  }

  /** Python `s.strip('"')`: removes every leading and trailing double quote. */
  function StripQuotes(s: string): string
  {
    Trim(s, IsQuote)
  }

  /** JavaScript `s.trim()`. */
  function JsTrim(s: string): string
  {
    Trim(s, IsJsSpace)
  }

  lemma TrimStartNoop(s: string, p: char -> bool)
    requires s == [] || !p(s[0])
    ensures TrimStart(s, p) == s
  {
  }

  lemma TrimEndNoop(s: string, p: char -> bool)
    requires s == [] || !p(s[|s| - 1])
    ensures TrimEnd(s, p) == s
  {
  }

  /** A string whose two ends do not satisfy `p` is its own trim. */
  lemma TrimNoop(s: string, p: char -> bool)
    requires s == [] || (!p(s[0]) && !p(s[|s| - 1]))
    ensures Trim(s, p) == s
  {
    TrimStartNoop(s, p);
    TrimEndNoop(s, p);
  }

  lemma TrimStartCons(c: char, s: string, p: char -> bool)
    requires p(c)
    ensures TrimStart([c] + s, p) == TrimStart(s, p)
  {
    assert ([c] + s)[0] == c && ([c] + s)[1..] == s;
  }

  lemma TrimEndSnoc(s: string, c: char, p: char -> bool)
    requires p(c)
    ensures TrimEnd(s + [c], p) == TrimEnd(s, p)
  {
    assert (s + [c])[|s|] == c && (s + [c])[..|s|] == s;
  }

  /** Trimming a string wrapped in one removable character on each side gives
      the string back when its own ends are not removable. */
  lemma TrimWrapped(s: string, c: char, p: char -> bool)
    requires p(c) && (s == [] || (!p(s[0]) && !p(s[|s| - 1])))
    ensures Trim([c] + s + [c], p) == s
  {
    assert [c] + s + [c] == [c] + (s + [c]);
    TrimStartCons(c, s + [c], p);
    if s == [] {
      assert s + [c] == [c] + [];
      TrimStartCons(c, [], p);
    } else {
      assert (s + [c])[0] == s[0];
      TrimStartNoop(s + [c], p);
      TrimEndSnoc(s, c, p);
      TrimEndNoop(s, p);
    }
  }

  /** Leading characters that `p` removes do not change the trim. */
  lemma {:induction false} TrimStartSkips(pre: string, s: string, p: char -> bool)
    requires forall i :: 0 <= i < |pre| ==> p(pre[i])
    ensures TrimStart(pre + s, p) == TrimStart(s, p)
  {
    if pre != [] {
      assert (pre + s)[0] == pre[0] && (pre + s)[1..] == pre[1..] + s;
      TrimStartSkips(pre[1..], s, p);
    } else {
      assert pre + s == s;
    }
  }

  /** Everything `TrimStart` removes satisfies `p`. */
  lemma {:induction false} TrimStartPrefix(s: string, p: char -> bool)
    ensures forall i :: 0 <= i < |s| - |TrimStart(s, p)| ==> p(s[i])
  {
    if |s| > 0 && p(s[0]) {
      TrimStartPrefix(s[1..], p);
      forall i | 0 <= i < |s| - |TrimStart(s, p)|
        ensures p(s[i])
      {
        if i > 0 {
          assert s[i] == s[1..][i - 1];
        }
      }
    }
  }

  /** `TrimStart` keeps only characters of its input. */
  lemma {:induction false} TrimStartMember(s: string, p: char -> bool, c: char)
    ensures c in TrimStart(s, p) ==> c in s
  {
    if |s| > 0 && p(s[0]) {
      TrimStartMember(s[1..], p, c);
      assert c in s[1..] ==> c in s;
    }
  }

  /** The characters of `s` that `p` does not select, in order. */
  function Drop(s: string, p: char -> bool): (r: string)
    ensures |r| <= |s|
  {
    if s == [] then []
    else (if p(s[0]) then [] else [s[0]]) + Drop(s[1..], p)
  }

  /** `Drop` keeps exactly the characters `p` does not select. */
  lemma {:induction false} DropMember(s: string, p: char -> bool, c: char)
    ensures c in Drop(s, p) <==> c in s && !p(c)
  {
    if s != [] {
      DropMember(s[1..], p, c);
      assert c in s <==> c == s[0] || c in s[1..];
    }
  }

  lemma {:induction false} DropAppend(a: string, b: string, p: char -> bool)
    ensures Drop(a + b, p) == Drop(a, p) + Drop(b, p)
  {
    if a != [] {
      assert (a + b)[0] == a[0] && (a + b)[1..] == a[1..] + b;
      DropAppend(a[1..], b, p);
      SeqAssoc(if p(a[0]) then [] else [a[0]], Drop(a[1..], p), Drop(b, p));
    } else {
      assert a + b == b;
    }
  }

  /** A string made only of selected characters drops away entirely. */
  lemma {:induction false} DropAll(s: string, p: char -> bool)
    requires forall i :: 0 <= i < |s| ==> p(s[i])
    ensures Drop(s, p) == []
  {
    if s != [] {
      DropAll(s[1..], p);
    }
  }

  /** A string with no selected character is kept whole. */
  lemma {:induction false} DropNone(s: string, p: char -> bool)
    requires forall i :: 0 <= i < |s| ==> !p(s[i])
    ensures Drop(s, p) == s
  {
    if s != [] {
      DropNone(s[1..], p);
    }
  }

  /** A prefix with no selected character survives `Drop` whole. */
  lemma DropKept(a: string, b: string, p: char -> bool)
    requires forall i :: 0 <= i < |a| ==> !p(a[i])
    ensures Drop(a + b, p) == a + Drop(b, p)
  {
    DropAppend(a, b, p);
    DropNone(a, p);
  }

  /** Deleting one selected character does not change `Drop`. */
  lemma DropDelete(a: string, c: char, b: string, p: char -> bool)
    requires p(c)
    ensures Drop(a + [c] + b, p) == Drop(a + b, p)
  {
    DropAppend(a + [c], b, p);
    DropAppend(a, [c], p);
    DropCons(c, [], p);
    DropAppend(a, b, p);
  }

  /** Equal `Drop`s stay equal under a common prefix. */
  lemma DropSamePrefix(a: string, x: string, y: string, p: char -> bool)
    requires Drop(x, p) == Drop(y, p)
    ensures Drop(a + x, p) == Drop(a + y, p)
  {
    DropAppend(a, x, p);
    DropAppend(a, y, p);
  }

  /** Dropping more after dropping less is dropping more. */
  lemma {:induction false} DropWiden(s: string, p: char -> bool, q: char -> bool)
    requires forall c :: p(c) ==> q(c)
    ensures Drop(Drop(s, p), q) == Drop(s, q)
  {
    if s != [] {
      DropWiden(s[1..], p, q);
      DropStep(s, q);
      if p(s[0]) {
        assert Drop(s, p) == Drop(s[1..], p);
      } else {
        assert Drop(s, p) == [s[0]] + Drop(s[1..], p);
        DropCons(s[0], Drop(s[1..], p), q);
      }
    }
  }

  /** Texts that agree once `p` is dropped agree once more is dropped. */
  lemma DropTransfer(x: string, y: string, p: char -> bool, q: char -> bool)
    requires forall c :: p(c) ==> q(c)
    requires Drop(x, p) == Drop(y, p)
    ensures Drop(x, q) == Drop(y, q)
  {
    DropWiden(x, p, q);
    DropWiden(y, p, q);
  }

  /** What `TrimStart` removes, a wider `Drop` removes anyway. */
  lemma {:induction false} DropTrimStart(s: string, p: char -> bool, q: char -> bool)
    requires forall c :: p(c) ==> q(c)
    ensures Drop(s, q) == Drop(TrimStart(s, p), q)
  {
    if |s| > 0 && p(s[0]) {
      DropTrimStart(s[1..], p, q);
      DropStep(s, q);
    }
  }

  /** A text and its first character put before another tail agree after
      `Drop` when the tails do. */
  lemma SameHead(s: string, rest: string, p: char -> bool)
    requires s != [] && Drop(rest, p) == Drop(s[1..], p)
    ensures Drop([s[0]] + rest, p) == Drop(s, p)
  {
    DropCons(s[0], rest, p);
    DropStep(s, p);
  }

  /** One step of `Drop`. */
  lemma DropStep(s: string, p: char -> bool)
    requires s != []
    ensures Drop(s, p) == (if p(s[0]) then [] else [s[0]]) + Drop(s[1..], p)
  {
  }

  /** `Drop` of a string that starts with one known character. */
  lemma DropCons(c: char, s: string, p: char -> bool)
    ensures Drop([c] + s, p) == (if p(c) then [] else [c]) + Drop(s, p)
  {
    assert ([c] + s)[0] == c && ([c] + s)[1..] == s;
  }

  lemma SeqAssoc<T>(a: seq<T>, b: seq<T>, c: seq<T>)
    ensures (a + b) + c == a + (b + c)
  {
  }

  /** `n` tab characters, the indentation `write` emits at depth `n`. */
  function Tabs(n: nat): (r: string)
    ensures |r| == n && forall i :: 0 <= i < n ==> r[i] == '\t'
  {
    if n == 0 then [] else Tabs(n - 1) + ['\t']
  }

  /** Python `sep.join(parts)`. */
  function Join(sep: string, parts: seq<string>): string
  {
    if |parts| == 0 then []
    else if |parts| == 1 then parts[0]
    else parts[0] + sep + Join(sep, parts[1..])
  }

  /** Index of the first occurrence of `c`, if any. */
  function IndexOf(s: string, c: char): (r: int)
    ensures -1 <= r < |s|
    ensures r == -1 <==> c !in s
    ensures r >= 0 ==> s[r] == c && c !in s[..r]
  {
    if |s| == 0 then -1
    else if s[0] == c then 0
    else var k := IndexOf(s[1..], c); if k == -1 then -1 else k + 1
  }

  /** The lines `io.StringIO(text).readline()` returns, one by one, with
      their `\n` terminators removed. An empty string has no lines; a final
      line without terminator is still a line. */
  function SplitLines(text: string): (r: seq<string>)
    ensures forall i :: 0 <= i < |r| ==> '\n' !in r[i]
    decreases |text|
  {
    if text == [] then []
    else
      var k := IndexOf(text, '\n');
      if k == -1 then [text] else [text[..k]] + SplitLines(text[k + 1..])
  }

  /** Each line followed by `\n`: what a writer that ends every line emits. */
  function Unlines(lines: seq<string>): string
  {
    if lines == [] then [] else lines[0] + "\n" + Unlines(lines[1..])
  }

  lemma {:induction false} UnlinesAppend(a: seq<string>, b: seq<string>)
    ensures Unlines(a + b) == Unlines(a) + Unlines(b)
  {
    if a != [] {
      assert (a + b)[0] == a[0] && (a + b)[1..] == a[1..] + b;
      UnlinesAppend(a[1..], b);
      assert Unlines(a + b) == a[0] + "\n" + (Unlines(a[1..]) + Unlines(b));
    } else {
      assert a + b == b;
    }
  }

  /** Reading back what was written line by line gives the same lines, as
      long as no line holds a newline of its own. */
  lemma {:induction false} SplitUnlines(lines: seq<string>)
    requires forall i :: 0 <= i < |lines| ==> '\n' !in lines[i]
    ensures SplitLines(Unlines(lines)) == lines
  {
    if lines != [] {
      SplitUnlinesCons(lines[0], lines[1..]);
      assert lines == [lines[0]] + lines[1..];
      SplitUnlines(lines[1..]);
    }
  }

  /** The first line written is the first line read back. */
  lemma SplitUnlinesCons(l: string, rest: seq<string>)
    requires '\n' !in l
    ensures SplitLines(Unlines([l] + rest)) == [l] + SplitLines(Unlines(rest))
  {
    assert ([l] + rest)[0] == l && ([l] + rest)[1..] == rest;
    Assoc(l, "\n", Unlines(rest));
    SplitLinesCons(l, Unlines(rest));
  }

  /** A line, its terminator and more text: the line is read first. */
  lemma SplitLinesCons(l: string, u: string)
    requires '\n' !in l
    ensures SplitLines(l + ("\n" + u)) == [l] + SplitLines(u)
  {
    var t := l + ("\n" + u);
    IndexOfAfter(l, "\n" + u, '\n');
    assert t[..|l|] == l && t[|l| + 1..] == u;
  }

  /** A last line without terminator is still read. */
  lemma SplitLinesLast(l: string)
    requires l != [] && '\n' !in l
    ensures SplitLines(l) == [l]
  {
  }

  lemma Assoc(a: string, b: string, c: string)
    ensures (a + b) + c == a + (b + c)
  {
  }

  lemma IndexOfAfter(a: string, b: string, c: char)
    requires c !in a && |b| > 0 && b[0] == c
    ensures IndexOf(a + b, c) == |a|
  {
    if a != [] {
      assert (a + b)[1..] == a[1..] + b;
      IndexOfAfter(a[1..], b, c);
    }
  }
}
