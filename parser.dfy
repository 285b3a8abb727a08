/** The game's brace-delimited `key=value` text format: the parsed tree, the
    line-driven recursive-descent reader and the indenting writer. */
module Parser {
  import opened Text
  import opened Wrappers

  /** A value on the right of `=`: a (quote-stripped) string, a `yes`/`no`
      boolean, or a nested `{ ... }` block. */
  datatype Value = Str(s: string) | Bool(b: bool) | Obj(items: seq<Datum>)

  /** One item of a block: a bare string or a `key=value` entry. */
  datatype Datum = Bare(text: string) | Entry(key: string, value: Value)

  // ---------------------------------------------------------------------
  // Reading

  /** A line holding `=` cut at its first `=`. */
  function SplitAtEquals(line: string): (r: (string, string))
    requires '=' in line
    ensures line == r.0 + "=" + r.1 && '=' !in r.0
  {
    var k := IndexOf(line, '=');
    assert line == line[..k] + "=" + line[k + 1..];
    (line[..k], line[k + 1..])
  }

  /** The value of a right-hand side other than `{`. */
  function LiteralValue(text: string): Value
  {
    if text == "yes" then Bool(true)
    else if text == "no" then Bool(false)
    else Str(StripQuotes(text))
  }

  /** `s` is what is left of `t` after dropping some of its first elements. */
  ghost predicate SuffixOf<T>(s: seq<T>, t: seq<T>)
  {
    |s| <= |t| && s == t[|t| - |s|..]
  }

  lemma SuffixTrans<T>(a: seq<T>, b: seq<T>, c: seq<T>)
    requires SuffixOf(a, b) && SuffixOf(b, c)
    ensures SuffixOf(a, c)
  {
    assert b[|b| - |a|..] == c[|c| - |a|..];
  }

  /** What `parse` returns when its stream holds `lines`, together with the
      lines it leaves unread: it stops at the end of input or just after a
      line that strips to `}`. */
  function ParseLines(lines: seq<string>): (r: (seq<Datum>, seq<string>))
    ensures SuffixOf(r.1, lines)
    decreases |lines|
  {
    if lines == [] then ([], [])
    else
      var line := Strip(lines[0]);
      var tail := lines[1..];
      assert SuffixOf(tail, lines);
      if line == "}" then ([], tail)
      else if '=' !in line then
        var p := ParseLines(tail);
        SuffixTrans(p.1, tail, lines);
        ([Bare(StripQuotes(line))] + p.0, p.1)
      else
        var kt := SplitAtEquals(line);
        var key := StripQuotes(kt.0);
        if kt.1 == "{" then
          var inner := ParseLines(tail);
          SuffixTrans(inner.1, tail, lines);
          var p := ParseLines(inner.1);
          SuffixTrans(p.1, inner.1, lines);
          ([Entry(key, Obj(inner.0))] + p.0, p.1)
        else
          var p := ParseLines(tail);
          SuffixTrans(p.1, tail, lines);
          ([Entry(key, LiteralValue(kt.1))] + p.0, p.1)
  }

  /** `parse(io.StringIO(text))`. */
  function ParseText(text: string): seq<Datum>
  {
    ParseLines(SplitLines(text)).0
  }

  /** The stream `parse` reads from: its lines and a cursor that the
      recursive calls share. */
  class LineReader {
    const lines: seq<string>
    var pos: nat

    ghost predicate Valid()
      reads this
    {
      pos <= |lines|
    }

    /** The lines not read yet. */
    function Rest(): seq<string>
      reads this
      requires Valid()
    {
      lines[pos..]
    }

    constructor (lines: seq<string>)
      ensures Valid() && this.lines == lines && Rest() == lines
    {
      this.lines := lines;
      pos := 0;
    }

    /** `readline()`: `None` at the end of input, otherwise the next line. */
    method ReadLine() returns (line: Option<string>)
      requires Valid()
      modifies this
      ensures Valid()
      ensures old(Rest()) == [] ==> line.None? && pos == old(pos)
      ensures old(Rest()) != [] ==> line == Some(old(Rest())[0]) && Rest() == old(Rest())[1..]
      ensures old(pos) <= pos && (line.Some? ==> pos == old(pos) + 1)
    {
      if pos == |lines| {
        line := None;
      } else {
        line := Some(lines[pos]);
        pos := pos + 1;
      }
    }
  }

  /** One step of the reader on a line that is neither the end of input,
      nor `}`, nor the opening of a block. */
  lemma ParseFlatLine(lines: seq<string>, item: Datum)
    requires lines != [] && Strip(lines[0]) != "}"
    requires '=' !in Strip(lines[0]) ==> item == Bare(StripQuotes(Strip(lines[0])))
    requires '=' in Strip(lines[0]) ==>
      var (key, text) := SplitAtEquals(Strip(lines[0]));
      text != "{" && item == Entry(StripQuotes(key), LiteralValue(text))
    ensures ParseLines(lines).0 == [item] + ParseLines(lines[1..]).0
    ensures ParseLines(lines).1 == ParseLines(lines[1..]).1
  {
  }

  /** One step of the reader on a line that opens a block. */
  lemma ParseBlockLine(lines: seq<string>)
    requires lines != [] && '=' in Strip(lines[0]) && SplitAtEquals(Strip(lines[0])).1 == "{"
    ensures var inner := ParseLines(lines[1..]);
      && ParseLines(lines).0
         == [Entry(StripQuotes(SplitAtEquals(Strip(lines[0])).0), Obj(inner.0))] + ParseLines(inner.1).0
      && ParseLines(lines).1 == ParseLines(inner.1).1
  {
  }

  lemma SnocAssoc<T>(a: seq<T>, x: T, b: seq<T>)
    ensures a + ([x] + b) == (a + [x]) + b
  {
  }

  /** `parse(handle)`: reads items until the end of input or a `}` line,
      recursing into `{` blocks on the same stream. */
  method Parse(r: LineReader) returns (output: seq<Datum>)
    requires r.Valid()
    modifies r
    ensures r.Valid()
    ensures (output, r.Rest()) == ParseLines(old(r.Rest()))
    decreases |r.lines| - r.pos
  {
    output := [];
    ghost var start := r.Rest();
    assert [] + ParseLines(start).0 == ParseLines(start).0;
    while true
      invariant r.Valid() && old(r.pos) <= r.pos
      invariant ParseLines(start).0 == output + ParseLines(r.Rest()).0
      invariant ParseLines(start).1 == ParseLines(r.Rest()).1
      decreases |r.lines| - r.pos
    {
      ghost var before := r.Rest();
      var next := r.ReadLine();
      if next.None? {
        assert output + [] == output;
        return;
      }
      var line := Strip(next.value);
      if line == "}" {
        assert output + [] == output;
        return;
      }
      if '=' !in line {
        var item := Bare(StripQuotes(line));
        ParseFlatLine(before, item);
        SnocAssoc(output, item, ParseLines(r.Rest()).0);
        output := output + [item];
        continue;
      }
      var (key, text) := SplitAtEquals(line);
      var value: Value;
      if text == "{" {
        ParseBlockLine(before);
        var inner := Parse(r);
        value := Obj(inner);
      } else {
        if text == "yes" {
          value := Bool(true);
        } else if text == "no" {
          value := Bool(false);
        } else {
          value := Str(StripQuotes(text));
        }
        ParseFlatLine(before, Entry(StripQuotes(key), value));
      }
      var item := Entry(StripQuotes(key), value);
      SnocAssoc(output, item, ParseLines(r.Rest()).0);
      output := output + [item];
    }
  }

  /** Parses a whole text, as `parse(io.StringIO(text))` does. */
  method ParseString(text: string) returns (output: seq<Datum>)
    ensures output == ParseText(text)
  {
    var reader := new LineReader(SplitLines(text));
    output := Parse(reader);
  }

  // ---------------------------------------------------------------------
  // Writing

  /** `write_literal` on a string or a boolean: `yes`/`no`, the bare words
      `male` and `female`, and every other string in double quotes. */
  function Literal(v: Value): string
    requires !v.Obj?
  {
    match v
    case Bool(b) => if b then "yes" else "no"
    case Str(s) => if s == "male" || s == "female" then s else "\"" + s + "\""
  }

  /** A key as `write` prints it: quoted exactly when it holds a space. */
  function KeyText(key: string): string
  {
    if ' ' in key then "\"" + key + "\"" else key
  }

  /** The lines `write(data, handle, depth)` emits, without terminators. */
  function RenderLines(data: seq<Datum>, depth: nat): seq<string>
    decreases data
  {
    if data == [] then [] else RenderDatum(data[0], depth) + RenderLines(data[1..], depth)
  }

  function RenderDatum(d: Datum, depth: nat): seq<string>
    decreases d
  {
    match d
    case Bare(s) => [Tabs(depth) + Literal(Str(s))]
    case Entry(key, value) =>
      var head := Tabs(depth) + KeyText(key) + "=";
      match value
      case Obj(items) =>
        if items == [] then [head + "{}"]
        else [head + "{"] + RenderLines(items, depth + 1) + [Tabs(depth) + "}"]
      case _ => [head + Literal(value)]
  }

  /** The text `write(data, handle, depth)` emits. */
  function Render(data: seq<Datum>, depth: nat): string
  {
    Unlines(RenderLines(data, depth))
  }

  lemma {:induction false} RenderLinesAppend(a: seq<Datum>, b: seq<Datum>, depth: nat)
    ensures RenderLines(a + b, depth) == RenderLines(a, depth) + RenderLines(b, depth)
  {
    if a == [] {
      assert a + b == b;
    } else {
      assert (a + b)[0] == a[0] && (a + b)[1..] == a[1..] + b;
      RenderLinesAppend(a[1..], b, depth);
    }
  }

  /** The output stream `write` appends to. */
  class Writer {
    var text: string

    constructor ()
      ensures text == []
    {
      text := [];
    }

    method Write(s: string)
      modifies this
      ensures text == old(text) + s
    {
      text := text + s;
    }
  }

  /** `write_literal(value, handle)` for the strings and booleans a parsed
      tree holds. */
  method WriteLiteral(v: Value, w: Writer)
    requires !v.Obj?
    modifies w
    ensures w.text == old(w.text) + Literal(v)
  {
    match v {
      case Bool(b) =>
        w.Write(if b then "yes" else "no");
      case Str(s) =>
        if s == "male" || s == "female" {
          w.Write(s);
        } else {
          w.Write("\"" + s + "\"");
        }
    }
  }

  lemma UnlinesOne(x: string)
    ensures Unlines([x]) == x + "\n"
  {
    assert [x][1..] == [];
    assert x + "\n" + [] == x + "\n";
  }

  /** A line ending in `c` followed by its terminator. */
  lemma Terminated(x: string, c: string, cn: string)
    requires cn == c + "\n"
    ensures Unlines([x + c]) == x + cn
  {
    UnlinesOne(x + c);
    Assoc(x, c, "\n");
  }

  /** The text of one item, as `write` assembles it piece by piece. */
  lemma DatumText(d: Datum, depth: nat)
    ensures d.Bare? ==> Unlines(RenderDatum(d, depth)) == Tabs(depth) + Literal(Str(d.text)) + "\n"
    ensures d.Entry? && !d.value.Obj? ==>
      Unlines(RenderDatum(d, depth)) == Tabs(depth) + KeyText(d.key) + "=" + Literal(d.value) + "\n"
    ensures d.Entry? && d.value == Obj([]) ==>
      Unlines(RenderDatum(d, depth)) == Tabs(depth) + KeyText(d.key) + "=" + "{}\n"
    ensures d.Entry? && d.value.Obj? && d.value.items != [] ==>
      Unlines(RenderDatum(d, depth))
      == Tabs(depth) + KeyText(d.key) + "=" + "{\n" + Render(d.value.items, depth + 1) + Tabs(depth) + "}\n"
  {
    match d {
      case Bare(s) =>
        UnlinesOne(Tabs(depth) + Literal(Str(s)));
      case Entry(key, value) =>
        var x := Tabs(depth) + KeyText(key) + "=";
        if !value.Obj? {
          UnlinesOne(x + Literal(value));
        } else if value.items == [] {
          Terminated(x, "{}", "{}\n");
        } else {
          BlockText(x, RenderLines(value.items, depth + 1), Tabs(depth));
        }
    }
  }

  /** The text of a non-empty block: its opening line, its items and its
      closing line. */
  lemma BlockText(x: string, body: seq<string>, tabs: string)
    ensures Unlines([x + "{"] + body + [tabs + "}"]) == x + "{\n" + Unlines(body) + tabs + "}\n"
  {
    UnlinesAppend([x + "{"] + body, [tabs + "}"]);
    UnlinesAppend([x + "{"], body);
    Terminated(x, "{", "{\n");
    Terminated(tabs, "}", "}\n");
    Assoc(x + "{\n" + Unlines(body), tabs, "}\n");
  }

  /** Rendering a prefix one item longer appends that item's text. */
  lemma RenderSnoc(data: seq<Datum>, i: nat, depth: nat)
    requires i < |data|
    ensures Render(data[..i + 1], depth) == Render(data[..i], depth) + Unlines(RenderDatum(data[i], depth))
  {
    assert data[..i + 1] == data[..i] + [data[i]];
    RenderLinesAppend(data[..i], [data[i]], depth);
    assert RenderLines([data[i]], depth) == RenderDatum(data[i], depth) + RenderLines([], depth);
    assert RenderDatum(data[i], depth) + [] == RenderDatum(data[i], depth);
    UnlinesAppend(RenderLines(data[..i], depth), RenderDatum(data[i], depth));
  }

  /** `write(data, handle, depth)`: one line per item, indented by `depth`
      tabs, nested blocks at `depth + 1`. */
  method Write(data: seq<Datum>, w: Writer, depth: nat)
    modifies w
    ensures w.text == old(w.text) + Render(data, depth)
    decreases data, 1
  {
    ghost var start := w.text;
    for i := 0 to |data|
      invariant w.text == start + Render(data[..i], depth)
    {
      RenderSnoc(data, i, depth);
      Assoc(start, Render(data[..i], depth), Unlines(RenderDatum(data[i], depth)));
      WriteItem(data[i], w, depth);
    }
    assert data[..|data|] == data;
  }

  /** The body of `write`'s loop for one item. */
  method WriteItem(item: Datum, w: Writer, depth: nat)
    modifies w
    ensures w.text == old(w.text) + Unlines(RenderDatum(item, depth))
    decreases item, 0
  {
    DatumText(item, depth);
    ghost var was := w.text;
    w.Write(Tabs(depth));
    ghost var done := Tabs(depth);
    match item {
      case Bare(s) =>
        WriteLiteral(Str(s), w);
        Assoc(was, done, Literal(Str(s)));
        done := done + Literal(Str(s));
        w.Write("\n");
        Assoc(was, done, "\n");
      case Entry(key, value) =>
        w.Write(KeyText(key));
        Assoc(was, done, KeyText(key));
        done := done + KeyText(key);
        w.Write("=");
        Assoc(was, done, "=");
        done := done + "=";
        if value.Obj? {
          if value.items != [] {
            w.Write("{\n");
            Assoc(was, done, "{\n");
            done := done + "{\n";
            Write(value.items, w, depth + 1);
            Assoc(was, done, Render(value.items, depth + 1));
            done := done + Render(value.items, depth + 1);
            w.Write(Tabs(depth));
            Assoc(was, done, Tabs(depth));
            done := done + Tabs(depth);
            w.Write("}\n");
            Assoc(was, done, "}\n");
          } else {
            w.Write("{}\n");
            Assoc(was, done, "{}\n");
          }
        } else {
          WriteLiteral(value, w);
          Assoc(was, done, Literal(value));
          done := done + Literal(value);
          w.Write("\n");
          Assoc(was, done, "\n");
        }
    }
  }

  // ---------------------------------------------------------------------
  // Round trip

  /** A string that survives being written and read back: no newline, and no
      double quote at either end (the reader strips those). */
  predicate ShapedText(s: string)
  {
    '\n' !in s && (s == [] || (s[0] != '"' && s[|s| - 1] != '"'))
  }

  /** A key that survives: no `=` (the reader cuts at the first one), and
      when it is written unquoted (no space in it) no leading whitespace. */
  predicate ShapedKey(k: string)
  {
    ShapedText(k) && '=' !in k && (' ' !in k && k != [] ==> !IsPySpace(k[0]))
  }

  /** A tree `parse(write(o))` gives back: the texts are shaped, bare strings
      hold no `=`, and no block is empty (`k={}` reads back as a string). */
  predicate ShapedDatum(d: Datum)
    decreases d
  {
    match d
    case Bare(s) => ShapedText(s) && '=' !in s
    case Entry(k, v) =>
      ShapedKey(k)
      && match v
         case Str(s) => ShapedText(s)
         case Bool(_) => true
         case Obj(items) => items != [] && ShapedObject(items)
  }

  predicate ShapedObject(o: seq<Datum>)
    decreases o
  {
    forall i :: 0 <= i < |o| ==> ShapedDatum(o[i])
  }

  /** Indentation is not significant on read. */
  lemma StripIndented(depth: nat, x: string)
    requires x != [] && !IsPySpace(x[0]) && !IsPySpace(x[|x| - 1])
    ensures Strip(Tabs(depth) + x) == x
  {
    TrimStartSkips(Tabs(depth), x, IsPySpace);
    TrimNoop(x, IsPySpace);
  }

  lemma SplitAtEqualsOf(a: string, b: string)
    requires '=' !in a
    ensures SplitAtEquals(a + "=" + b) == (a, b)
  {
    assert a + "=" + b == a + ("=" + b);
    IndexOfAfter(a, "=" + b, '=');
  }

  lemma StripQuotesQuoted(s: string)
    requires s == [] || (s[0] != '"' && s[|s| - 1] != '"')
    ensures StripQuotes("\"" + s + "\"") == s
  {
    TrimWrapped(s, '"', IsQuote);
  }

  /** A written string literal: it starts with a quote or with the `m` or
      `f` of a bare gender word and ends with a quote or an `e`, it holds `=`
      exactly when the string does, and stripping its quotes gives the string
      back. */
  lemma StrLiteral(s: string)
    requires ShapedText(s)
    ensures var t := Literal(Str(s));
      && t != [] && (t[0] == '"' || t[0] == 'm' || t[0] == 'f')
      && (t[|t| - 1] == '"' || t[|t| - 1] == 'e')
      && ('=' in t <==> '=' in s)
      && StripQuotes(t) == s
  {
    if s == "male" || s == "female" {
      TrimNoop(s, IsQuote);
    } else {
      QuotedLiteral(s);
    }
  }

  lemma QuotedLiteral(s: string)
    requires ShapedText(s) && s != "male" && s != "female"
    ensures var t := Literal(Str(s));
      && t == "\"" + s + "\"" && t[0] == '"' && t[|t| - 1] == '"' && |t| >= 2
      && StripQuotes(t) == s
  {
    StripQuotesQuoted(s);
  }

  /** A written literal reads back as the same value. */
  lemma LiteralRoundTrip(v: Value)
    requires !v.Obj? && (v.Str? ==> ShapedText(v.s))
    ensures var t := Literal(v);
      && t != [] && t != "{" && !IsPySpace(t[0]) && !IsPySpace(t[|t| - 1])
      && LiteralValue(t) == v
  {
    var t := Literal(v);
    if v.Str? {
      StrLiteral(v.s);
      assert t[0] != "yes"[0] && t[0] != "no"[0] && t[0] != "{"[0];
    }
    VisibleNotSpace(t[0]);
    VisibleNotSpace(t[|t| - 1]);
  }

  /** A written key reads back as the same key. */
  lemma KeyRoundTrip(k: string)
    requires ShapedKey(k)
    ensures '=' !in KeyText(k) && StripQuotes(KeyText(k)) == k
    ensures KeyText(k) != [] ==> !IsPySpace(KeyText(k)[0])
  {
    if ' ' in k {
      QuotedKey(k);
      VisibleNotSpace('"');
    } else {
      assert KeyText(k) == k;
      TrimNoop(k, IsQuote);
    }
  }

  lemma QuotedKey(k: string)
    requires ShapedKey(k) && ' ' in k
    ensures var t := KeyText(k);
      && t == "\"" + k + "\"" && t[0] == '"' && '=' !in t && StripQuotes(t) == k
  {
    StripQuotesQuoted(k);
  }

  /** The line of an entry: indentation, key, `=`, and the right-hand side. */
  lemma EntryLine(k: string, rhs: string, depth: nat)
    requires ShapedKey(k)
    requires rhs != [] && !IsPySpace(rhs[|rhs| - 1])
    ensures var line := Tabs(depth) + KeyText(k) + "=" + rhs;
      && Strip(line) == KeyText(k) + "=" + rhs
      && Strip(line) != "}" && '=' in Strip(line)
      && SplitAtEquals(Strip(line)) == (KeyText(k), rhs)
      && StripQuotes(KeyText(k)) == k
  {
    var kt := KeyText(k);
    var x := kt + "=" + rhs;
    assert Tabs(depth) + kt + "=" + rhs == Tabs(depth) + x by {
      Assoc(Tabs(depth), kt, "=");
      Assoc(Tabs(depth), kt + "=", rhs);
    }
    assert Strip(Tabs(depth) + x) == x by {
      KeyRoundTrip(k);
      if kt == [] {
        VisibleNotSpace(x[0]);
      } else {
        assert x[0] == kt[0];
      }
      assert x[|x| - 1] == rhs[|rhs| - 1];
      StripIndented(depth, x);
    }
    assert x[|kt|] == '=' && |x| >= 2;
    assert SplitAtEquals(x) == (kt, rhs) by {
      KeyRoundTrip(k);
      SplitAtEqualsOf(kt, rhs);
    }
    KeyRoundTrip(k);
  }

  /** The line of a bare string. */
  lemma BareLine(s: string, depth: nat)
    requires ShapedText(s) && '=' !in s
    ensures var t := Literal(Str(s));
      && Strip(Tabs(depth) + t) == t
      && t != "}" && '=' !in t
      && StripQuotes(t) == s
  {
    StrLiteral(s);
    StripIndented(depth, Literal(Str(s)));
  }

  /** A rendered block followed by its closing line reads back whole. */
  lemma ParseRenderClosed(o: seq<Datum>, depth: nat)
    requires ShapedObject(o)
    ensures ParseLines(RenderLines(o, depth) + ["}"]) == (o, [])
  {
    TrimNoop("}", IsPySpace);
    ParseRenderLines(o, depth, ["}"]);
  }

  lemma ConsTail<T>(x: T, s: seq<T>)
    ensures ([x] + s)[0] == x && ([x] + s)[1..] == s
  {
  }

  /** Reading back what `write` emitted for a shaped tree, followed by the
      closing `}` of an enclosing block or by the end of input, gives back
      the tree and consumes exactly that `}`. */
  lemma {:induction false} ParseRenderLines(o: seq<Datum>, depth: nat, tail: seq<string>)
    requires ShapedObject(o)
    requires tail == [] || Strip(tail[0]) == "}"
    ensures ParseLines(RenderLines(o, depth) + tail) == (o, if tail == [] then [] else tail[1..])
    decreases o, 1
  {
    if o == [] {
      assert RenderLines(o, depth) + tail == tail;
    } else {
      var d := o[0];
      assert ShapedDatum(d);
      var after := RenderLines(o[1..], depth) + tail;
      ParseRenderLines(o[1..], depth, tail);
      SeqAssoc(RenderDatum(d, depth), RenderLines(o[1..], depth), tail);
      ParseRenderDatum(d, depth, after);
      assert o == [d] + o[1..];
    }
  }

  /** Reading back the lines of one shaped item, followed by anything,
      gives back that item and then reads on. */
  lemma {:induction false} ParseRenderDatum(d: Datum, depth: nat, after: seq<string>)
    requires ShapedDatum(d)
    ensures ParseLines(RenderDatum(d, depth) + after).0 == [d] + ParseLines(after).0
    ensures ParseLines(RenderDatum(d, depth) + after).1 == ParseLines(after).1
    decreases d, 1
  {
    match d {
      case Bare(s) =>
        BareLine(s, depth);
        var lines := [Tabs(depth) + Literal(Str(s))] + after;
        ConsTail(Tabs(depth) + Literal(Str(s)), after);
        ParseFlatLine(lines, d);
      case Entry(k, v) =>
        if v.Obj? {
          ParseRenderBlock(k, v.items, depth, after);
        } else {
          LiteralRoundTrip(v);
          EntryLine(k, Literal(v), depth);
          var line := Tabs(depth) + KeyText(k) + "=" + Literal(v);
          ConsTail(line, after);
          ParseFlatLine([line] + after, d);
        }
    }
  }

  /** The lines of a non-empty block entry followed by more lines: its
      opening line, then its items, its closing line and the rest. */
  lemma BlockLines(k: string, items: seq<Datum>, depth: nat, after: seq<string>)
    requires items != []
    ensures RenderDatum(Entry(k, Obj(items)), depth) + after
      == [Tabs(depth) + KeyText(k) + "=" + "{"] + (RenderLines(items, depth + 1) + ([Tabs(depth) + "}"] + after))
  {
    var head := [Tabs(depth) + KeyText(k) + "=" + "{"];
    var body := RenderLines(items, depth + 1);
    var close := [Tabs(depth) + "}"];
    assert RenderDatum(Entry(k, Obj(items)), depth) == head + body + close;
    SeqAssoc(head + body, close, after);
    SeqAssoc(head, body, close + after);
  }

  /** Reading a line that opens a block named `key`, followed by `rest`:
      the block holds what the nested read returns, and reading goes on
      after it. */
  lemma ParseOpening(line: string, key: string, rest: seq<string>)
    requires '=' in Strip(line) && SplitAtEquals(Strip(line)).1 == "{"
    requires StripQuotes(SplitAtEquals(Strip(line)).0) == key
    ensures var inner := ParseLines(rest);
      && ParseLines([line] + rest).0 == [Entry(key, Obj(inner.0))] + ParseLines(inner.1).0
      && ParseLines([line] + rest).1 == ParseLines(inner.1).1
  {
    ConsTail(line, rest);
    ParseBlockLine([line] + rest);
  }

  /** Reading a line that opens block `k`, followed by `rest`. */
  lemma ParseOpenLine(k: string, depth: nat, rest: seq<string>)
    requires ShapedKey(k)
    ensures var lines := [Tabs(depth) + KeyText(k) + "=" + "{"] + rest;
      var inner := ParseLines(rest);
      && ParseLines(lines).0 == [Entry(k, Obj(inner.0))] + ParseLines(inner.1).0
      && ParseLines(lines).1 == ParseLines(inner.1).1
  {
    var head := Tabs(depth) + KeyText(k) + "=" + "{";
    EntryLine(k, "{", depth);
    ConsTail(head, rest);
    ParseBlockLine([head] + rest);
  }

  /** The lines of a non-empty block entry read back as that entry. */
  lemma {:induction false} ParseRenderBlock(k: string, items: seq<Datum>, depth: nat, after: seq<string>)
    requires ShapedKey(k) && items != [] && ShapedObject(items)
    ensures var lines := RenderDatum(Entry(k, Obj(items)), depth) + after;
      && ParseLines(lines).0 == [Entry(k, Obj(items))] + ParseLines(after).0
      && ParseLines(lines).1 == ParseLines(after).1
    decreases Entry(k, Obj(items)), 0
  {
    var close := Tabs(depth) + "}";
    var closing := [close] + after;
    StripIndented(depth, "}");
    ConsTail(close, after);
    ParseRenderLines(items, depth + 1, closing);
    assert ParseLines(RenderLines(items, depth + 1) + closing) == (items, after);
    BlockLines(k, items, depth, after);
    ParseOpenLine(k, depth, RenderLines(items, depth + 1) + closing);
  }

  predicate NoNewlines(lines: seq<string>)
  {
    forall i :: 0 <= i < |lines| ==> '\n' !in lines[i]
  }

  lemma NoNewlinesAppend(a: seq<string>, b: seq<string>)
    requires NoNewlines(a) && NoNewlines(b)
    ensures NoNewlines(a + b)
  {
    assert forall i :: 0 <= i < |a + b| ==> (a + b)[i] == if i < |a| then a[i] else b[i - |a|];
  }

  /** A line of `write` built from newline-free pieces. */
  lemma LineNoNewline(depth: nat, a: string, b: string)
    requires '\n' !in a && '\n' !in b
    ensures '\n' !in Tabs(depth) + a + b
  {
    assert forall i :: 0 <= i < |Tabs(depth)| ==> Tabs(depth)[i] != '\n';
  }

  lemma KeyNoNewline(k: string)
    requires ShapedKey(k)
    ensures '\n' !in KeyText(k) + "="
  {
    if ' ' in k {
      assert KeyText(k) + "=" == "\"" + k + "\"" + "=";
    } else {
      assert KeyText(k) + "=" == k + "=";
    }
  }

  lemma LiteralNoNewline(v: Value)
    requires !v.Obj? && (v.Str? ==> ShapedText(v.s))
    ensures '\n' !in Literal(v)
  {
    match v
    case Bool(b) =>
      assert Literal(v) == if b then "yes" else "no";
    case Str(s) =>
      if s == "male" || s == "female" {
        assert Literal(v) == s;
      } else {
        var t := Literal(v);
        assert t == "\"" + s + "\"";
        assert forall i :: 0 <= i < |t| ==> t[i] == '"' || t[i] == s[i - 1];
      }
  }

  /** Every line `write` emits for a shaped tree is free of newlines. */
  lemma {:induction false} RenderedLinesNoNewline(o: seq<Datum>, depth: nat)
    requires ShapedObject(o)
    ensures NoNewlines(RenderLines(o, depth))
    decreases o, 1
  {
    if o != [] {
      assert ShapedDatum(o[0]);
      DatumNoNewline(o[0], depth);
      RenderedLinesNoNewline(o[1..], depth);
      NoNewlinesAppend(RenderDatum(o[0], depth), RenderLines(o[1..], depth));
    }
  }

  lemma {:induction false} DatumNoNewline(d: Datum, depth: nat)
    requires ShapedDatum(d)
    ensures NoNewlines(RenderDatum(d, depth))
    decreases d, 0
  {
    match d {
      case Bare(s) =>
        LiteralNoNewline(Str(s));
        LineNoNewline(depth, [], Literal(Str(s)));
        assert Tabs(depth) + [] == Tabs(depth);
      case Entry(k, v) =>
        KeyNoNewline(k);
        var x := KeyText(k) + "=";
        if v.Obj? {
          if v.items == [] {
            LineNoNewline(depth, x, "{}");
          } else {
            LineNoNewline(depth, x, "{");
            LineNoNewline(depth, "}", []);
            assert Tabs(depth) + "}" + [] == Tabs(depth) + "}";
            RenderedLinesNoNewline(v.items, depth + 1);
            var open := [Tabs(depth) + x + "{"];
            NoNewlinesAppend(open, RenderLines(v.items, depth + 1));
            NoNewlinesAppend(open + RenderLines(v.items, depth + 1), [Tabs(depth) + "}"]);
          }
        } else {
          LiteralNoNewline(v);
          LineNoNewline(depth, x, Literal(v));
        }
    }
  }

  /** An empty block is written `k={}`, and that line reads back as the
      string `{}`, not as an empty block. */
  lemma EmptyBlockReadsAsText(k: string)
    requires ShapedKey(k)
    ensures ParseText(Render([Entry(k, Obj([]))], 0)) == [Entry(k, Str("{}"))]
  {
    ReadEmptyBlockLine(k);
    EmptyBlockLines(k);
  }

  /** The line `k={}` alone reads as the entry `k` holding the string `{}`. */
  lemma ReadEmptyBlockLine(k: string)
    requires ShapedKey(k)
    ensures ParseLines([Tabs(0) + KeyText(k) + "=" + "{}"]).0 == [Entry(k, Str("{}"))]
  {
    var line := Tabs(0) + KeyText(k) + "=" + "{}";
    var x := Strip(line);
    assert x != "}" && '=' in x && SplitAtEquals(x) == (KeyText(k), "{}") && StripQuotes(KeyText(k)) == k by {
      EntryLine(k, "{}", 0);
    }
    assert LiteralValue("{}") == Str("{}") by {
      EmptyBlockLiteral();
    }
    ParseFlatLine([line], Entry(k, Str("{}")));
    assert [line][1..] == [];
  }

  /** An empty block is written as the one line `k={}`. */
  lemma EmptyBlockLines(k: string)
    requires ShapedKey(k)
    ensures SplitLines(Render([Entry(k, Obj([]))], 0)) == [Tabs(0) + KeyText(k) + "=" + "{}"]
  {
    var d := Entry(k, Obj([]));
    var line := Tabs(0) + KeyText(k) + "=" + "{}";
    assert Render([d], 0) == line + ("\n" + []) by {
      DatumText(d, 0);
      assert RenderLines([d], 0) == RenderDatum(d, 0) + RenderLines([], 0);
    }
    KeyNoNewline(k);
    LineNoNewline(0, KeyText(k) + "=", "{}");
    assert Tabs(0) + (KeyText(k) + "=") + "{}" == line;
    SplitLinesCons(line, []);
  }

  /** `{}` is neither `yes` nor `no` and has no quotes to strip. */
  lemma EmptyBlockLiteral()
    ensures LiteralValue("{}") == Str("{}")
  {
    var t := "{}";
    assert |t| == 2 && t[0] == '{' && t[1] == '}';
    assert t != "yes" && t != "no" by {
      assert |"yes"| == 3 && "no"[0] == 'n';
    }
    TrimNoop(t, IsQuote);
  }

  /** Round trip: `parse(write(o))` gives back `o` for every shaped tree. */
  lemma ParseWriteRoundTrip(o: seq<Datum>)
    requires ShapedObject(o)
    ensures ParseText(Render(o, 0)) == o
  {
    RenderedLinesNoNewline(o, 0);
    SplitUnlines(RenderLines(o, 0));
    ParseRenderLines(o, 0, []);
    assert RenderLines(o, 0) + [] == RenderLines(o, 0);
  }
}
