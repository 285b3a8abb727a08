/** The upload page's preview of a save file: a scanner that counts braces
    to cut the text into one chunk per empire, and the extraction of each
    chunk's name and ethics. JavaScript's string semantics are written out:
    `indexOf` with a start position, `substring` with clamping and swapped
    bounds, `trim`, `split("\n")` and first-match `replace`. */
module Upload {
  import opened Wrappers
  import opened Text

  // ---------------------------------------------------------------------
  // JavaScript string operations

  /** `s.indexOf(c, from)`: the first position at or after `from` (taken
      as 0 when negative) that holds `c`, or -1. */
  function JsIndexOf(s: string, c: char, from: int): (r: int)
    ensures -1 <= r < |s|
    ensures r >= 0 ==> s[r] == c && r >= from && forall i :: from <= i < r && 0 <= i ==> s[i] != c
    ensures r == -1 ==> forall i :: from <= i < |s| && 0 <= i ==> s[i] != c
    decreases |s| - from
  {
    if from < 0 then JsIndexOf(s, c, 0)
    else if from >= |s| then -1
    else if s[from] == c then from
    else JsIndexOf(s, c, from + 1)
  }

  /** `s.substring(a, b)`: both bounds clamped to the string, and swapped
      when the first is the larger. */
  function JsSubstring(s: string, a: int, b: int): (r: string)
    ensures |r| <= |s|
  {
    var x := if a < 0 then 0 else if a > |s| then |s| else a;
    var y := if b < 0 then 0 else if b > |s| then |s| else b;
    if x <= y then s[x..y] else s[y..x]
  }

  /** `s.split("\n")`: the pieces between newlines; never empty. */
  function JsSplitLines(s: string): (r: seq<string>)
    ensures |r| >= 1
    ensures forall i :: 0 <= i < |r| ==> '\n' !in r[i]
    decreases |s|
  {
    var k := IndexOf(s, '\n');
    if k == -1 then [s] else [s[..k]] + JsSplitLines(s[k + 1..])
  }

  // ---------------------------------------------------------------------
  // The brace scanner

  /** Where `processEmpires` is: the start of the current empire, the
      position read up to, and the nesting depth. */
  datatype Cursor = Cursor(start: int, offset: int, depth: int)

  /** What one turn of the scanning loop does: the chunk it hands to
      `processEmpire`, if any, and where it goes on from, unless it
      returns. */
  datatype Turn = Turn(chunk: Option<string>, next: Option<Cursor>)

  /** One turn of the loop in `processEmpires`. When no `}` remains, a `{`
      still counts as a close (`nextOpen < -1` never holds), and a close
      that leaves the depth nonzero sets the offset to -1, so reading
      starts over from the beginning. */
  function Step(data: string, c: Cursor): Turn
  {
    var nextOpen := JsIndexOf(data, '{', c.offset + 1);
    var nextClose := JsIndexOf(data, '}', c.offset + 1);
    if nextOpen == -1 && nextClose == -1 then Turn(None, None)
    else if nextOpen != -1 && nextOpen < nextClose then Turn(None, Some(Cursor(c.start, nextOpen, c.depth + 1)))
    else if c.depth - 1 != 0 then Turn(None, Some(Cursor(c.start, nextClose, c.depth - 1)))
    else
      var chunk := JsSubstring(data, c.start, nextClose);
      if nextOpen == -1 then Turn(Some(chunk), None)
      else Turn(Some(chunk), Some(Cursor(nextClose + 1, nextOpen, 1)))
  }

  /** Where scanning begins: at the first `{`, one level deep. */
  function Initial(data: string): Cursor
  {
    Cursor(0, JsIndexOf(data, '{', 0), 1)
  }

  /** The chunks of at most `fuel` turns from `c`, and whether the loop
      returned within them. */
  function Run(data: string, c: Cursor, fuel: nat): (r: (seq<string>, bool))
    decreases fuel
  {
    if fuel == 0 then ([], false)
    else
      var t := Step(data, c);
      var out := if t.chunk.Some? then [t.chunk.value] else [];
      if t.next.None? then (out, true)
      else
        var rest := Run(data, t.next.value, fuel - 1);
        (out + rest.0, rest.1)
  }

  /** `processEmpires`, run for at most `fuel` turns of its loop: the name
      and ethics of each chunk, in order, and whether the loop returned. */
  method ProcessEmpires(data: string, fuel: nat) returns (empires: seq<(string, seq<string>)>, finished: bool)
    ensures finished == Run(data, Initial(data), fuel).1
    ensures empires == Previews(Run(data, Initial(data), fuel).0)
  {
    var cursor := Cursor(0, JsIndexOf(data, '{', 0), 1);
    var left := fuel;
    ghost var chunks: seq<string> := [];
    empires := [];
    assert chunks + Run(data, cursor, fuel).0 == Run(data, cursor, fuel).0;
    while left > 0
      invariant Run(data, Initial(data), fuel) == (chunks + Run(data, cursor, left).0, Run(data, cursor, left).1)
      invariant empires == Previews(chunks)
    {
      var chunk, next := ScanTurn(data, cursor);
      Advance(data, cursor, left, chunks, chunk, next);
      empires := AppendPreview(chunks, empires, chunk);
      chunks := chunks + Emitted(chunk);
      if next.None? {
        finished := true;
        return;
      }
      cursor, left := next.value, left - 1;
    }
    finished := false;
    assert chunks + [] == chunks;
  }

  /** One turn of the loop in `processEmpires`: the two searches from the
      offset, then a deeper level, a shallower one, or the end of an
      empire. */
  method ScanTurn(data: string, cursor: Cursor) returns (chunk: Option<string>, next: Option<Cursor>)
    ensures Step(data, cursor) == Turn(chunk, next)
  {
    var nextOpen := JsIndexOf(data, '{', cursor.offset + 1);
    var nextClose := JsIndexOf(data, '}', cursor.offset + 1);
    if nextOpen == -1 && nextClose == -1 {
      return None, None;
    }
    if nextOpen != -1 && nextOpen < nextClose {
      return None, Some(Cursor(cursor.start, nextOpen, cursor.depth + 1));
    }
    var depth := cursor.depth - 1;
    if depth != 0 {
      return None, Some(Cursor(cursor.start, nextClose, depth));
    }
    chunk := Some(JsSubstring(data, cursor.start, nextClose));
    if nextOpen == -1 {
      return chunk, None;
    }
    next := Some(Cursor(nextClose + 1, nextOpen, 1));
  }

  /** The previews of the chunks so far, with that of the chunk a turn
      cuts, if any. */
  method AppendPreview(ghost chunks: seq<string>, empires: seq<(string, seq<string>)>, chunk: Option<string>)
    returns (r: seq<(string, seq<string>)>)
    requires empires == Previews(chunks)
    ensures r == Previews(chunks + Emitted(chunk))
  {
    if chunk.Some? {
      var empire := ProcessEmpire(chunk.value);
      MapSnoc(chunks, chunk.value, EmpireOf);
      r := empires + [empire];
    } else {
      assert chunks + Emitted(chunk) == chunks;
      r := empires;
    }
  }

  /** `f` applied to each element, in order. */
  function Map<A, B>(xs: seq<A>, f: A -> B): (r: seq<B>)
  {
    if xs == [] then [] else Map(xs[..|xs| - 1], f) + [f(xs[|xs| - 1])]
  }

  lemma MapSnoc<A, B>(xs: seq<A>, x: A, f: A -> B)
    ensures Map(xs + [x], f) == Map(xs, f) + [f(x)]
  {
    assert (xs + [x])[..|xs|] == xs;
  }

  lemma {:induction false} MapInOrder<A, B>(xs: seq<A>, f: A -> B)
    ensures |Map(xs, f)| == |xs|
    ensures forall i :: 0 <= i < |xs| ==> Map(xs, f)[i] == f(xs[i])
  {
    if xs != [] {
      var init := xs[..|xs| - 1];
      MapInOrder(init, f);
      assert forall i :: 0 <= i < |init| ==> init[i] == xs[i];
    }
  }

  /** What the page shows for the chunks, in order. */
  function Previews(chunks: seq<string>): seq<(string, seq<string>)>
  {
    Map(chunks, EmpireOf)
  }

  /** One preview per chunk, each the name and ethics of that chunk. */
  lemma PreviewsInOrder(chunks: seq<string>)
    ensures |Previews(chunks)| == |chunks|
    ensures forall i :: 0 <= i < |chunks| ==> Previews(chunks)[i] == EmpireOf(chunks[i])
  {
    MapInOrder(chunks, EmpireOf);
  }

  /** The chunk a turn cuts, if any, as a sequence. */
  function Emitted(chunk: Option<string>): seq<string>
  {
    if chunk.Some? then [chunk.value] else []
  }

  /** One turn of the run: what the chunks cut so far and the run from `c`
      give is what they give with the turn's chunk added and the run from
      the next cursor, or alone when the turn returns. */
  lemma Advance(data: string, c: Cursor, fuel: nat, chunks: seq<string>, chunk: Option<string>, next: Option<Cursor>)
    requires fuel > 0 && Step(data, c) == Turn(chunk, next)
    ensures next.Some? ==>
      && chunks + Run(data, c, fuel).0 == (chunks + Emitted(chunk)) + Run(data, next.value, fuel - 1).0
      && Run(data, c, fuel).1 == Run(data, next.value, fuel - 1).1
    ensures next.None? ==> chunks + Run(data, c, fuel).0 == chunks + Emitted(chunk) && Run(data, c, fuel).1
  {
    if next.Some? {
      var rest := Run(data, next.value, fuel - 1).0;
      assert Run(data, c, fuel).0 == Emitted(chunk) + rest;
      assert chunks + (Emitted(chunk) + rest) == (chunks + Emitted(chunk)) + rest;
    }
  }

  // ---------------------------------------------------------------------
  // What the scanner does

  /** No brace at any position from `lo` (taken as 0 when negative) up to
      `hi`. */
  predicate NoBraceIn(data: string, lo: int, hi: int)
  {
    forall i :: lo <= i < hi && 0 <= i < |data| ==> data[i] != '{' && data[i] != '}'
  }

  /** Reading from `from`, the first brace is a `{`, and a `}` follows it. */
  predicate OpensFirst(data: string, from: int)
  {
    exists f :: 0 <= f < |data| && from <= f && data[f] == '{' && NoBraceIn(data, from, f) && '}' in data[f + 1..]
  }

  /** A turn returns without a chunk exactly when no brace is left after
      the offset. */
  lemma StepStops(data: string, c: Cursor)
    ensures Step(data, c) == Turn(None, None) <==> NoBraceIn(data, c.offset + 1, |data|)
  {
    var nextOpen := JsIndexOf(data, '{', c.offset + 1);
    var nextClose := JsIndexOf(data, '}', c.offset + 1);
    if nextOpen != -1 {
      assert data[nextOpen] == '{';
    } else if nextClose != -1 {
      assert data[nextClose] == '}';
    }
  }

  /** A `{` at `f` that comes before any other brace and is followed by a
      `}` takes the turn one level deeper, reading on from `f`. */
  lemma StepOpen(data: string, c: Cursor, f: int)
    requires 0 <= f < |data| && c.offset + 1 <= f && data[f] == '{'
    requires NoBraceIn(data, c.offset + 1, f) && '}' in data[f + 1..]
    ensures Step(data, c) == Turn(None, Some(Cursor(c.start, f, c.depth + 1)))
  {
    var nextOpen := JsIndexOf(data, '{', c.offset + 1);
    var nextClose := JsIndexOf(data, '}', c.offset + 1);
    var q :| f + 1 <= q < |data| && data[q] == '}';
    assert nextOpen == f;
    assert nextClose != -1 && nextClose != f;
  }

  /** A `}` at `f`, the first brace after the offset, that leaves the
      depth above zero takes the turn one level up, reading on from `f`. */
  lemma StepClose(data: string, c: Cursor, f: int)
    requires 0 <= f < |data| && c.offset + 1 <= f && data[f] == '}'
    requires NoBraceIn(data, c.offset + 1, f) && c.depth != 1
    ensures Step(data, c) == Turn(None, Some(Cursor(c.start, f, c.depth - 1)))
  {
    var nextOpen := JsIndexOf(data, '{', c.offset + 1);
    assert JsIndexOf(data, '}', c.offset + 1) == f;
    assert nextOpen == -1 || nextOpen > f;
  }

  /** A `}` at `f`, the first brace after the offset, that brings the
      depth to zero cuts the empire's text up to `f`; with no `{` after
      it, the loop returns. */
  lemma StepCut(data: string, c: Cursor, f: int)
    requires 0 <= f < |data| && c.offset + 1 <= f && data[f] == '}'
    requires NoBraceIn(data, c.offset + 1, f) && c.depth == 1
    requires forall i :: f < i < |data| ==> data[i] != '{'
    ensures Step(data, c) == Turn(Some(JsSubstring(data, c.start, f)), None)
  {
    assert JsIndexOf(data, '}', c.offset + 1) == f;
    assert JsIndexOf(data, '{', c.offset + 1) == -1;
  }

  /** As `StepCut`, but with the next `{` at `p`: the next empire starts
      right after the `}`, one level deep at `p`. */
  lemma StepCutNext(data: string, c: Cursor, f: int, p: int)
    requires 0 <= f < p < |data| && c.offset + 1 <= f && data[f] == '}' && data[p] == '{'
    requires NoBraceIn(data, c.offset + 1, f) && c.depth == 1
    requires forall i :: f < i < p ==> data[i] != '{'
    ensures Step(data, c) == Turn(Some(JsSubstring(data, c.start, f)), Some(Cursor(f + 1, p, 1)))
  {
    assert JsIndexOf(data, '}', c.offset + 1) == f;
    assert JsIndexOf(data, '{', c.offset + 1) == p;
  }

  /** With no `}` left, the first `{` (at `f`) counts as a close, against
      a `nextClose` of -1: above depth one the offset goes back to -1, and
      at depth one the text before `start` is cut and the next empire
      starts at 0. */
  lemma StepLoneOpen(data: string, c: Cursor, f: int)
    requires 0 <= f < |data| && c.offset + 1 <= f && data[f] == '{'
    requires NoBraceIn(data, c.offset + 1, f)
    requires forall i :: f < i < |data| ==> data[i] != '}'
    ensures c.depth != 1 ==> Step(data, c) == Turn(None, Some(Cursor(c.start, -1, c.depth - 1)))
    ensures c.depth == 1 ==> Step(data, c) == Turn(Some(JsSubstring(data, c.start, -1)), Some(Cursor(0, f, 1)))
  {
    assert JsIndexOf(data, '{', c.offset + 1) == f;
    assert JsIndexOf(data, '}', c.offset + 1) == -1;
  }

  /** A turn goes one level deeper exactly when the first brace after the
      offset is a `{` with a `}` somewhere after it. */
  lemma StepDeeper(data: string, c: Cursor)
    ensures Step(data, c).next.Some? && Step(data, c).next.value.depth == c.depth + 1
            <==> OpensFirst(data, c.offset + 1)
  {
    var nextOpen := JsIndexOf(data, '{', c.offset + 1);
    var nextClose := JsIndexOf(data, '}', c.offset + 1);
    if OpensFirst(data, c.offset + 1) {
      var f :| 0 <= f < |data| && c.offset + 1 <= f && data[f] == '{' && NoBraceIn(data, c.offset + 1, f) && '}' in data[f + 1..];
      StepOpen(data, c, f);
    } else if nextOpen != -1 && nextOpen < nextClose {
      assert data[nextOpen + 1..][nextClose - nextOpen - 1] == '}';
    }
  }

  /** A turn cuts an empire exactly when a brace is left, it is not a `{`
      followed by a `}`, and the depth is one before the turn. */
  lemma StepChunk(data: string, c: Cursor)
    ensures Step(data, c).chunk.Some?
            <==> c.depth == 1 && !NoBraceIn(data, c.offset + 1, |data|) && !OpensFirst(data, c.offset + 1)
  {
    StepStops(data, c);
    StepDeeper(data, c);
  }

  /** The loop returns exactly when no brace is left, or when the turn
      cuts an empire and no `{` follows the offset. */
  lemma StepReturns(data: string, c: Cursor)
    ensures Step(data, c).next.None?
            <==> NoBraceIn(data, c.offset + 1, |data|)
                 || (Step(data, c).chunk.Some? && forall i :: c.offset + 1 <= i < |data| && 0 <= i ==> data[i] != '{')
  {
    StepStops(data, c);
  }

  /** No braces. */
  predicate BraceFree(s: string)
  {
    '{' !in s && '}' !in s
  }

  /** Text without braces holds no empire: the loop returns at once. */
  lemma NoBraces(data: string, fuel: nat)
    requires BraceFree(data) && fuel > 0
    ensures Run(data, Initial(data), fuel) == ([], true)
  {
  }

  /** Empires written one after the other: each is the text before its
      `{`, then the `{`, its body and the `}`. */
  function Flat(es: seq<(string, string)>): string
  {
    if es == [] then [] else es[0].0 + "{" + es[0].1 + "}" + Flat(es[1..])
  }

  /** The chunk the scanner cuts for each empire: everything from the end
      of the previous empire up to, not including, its closing `}`. */
  function FlatChunks(es: seq<(string, string)>): (r: seq<string>)
    ensures |r| == |es|
  {
    if es == [] then [] else [es[0].0 + "{" + es[0].1] + FlatChunks(es[1..])
  }

  predicate FlatParts(es: seq<(string, string)>)
  {
    forall i :: 0 <= i < |es| ==> BraceFree(es[i].0) && BraceFree(es[i].1)
  }

  /** `data` holds `x` at position `k`. */
  predicate Matches(data: string, k: int, x: string)
  {
    0 <= k && k + |x| <= |data| && forall i :: k <= i < k + |x| ==> data[i] == x[i - k]
  }

  /** From position `k` to its end, `data` holds the empires `es` and then
      `tail`. */
  predicate FlatFrom(data: string, k: int, es: seq<(string, string)>, tail: string)
    decreases es
  {
    if es == [] then Matches(data, k, tail) && k + |tail| == |data|
    else
      var open := k + |es[0].0|;
      var close := open + 1 + |es[0].1|;
      && Matches(data, k, es[0].0) && close < |data| && data[open] == '{'
      && Matches(data, open + 1, es[0].1) && data[close] == '}'
      && FlatFrom(data, close + 1, es[1..], tail)
  }

  /** The first empire of flat empires, split off. */
  lemma FlatSplit(es: seq<(string, string)>, tail: string)
    requires es != []
    ensures Flat(es) + tail == es[0].0 + ("{" + (es[0].1 + ("}" + (Flat(es[1..]) + tail))))
  {
  }

  lemma MatchesSplit(data: string, k: int, x: string, y: string)
    requires Matches(data, k, x + y)
    ensures Matches(data, k, x) && Matches(data, k + |x|, y)
  {
    assert forall i :: k <= i < k + |x| ==> data[i] == (x + y)[i - k] == x[i - k];
    assert forall i :: k + |x| <= i < k + |x| + |y| ==> data[i] == (x + y)[i - k] == y[i - k - |x|];
  }

  /** An empire written out at `k`: its prefix, `{`, body and `}`, then
      the rest. */
  lemma MatchesEmpire(data: string, k: int, a: string, b: string, rest: string)
    requires Matches(data, k, a + ("{" + (b + ("}" + rest))))
    ensures var open := k + |a|;
      && Matches(data, k, a) && data[open] == '{' && Matches(data, open + 1, b)
      && data[open + 1 + |b|] == '}' && Matches(data, open + 2 + |b|, rest)
  {
    var open := k + |a|;
    MatchesSplit(data, k, a, "{" + (b + ("}" + rest)));
    MatchesSplit(data, open, "{", b + ("}" + rest));
    MatchesSplit(data, open + 1, b, "}" + rest);
    MatchesSplit(data, open + 1 + |b|, "}", rest);
    assert data[open] == "{"[0];
    assert data[open + 1 + |b|] == "}"[0];
  }

  /** Flat empires written out from `k` to the end are read as such. */
  lemma {:induction false} FlatFromOf(data: string, k: int, es: seq<(string, string)>, tail: string)
    requires Matches(data, k, Flat(es) + tail) && k + |Flat(es) + tail| == |data|
    ensures FlatFrom(data, k, es, tail)
    decreases es
  {
    if es == [] {
      assert Flat(es) + tail == tail;
    } else {
      MatchesFlat(data, k, es, tail);
      FlatFromOf(data, k + |es[0].0| + 2 + |es[0].1|, es[1..], tail);
    }
  }

  /** Flat empires written out at `k`: the first empire, then the others. */
  lemma MatchesFlat(data: string, k: int, es: seq<(string, string)>, tail: string)
    requires es != [] && Matches(data, k, Flat(es) + tail)
    ensures var open := k + |es[0].0|;
      var close := open + 1 + |es[0].1|;
      && Matches(data, k, es[0].0) && data[open] == '{' && Matches(data, open + 1, es[0].1)
      && data[close] == '}' && Matches(data, close + 1, Flat(es[1..]) + tail)
      && |Flat(es) + tail| == close + 1 - k + |Flat(es[1..]) + tail|
  {
    FlatSplit(es, tail);
    MatchesEmpire(data, k, es[0].0, es[0].1, Flat(es[1..]) + tail);
  }

  lemma FlatPartsTail(es: seq<(string, string)>)
    requires es != [] && FlatParts(es)
    ensures FlatParts(es[1..])
  {
    assert forall i :: 0 <= i < |es| - 1 ==> es[1..][i] == es[i + 1];
  }

  /** Reading from `from`, the first `c` is at `k`. */
  lemma {:induction false} ScanTo(s: string, c: char, from: int, k: int)
    requires 0 <= from <= k < |s| && s[k] == c
    requires forall i :: from <= i < k ==> s[i] != c
    ensures JsIndexOf(s, c, from) == k
    decreases k - from
  {
    if from < k {
      ScanTo(s, c, from + 1, k);
    }
  }

  /** Reading from `from`, there is no `c`. */
  lemma {:induction false} ScanNone(s: string, c: char, from: int)
    requires 0 <= from
    requires forall i :: from <= i < |s| ==> s[i] != c
    ensures JsIndexOf(s, c, from) == -1
    decreases |s| - from
  {
    if from < |s| {
      ScanNone(s, c, from + 1);
    }
  }

  /** Positions without `c` are read past. */
  lemma {:induction false} ScanSkip(s: string, c: char, from: int, upto: int)
    requires 0 <= from <= upto
    requires forall i :: from <= i < upto && i < |s| ==> s[i] != c
    ensures JsIndexOf(s, c, from) == JsIndexOf(s, c, upto)
    decreases upto - from
  {
    if from < upto && from < |s| {
      ScanSkip(s, c, from + 1, upto);
    }
  }

  /** The next `{` from the start of flat empires is the first empire's. */
  lemma FlatNextOpen(data: string, k: int, es: seq<(string, string)>, tail: string)
    requires FlatFrom(data, k, es, tail) && FlatParts(es) && BraceFree(tail)
    ensures JsIndexOf(data, '{', k) == if es == [] then -1 else k + |es[0].0|
  {
    if es == [] {
      ScanNone(data, '{', k);
    } else {
      ScanTo(data, '{', k, k + |es[0].0|);
    }
  }

  /** Within the first of flat empires, the next `}` after its `{` closes
      it, and the next `{` is the following empire's, if any. */
  lemma FlatScan(data: string, k: int, es: seq<(string, string)>, tail: string)
    requires FlatFrom(data, k, es, tail) && es != [] && FlatParts(es) && BraceFree(tail)
    ensures var open := k + |es[0].0|;
      var close := open + 1 + |es[0].1|;
      && close < |data|
      && JsIndexOf(data, '}', open + 1) == close
      && JsIndexOf(data, '{', open + 1) == if |es| == 1 then -1 else close + 1 + |es[1].0|
  {
    var open := k + |es[0].0|;
    var close := open + 1 + |es[0].1|;
    FlatPartsTail(es);
    FlatNextOpen(data, close + 1, es[1..], tail);
    ScanTo(data, '}', open + 1, close);
    ScanSkip(data, '{', open + 1, close + 1);
  }

  /** The text of an empire found at `k`. */
  lemma ChunkText(data: string, k: int, a: string, b: string)
    requires Matches(data, k, a) && k + |a| < |data| && data[k + |a|] == '{'
    requires Matches(data, k + |a| + 1, b)
    ensures data[k..k + |a| + 1 + |b|] == a + "{" + b
  {
    var close := k + |a| + 1 + |b|;
    forall j | 0 <= j < close - k
      ensures data[k..close][j] == (a + "{" + b)[j]
    {
      assert data[k..close][j] == data[k + j];
    }
  }

  /** One empire's turn: the scanner cuts the empire's chunk and goes on at
      the next empire's `{`, or returns when there is none. */
  lemma FlatStep(data: string, k: int, es: seq<(string, string)>, tail: string)
    requires FlatFrom(data, k, es, tail) && es != [] && FlatParts(es) && BraceFree(tail)
    ensures var a, b := es[0].0, es[0].1;
      var after := k + |a| + |b| + 2;
      Step(data, Cursor(k, k + |a|, 1))
        == Turn(Some(a + "{" + b), if |es| == 1 then None else Some(Cursor(after, after + |es[1].0|, 1)))
  {
    FlatScan(data, k, es, tail);
    ChunkText(data, k, es[0].0, es[0].1);
  }

  /** From `c`, each turn cuts the next of `chunks`, and the turn that cuts
      the last one returns. */
  predicate Chain(data: string, c: Cursor, chunks: seq<string>)
    decreases |chunks|
  {
    var t := Step(data, c);
    && |chunks| > 0 && t.chunk == Some(chunks[0])
    && if |chunks| == 1 then t.next.None? else t.next.Some? && Chain(data, t.next.value, chunks[1..])
  }

  /** A chain of turns is what the loop runs through, given a turn for each
      link. */
  lemma {:induction false} RunChain(data: string, c: Cursor, chunks: seq<string>, fuel: nat)
    requires Chain(data, c, chunks) && fuel >= |chunks|
    ensures Run(data, c, fuel) == (chunks, true)
    decreases |chunks|
  {
    var t := Step(data, c);
    if |chunks| == 1 {
      assert chunks == [chunks[0]];
    } else {
      RunChain(data, t.next.value, chunks[1..], fuel - 1);
      assert chunks == [chunks[0]] + chunks[1..];
    }
  }

  /** Empires without nested blocks, followed by text without braces, form
      a chain: one turn per empire, cutting its chunk. */
  lemma {:induction false} FlatChain(data: string, k: int, es: seq<(string, string)>, tail: string)
    requires FlatFrom(data, k, es, tail) && es != [] && FlatParts(es) && BraceFree(tail)
    ensures Chain(data, Cursor(k, k + |es[0].0|, 1), FlatChunks(es))
    decreases es
  {
    if |es| > 1 {
      FlatPartsTail(es);
      FlatChain(data, k + |es[0].0| + |es[0].1| + 2, es[1..], tail);
      assert es[1..][0] == es[1];
    }
    FlatLink(data, k, es, tail);
  }

  /** The first empire's turn, followed by a chain for the others, is a
      chain for all of them. */
  lemma FlatLink(data: string, k: int, es: seq<(string, string)>, tail: string)
    requires FlatFrom(data, k, es, tail) && es != [] && FlatParts(es) && BraceFree(tail)
    requires var after := k + |es[0].0| + |es[0].1| + 2;
      |es| > 1 ==> Chain(data, Cursor(after, after + |es[1].0|, 1), FlatChunks(es[1..]))
    ensures Chain(data, Cursor(k, k + |es[0].0|, 1), FlatChunks(es))
  {
    var after := k + |es[0].0| + |es[0].1| + 2;
    var next := if |es| == 1 then None else Some(Cursor(after, after + |es[1].0|, 1));
    FlatStep(data, k, es, tail);
    ChainCons(data, Cursor(k, k + |es[0].0|, 1), es[0].0 + "{" + es[0].1, FlatChunks(es[1..]), next);
  }

  /** A turn that cuts `x` and goes on to a chain for `rest` (or returns,
      when `rest` is empty) starts a chain for `[x] + rest`. */
  lemma ChainCons(data: string, c: Cursor, x: string, rest: seq<string>, next: Option<Cursor>)
    requires Step(data, c) == Turn(Some(x), next)
    requires rest == [] <==> next.None?
    requires rest != [] ==> Chain(data, next.value, rest)
    ensures Chain(data, c, [x] + rest)
  {
    assert ([x] + rest)[0] == x && ([x] + rest)[1..] == rest;
  }

  /** The whole upload: `n` flat empires and trailing text give `n`
      chunks, and the loop returns within `n` turns. */
  lemma FlatUpload(es: seq<(string, string)>, tail: string, fuel: nat)
    requires es != [] && FlatParts(es) && BraceFree(tail) && fuel >= |es|
    ensures Run(Flat(es) + tail, Initial(Flat(es) + tail), fuel) == (FlatChunks(es), true)
  {
    var data := Flat(es) + tail;
    FlatFromOf(data, 0, es, tail);
    FlatNextOpen(data, 0, es, tail);
    FlatChain(data, 0, es, tail);
    RunChain(data, Initial(data), FlatChunks(es), fuel);
  }

  /** The text `{{{}{{` never finishes: every five turns the scanner is
      back at the start of the text, one level deeper. */
  lemma {:induction false} Unbalanced(depth: int, fuel: nat)
    requires depth >= 1
    ensures Run("{{{}{{", Cursor(0, -1, depth), fuel).1 == false
    decreases fuel
  {
    var data := "{{{}{{";
    if fuel >= 5 {
      UnbalancedCycle(depth);
      Unbalanced(depth + 1, fuel - 5);
      RunFiveQuiet(data, Cursor(0, -1, depth), Cursor(0, -1, depth + 1), fuel);
    } else {
      UnbalancedCycle(depth);
      RunShortQuiet(data, Cursor(0, -1, depth), fuel);
    }
  }

  /** The five turns of one cycle on `{{{}{{`: three opens, two closes, no
      chunk. */
  lemma UnbalancedCycle(depth: int)
    requires depth >= 1
    ensures var data := "{{{}{{";
      && Step(data, Cursor(0, -1, depth)) == Turn(None, Some(Cursor(0, 0, depth + 1)))
      && Step(data, Cursor(0, 0, depth + 1)) == Turn(None, Some(Cursor(0, 1, depth + 2)))
      && Step(data, Cursor(0, 1, depth + 2)) == Turn(None, Some(Cursor(0, 2, depth + 3)))
      && Step(data, Cursor(0, 2, depth + 3)) == Turn(None, Some(Cursor(0, 3, depth + 2)))
      && Step(data, Cursor(0, 3, depth + 2)) == Turn(None, Some(Cursor(0, -1, depth + 1)))
  {
    var data := "{{{}{{";
    assert JsIndexOf(data, '{', 0) == 0 && JsIndexOf(data, '}', 0) == 3;
    assert JsIndexOf(data, '{', 1) == 1 && JsIndexOf(data, '}', 1) == 3;
    assert JsIndexOf(data, '{', 2) == 2 && JsIndexOf(data, '}', 2) == 3;
    assert JsIndexOf(data, '{', 3) == 4 && JsIndexOf(data, '}', 3) == 3;
    assert JsIndexOf(data, '{', 4) == 4 && JsIndexOf(data, '}', 4) == -1;
  }

  /** Five quiet turns from `c` to `d`: the run from `c` is the run from
      `d`, five turns shorter. */
  lemma RunFiveQuiet(data: string, c: Cursor, d: Cursor, fuel: nat)
    requires fuel >= 5
    requires Step(data, c).chunk.None? && Step(data, c).next.Some?
    requires var c1 := Step(data, c).next.value;
      Step(data, c1).chunk.None? && Step(data, c1).next.Some?
      && var c2 := Step(data, c1).next.value;
      Step(data, c2).chunk.None? && Step(data, c2).next.Some?
      && var c3 := Step(data, c2).next.value;
      Step(data, c3).chunk.None? && Step(data, c3).next.Some?
      && var c4 := Step(data, c3).next.value;
      Step(data, c4).chunk.None? && Step(data, c4).next == Some(d)
    ensures Run(data, c, fuel).1 == Run(data, d, fuel - 5).1
  {
    var c1 := Step(data, c).next.value;
    var c2 := Step(data, c1).next.value;
    var c3 := Step(data, c2).next.value;
    var c4 := Step(data, c3).next.value;
    assert Run(data, c4, fuel - 4).1 == Run(data, d, fuel - 5).1;
    assert Run(data, c3, fuel - 3).1 == Run(data, c4, fuel - 4).1;
    assert Run(data, c2, fuel - 2).1 == Run(data, c3, fuel - 3).1;
    assert Run(data, c1, fuel - 1).1 == Run(data, c2, fuel - 2).1;
  }

  /** Fewer than five turns of the cycle do not finish either. */
  lemma RunShortQuiet(data: string, c: Cursor, fuel: nat)
    requires fuel < 5 && data == "{{{}{{" && c.start == 0 && c.offset == -1 && c.depth >= 1
    requires var depth := c.depth;
      && Step(data, Cursor(0, -1, depth)) == Turn(None, Some(Cursor(0, 0, depth + 1)))
      && Step(data, Cursor(0, 0, depth + 1)) == Turn(None, Some(Cursor(0, 1, depth + 2)))
      && Step(data, Cursor(0, 1, depth + 2)) == Turn(None, Some(Cursor(0, 2, depth + 3)))
      && Step(data, Cursor(0, 2, depth + 3)) == Turn(None, Some(Cursor(0, 3, depth + 2)))
    ensures Run(data, c, fuel).1 == false
  {
  }

  /** From the start, `{{{}{{` reaches the cycle after four turns and so
      never finishes, however long it runs. */
  lemma UnbalancedHangs(fuel: nat)
    ensures Run("{{{}{{", Initial("{{{}{{"), fuel).1 == false
  {
    var data := "{{{}{{";
    UnbalancedCycle(1);
    assert JsIndexOf(data, '{', 0) == 0;
    assert Initial(data) == Cursor(0, 0, 1);
    if fuel >= 4 {
      Unbalanced(1, fuel - 4);
      assert Run(data, Cursor(0, 3, 2), fuel - 3).1 == Run(data, Cursor(0, -1, 1), fuel - 4).1;
      assert Run(data, Cursor(0, 2, 3), fuel - 2).1 == Run(data, Cursor(0, 3, 2), fuel - 3).1;
      assert Run(data, Cursor(0, 1, 2), fuel - 1).1 == Run(data, Cursor(0, 2, 3), fuel - 2).1;
    }
  }

  // ---------------------------------------------------------------------
  // One empire's name and ethics

  /** The characters `processEmpire` strips from the end of a name. */
  predicate NameJunk(c: char)
  {
    c == '{' || c == '='
  }

  /** The loop on `name`: while it ends with `{` or `=`, drop that
      character and trim again. */
  function StripName(name: string): (r: string)
    ensures r == [] || !NameJunk(r[|r| - 1])
    decreases |name|
  {
    if |name| > 0 && NameJunk(name[|name| - 1]) then StripName(JsTrim(name[..|name| - 1])) else name
  }

  /** The name of an empire: the first line, trimmed, then stripped of
      trailing `{` and `=`. */
  function NameOf(firstLine: string): string
  {
    StripName(JsTrim(firstLine))
  }

  /** `s.replace(/^pre/, "")`: `pre` dropped once from the front. */
  function DropPrefix(s: string, pre: string): (r: string)
    ensures pre <= s ==> s == pre + r
    ensures !(pre <= s) ==> r == s
  {
    if pre <= s then s[|pre|..] else s
  }

  /** `s.replace("_", " ")` with a string pattern: only the first `_`. */
  function ReplaceFirst(s: string, a: char, b: char): (r: string)
    ensures |r| == |s|
    ensures a !in s ==> r == s
    ensures a in s ==> var k := IndexOf(s, a); r == s[..k] + [b] + s[k + 1..]
  {
    var k := IndexOf(s, a);
    if k == -1 then s else s[..k] + [b] + s[k + 1..]
  }

  /** `s.replace(/"$/, "")`: one closing quote dropped. */
  function DropQuote(s: string): (r: string)
    ensures |s| > 0 && s[|s| - 1] == '"' ==> s == r + "\""
    ensures !(|s| > 0 && s[|s| - 1] == '"') ==> r == s
  {
    if |s| > 0 && s[|s| - 1] == '"' then s[..|s| - 1] else s
  }

  /** The label of one trimmed `ethic` line. */
  function EthicName(line: string): string
  {
    DropQuote(ReplaceFirst(DropPrefix(DropPrefix(line, "ethic=\""), "ethic_"), '_', ' '))
  }

  /** The label a line contributes: one when, trimmed, it starts with
      `ethic`, none otherwise. */
  function EthicOf(line: string): seq<string>
  {
    var trimmed := JsTrim(line);
    if "ethic" <= trimmed then [EthicName(trimmed)] else []
  }

  /** What `f` gives for each element, joined in order. */
  function Concat<A, B>(xs: seq<A>, f: A -> seq<B>): seq<B>
  {
    if xs == [] then [] else f(xs[0]) + Concat(xs[1..], f)
  }

  /** The labels of the lines that, trimmed, start with `ethic`, in order. */
  function Ethics(lines: seq<string>): seq<string>
  {
    Concat(lines, EthicOf)
  }

  /** The name and ethics of an empire's text. */
  function EmpireOf(text: string): (string, seq<string>)
  {
    var lines := JsSplitLines(JsTrim(text));
    (NameOf(lines[0]), Ethics(lines))
  }

  /** `processEmpire(text)`, returning what it would show: the name and the
      ethics. */
  method ProcessEmpire(text: string) returns (empire: (string, seq<string>))
    ensures empire == EmpireOf(text)
  {
    var lines := JsSplitLines(JsTrim(text));
    var name := JsTrim(lines[0]);
    while |name| > 0 && NameJunk(name[|name| - 1])
      invariant StripName(name) == NameOf(lines[0])
      decreases |name|
    {
      name := JsTrim(name[..|name| - 1]);
    }
    empire := (name, Ethics(lines));
  }

  // ---------------------------------------------------------------------
  // What the extraction does

  /** Ethics keep the order of their lines: the ethics of two runs of lines
      are those of the first, then those of the second. */
  lemma EthicsAppend(a: seq<string>, b: seq<string>)
    ensures Ethics(a + b) == Ethics(a) + Ethics(b)
  {
    ConcatAppend(a, b, EthicOf);
  }

  lemma {:induction false} ConcatAppend<A, B>(a: seq<A>, b: seq<A>, f: A -> seq<B>)
    ensures Concat(a + b, f) == Concat(a, f) + Concat(b, f)
  {
    if a == [] {
      assert a + b == b;
    } else {
      assert (a + b)[0] == a[0] && (a + b)[1..] == a[1..] + b;
      ConcatAppend(a[1..], b, f);
    }
  }

  /** Removing the leading `pre` from `pre + rest` leaves `rest`. */
  lemma DropPrefixOf(pre: string, rest: string)
    ensures DropPrefix(pre + rest, pre) == rest
  {
    assert pre <= pre + rest;
  }

  /** A closing quote after the text does not move its first `_`. */
  lemma ReplaceFirstQuoted(x: string)
    ensures ReplaceFirst(x + "\"", '_', ' ') == ReplaceFirst(x, '_', ' ') + "\""
  {
    var s := x + "\"";
    if '_' in x {
      var k := IndexOf(x, '_');
      assert s[..k] == x[..k] && s[k] == '_';
      IndexOfPrefix(x, "\"", '_');
      assert s[k + 1..] == x[k + 1..] + "\"";
    } else {
      assert '_' !in s;
    }
  }

  /** The first `c` of `x + y` is the first of `x` when `x` has one. */
  lemma {:induction false} IndexOfPrefix(x: string, y: string, c: char)
    requires c in x
    ensures IndexOf(x + y, c) == IndexOf(x, c)
  {
    if x[0] != c {
      assert (x + y)[1..] == x[1..] + y;
      IndexOfPrefix(x[1..], y, c);
    }
  }

  /** A saved ethic line `ethic="ethic_<x>"` shows as `<x>` with its first
      underscore turned into a space. */
  lemma EthicLine(x: string)
    ensures EthicName("ethic=\"ethic_" + x + "\"") == ReplaceFirst(x, '_', ' ')
  {
    var inner := "ethic_" + x + "\"";
    assert "ethic=\"ethic_" + x + "\"" == "ethic=\"" + inner;
    DropPrefixOf("ethic=\"", inner);
    assert inner == "ethic_" + (x + "\"");
    DropPrefixOf("ethic_", x + "\"");
    ReplaceFirstQuoted(x);
  }

  /** Characters the name loop and the trims remove from the end. */
  predicate Junk(t: string)
  {
    forall i :: 0 <= i < |t| ==> NameJunk(t[i]) || IsJsSpace(t[i])
  }

  /** A name whose own ends are kept. */
  predicate CleanName(x: string)
  {
    x != [] && !IsJsSpace(x[0]) && !IsJsSpace(x[|x| - 1]) && !NameJunk(x[|x| - 1])
  }

  /** Trimming the end of `x + t` keeps all of `x` when its last character
      stays. */
  lemma {:induction false} TrimEndAfter(x: string, t: string, p: char -> bool)
    requires x != [] && !p(x[|x| - 1])
    ensures TrimEnd(x + t, p) == x + TrimEnd(t, p)
    decreases |t|
  {
    if t == [] {
      assert x + t == x;
      TrimEndNoop(x, p);
    } else if p(t[|t| - 1]) {
      var init := t[..|t| - 1];
      assert x + t == (x + init) + [t[|t| - 1]];
      TrimEndSnoc(x + init, t[|t| - 1], p);
      TrimEndAfter(x, init, p);
      assert t == init + [t[|t| - 1]];
      TrimEndSnoc(init, t[|t| - 1], p);
    } else {
      TrimEndNoop(x + t, p);
      TrimEndNoop(t, p);
    }
  }

  /** Trimming `x + t` for a clean name `x` keeps `x` and the trimmed end of
      `t`. */
  lemma JsTrimAfter(x: string, t: string)
    requires CleanName(x)
    ensures JsTrim(x + t) == x + TrimEnd(t, IsJsSpace)
  {
    assert (x + t)[0] == x[0];
    TrimStartNoop(x + t, IsJsSpace);
    TrimEndAfter(x, t, IsJsSpace);
  }

  /** The name loop removes a tail of `{`, `=` and spaces after a clean
      name, however the three are mixed. */
  lemma {:induction false} StripNameJunk(x: string, t: string)
    requires CleanName(x) && Junk(t)
    requires t == [] || !IsJsSpace(t[|t| - 1])
    ensures StripName(x + t) == x
    decreases |t|
  {
    if t == [] {
      assert x + t == x;
    } else {
      var u := TrimEnd(t[..|t| - 1], IsJsSpace);
      StripNameLast(x, t);
      JunkTrimmed(t);
      StripNameJunk(x, u);
    }
  }

  /** One round of the name loop after a clean name. */
  lemma StripNameLast(x: string, t: string)
    requires CleanName(x) && t != [] && NameJunk(t[|t| - 1])
    ensures StripName(x + t) == StripName(x + TrimEnd(t[..|t| - 1], IsJsSpace))
  {
    var s := x + t;
    assert s[|s| - 1] == t[|t| - 1];
    StripNameStep(s);
    assert s[..|s| - 1] == x + t[..|t| - 1];
    JsTrimAfter(x, t[..|t| - 1]);
  }

  lemma StripNameStep(s: string)
    requires s != [] && NameJunk(s[|s| - 1])
    ensures StripName(s) == StripName(JsTrim(s[..|s| - 1]))
  {
  }

  /** What the trim leaves of a junk tail is junk. */
  lemma JunkTrimmed(t: string)
    requires t != [] && Junk(t)
    ensures var u := TrimEnd(t[..|t| - 1], IsJsSpace);
      Junk(u) && |u| < |t| && (u == [] || !IsJsSpace(u[|u| - 1]))
  {
    var u := TrimEnd(t[..|t| - 1], IsJsSpace);
    assert forall i :: 0 <= i < |u| ==> u[i] == t[i];
  }

  /** A first line `<name> = {`, or any other mix of spaces, `=` and `{`
      after the name, gives the name. */
  lemma NameOfHeader(x: string, t: string)
    requires CleanName(x) && Junk(t)
    ensures NameOf(x + t) == x
  {
    JsTrimAfter(x, t);
    var u := TrimEnd(t, IsJsSpace);
    assert Junk(u) by {
      assert forall i :: 0 <= i < |u| ==> u[i] == t[i];
    }
    StripNameJunk(x, u);
  }
}
