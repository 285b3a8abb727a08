/** The record helpers built on the parser: key lookup over a parsed block,
    in-place appending and removal of entries, the seven-field validity check
    of an empire, and the file that stores an empire. */
module Importer {
  import opened Wrappers
  import opened Text
  import opened Parser

  // ---------------------------------------------------------------------
  // Lookup

  /** `is_value(item, key)`: the item is an entry under `key`. */
  predicate IsValue(d: Datum, key: string)
  {
    d.Entry? && d.key == key
  }

  /** `get_values(data, key)`: the values of the entries under `key`, in
      order; bare strings are passed over. */
  function GetValues(data: seq<Datum>, key: string): (r: seq<Value>)
    ensures |r| <= |data|
  {
    if data == [] then []
    else (if IsValue(data[0], key) then [data[0].value] else []) + GetValues(data[1..], key)
  }

  /** `has_value(data, key)`: exactly one entry is under `key`. */
  predicate HasValue(data: seq<Datum>, key: string)
  {
    |GetValues(data, key)| == 1
  }

  /** `get_value(data, key)`: no value when nothing is under `key`, an error
      when several entries are, otherwise the one value. */
  function GetValue(data: seq<Datum>, key: string): (r: Result<Option<Value>, string>)
    ensures r.Err? <==> |GetValues(data, key)| > 1
    ensures r == Ok(None) <==> GetValues(data, key) == []
    ensures r.Ok? && r.value.Some? ==> GetValues(data, key) == [r.value.value]
  {
    var candidates := GetValues(data, key);
    if candidates == [] then Ok(None)
    else if |candidates| > 1 then Err("Multiple values")
    else Ok(Some(candidates[0]))
  }

  lemma {:induction false} GetValuesAppend(a: seq<Datum>, b: seq<Datum>, key: string)
    ensures GetValues(a + b, key) == GetValues(a, key) + GetValues(b, key)
  {
    if a == [] {
      assert a + b == b;
    } else {
      assert (a + b)[0] == a[0] && (a + b)[1..] == a[1..] + b;
      GetValuesAppend(a[1..], b, key);
      var head := if IsValue(a[0], key) then [a[0].value] else [];
      SeqAssoc(head, GetValues(a[1..], key), GetValues(b, key));
    }
  }

  /** A value is found under `key` exactly when an entry `key=value` is in
      the block. */
  lemma {:induction false} GetValuesMember(data: seq<Datum>, key: string, v: Value)
    ensures v in GetValues(data, key) <==> Entry(key, v) in data
  {
    if data != [] {
      GetValuesMember(data[1..], key, v);
      assert data == [data[0]] + data[1..];
    }
  }

  /** No value is found under `key` exactly when no entry is under it. */
  lemma {:induction false} GetValuesEmpty(data: seq<Datum>, key: string)
    ensures GetValues(data, key) == [] <==> forall i :: 0 <= i < |data| ==> !IsValue(data[i], key)
  {
    if data != [] {
      GetValuesEmpty(data[1..], key);
      assert forall i :: 1 <= i < |data| ==> data[i] == data[1..][i - 1];
    }
  }

  /** Position `i` holds an entry under `key` and no other position does. */
  predicate UniqueAt(data: seq<Datum>, key: string, i: int)
  {
    0 <= i < |data| && IsValue(data[i], key)
    && forall j :: 0 <= j < |data| && j != i ==> !IsValue(data[j], key)
  }

  lemma UniqueAtShift(data: seq<Datum>, key: string, i: int)
    requires data != [] && !IsValue(data[0], key) && 0 <= i < |data| - 1
    ensures UniqueAt(data, key, i + 1) <==> UniqueAt(data[1..], key, i)
  {
    var tail := data[1..];
    assert forall j :: 0 <= j < |tail| ==> tail[j] == data[j + 1];
    if UniqueAt(tail, key, i) {
      forall j | 0 <= j < |data| && j != i + 1
        ensures !IsValue(data[j], key)
      {
        if j > 0 {
          assert data[j] == tail[j - 1];
        }
      }
    }
  }

  lemma UniqueAtHead(data: seq<Datum>, key: string)
    requires data != []
    ensures UniqueAt(data, key, 0) <==> IsValue(data[0], key) && GetValues(data[1..], key) == []
  {
    var tail := data[1..];
    GetValuesEmpty(tail, key);
    assert forall j :: 0 <= j < |tail| ==> tail[j] == data[j + 1];
    if IsValue(data[0], key) && GetValues(tail, key) == [] {
      forall j | 0 <= j < |data| && j != 0
        ensures !IsValue(data[j], key)
      {
        assert data[j] == tail[j - 1];
      }
    }
  }

  /** `has_value` holds exactly when one position of the block holds an
      entry under `key` and no other position does. */
  lemma {:induction false} HasValueUnique(data: seq<Datum>, key: string)
    ensures HasValue(data, key) <==> exists i :: UniqueAt(data, key, i)
  {
    if data != [] {
      var tail := data[1..];
      if IsValue(data[0], key) {
        UniqueAtHead(data, key);
        if exists i :: UniqueAt(data, key, i) {
          var i :| UniqueAt(data, key, i);
          assert i == 0;
        }
      } else {
        HasValueUnique(tail, key);
        assert HasValue(data, key) == HasValue(tail, key);
        if exists i :: UniqueAt(tail, key, i) {
          var i :| UniqueAt(tail, key, i);
          UniqueAtShift(data, key, i);
        }
        if exists i :: UniqueAt(data, key, i) {
          var i :| UniqueAt(data, key, i);
          UniqueAtShift(data, key, i - 1);
        }
      }
    }
  }

  // ---------------------------------------------------------------------
  // Removal

  /** What `remove_values(data, key)` leaves: the block without the entries
      under `key`, everything else in its order. */
  function Without(data: seq<Datum>, key: string): (r: seq<Datum>)
    ensures |r| <= |data|
    ensures forall i :: 0 <= i < |r| ==> !IsValue(r[i], key)
  {
    if data == [] then []
    else (if IsValue(data[0], key) then [] else [data[0]]) + Without(data[1..], key)
  }

  /** Removal works item by item, so it keeps the order of what it keeps. */
  lemma {:induction false} WithoutAppend(a: seq<Datum>, b: seq<Datum>, key: string)
    ensures Without(a + b, key) == Without(a, key) + Without(b, key)
  {
    if a == [] {
      assert a + b == b;
    } else {
      assert (a + b)[0] == a[0] && (a + b)[1..] == a[1..] + b;
      WithoutAppend(a[1..], b, key);
      var head := if IsValue(a[0], key) then [] else [a[0]];
      SeqAssoc(head, Without(a[1..], key), Without(b, key));
    }
  }

  /** An item stays exactly when it is not an entry under `key`. */
  lemma {:induction false} WithoutMember(data: seq<Datum>, key: string, d: Datum)
    ensures d in Without(data, key) <==> d in data && !IsValue(d, key)
  {
    if data != [] {
      WithoutMember(data[1..], key, d);
      assert data == [data[0]] + data[1..];
    }
  }

  /** After removal nothing is found under `key`. */
  lemma WithoutGetValues(data: seq<Datum>, key: string)
    ensures GetValues(Without(data, key), key) == []
  {
    GetValuesEmpty(Without(data, key), key);
  }

  /** Removal leaves the values under every other key as they were. */
  lemma {:induction false} WithoutOtherKey(data: seq<Datum>, key: string, other: string)
    requires other != key
    ensures GetValues(Without(data, key), other) == GetValues(data, other)
  {
    if data != [] {
      WithoutOtherKey(data[1..], key, other);
      var head := if IsValue(data[0], key) then [] else [data[0]];
      GetValuesAppend(head, Without(data[1..], key), other);
    }
  }

  /** Removing twice removes nothing more. */
  lemma {:induction false} WithoutIdempotent(data: seq<Datum>, key: string)
    ensures Without(Without(data, key), key) == Without(data, key)
  {
    if data != [] {
      WithoutIdempotent(data[1..], key);
      var head := if IsValue(data[0], key) then [] else [data[0]];
      WithoutAppend(head, Without(data[1..], key), key);
      if !IsValue(data[0], key) {
        assert Without(head, key) == head by {
          assert head[1..] == [];
        }
      }
    }
  }

  /** A parsed block that `add_value` and `remove_values` update in place. */
  class ClausObject {
    var items: seq<Datum>

    constructor (items: seq<Datum>)
      ensures this.items == items
    {
      this.items := items;
    }

    /** `add_value(data, key, value)`: appends the entry at the end. */
    method AddValue(key: string, value: Value)
      modifies this
      ensures items == old(items) + [Entry(key, value)]
      ensures GetValues(items, key) == GetValues(old(items), key) + [value]
    {
      GetValuesAppend(items, [Entry(key, value)], key);
      items := items + [Entry(key, value)];
    }

    /** `remove_values(data, key)`: keeps, in order, every item that is not
        an entry under `key`. */
    method RemoveValues(key: string)
      modifies this
      ensures items == Without(old(items), key)
      ensures GetValues(items, key) == []
    {
      WithoutGetValues(items, key);
      items := Without(items, key);
    }
  }

  // ---------------------------------------------------------------------
  // Validity

  /** The fields every stored empire holds exactly once. */
  const RequiredFields: seq<string> :=
    ["key", "origin", "empire_flag", "ruler", "civics", "spawn_enabled", "spawn_as_fallen"]

  /** `is_valid_empire(data)`: each field is checked in turn. */
  predicate IsValidEmpire(data: seq<Datum>)
  {
    if !HasValue(data, "key") then false
    else if !HasValue(data, "origin") then false
    else if !HasValue(data, "empire_flag") then false
    else if !HasValue(data, "ruler") then false
    else if !HasValue(data, "civics") then false
    else if !HasValue(data, "spawn_enabled") then false
    else if !HasValue(data, "spawn_as_fallen") then false
    else true
  }

  /** An empire is valid exactly when every required field has one value. */
  lemma IsValidEmpireFields(data: seq<Datum>)
    ensures IsValidEmpire(data) <==> forall f :: f in RequiredFields ==> HasValue(data, f)
  {
  }

  /** Validity only depends on the values under the required fields. */
  lemma ValidFromValues(a: seq<Datum>, b: seq<Datum>)
    requires forall f :: f in RequiredFields ==> GetValues(a, f) == GetValues(b, f)
    ensures IsValidEmpire(a) <==> IsValidEmpire(b)
  {
    IsValidEmpireFields(a);
    IsValidEmpireFields(b);
  }

  /** An empire lacking a required field is not valid. */
  lemma MissingFieldInvalid(data: seq<Datum>, f: string)
    requires f in RequiredFields
    requires forall i :: 0 <= i < |data| ==> !IsValue(data[i], f)
    ensures !IsValidEmpire(data)
  {
    GetValuesEmpty(data, f);
    IsValidEmpireFields(data);
  }

  // ---------------------------------------------------------------------
  // Storing

  /** A file as `store` writes it: where, and what. */
  datatype StoredFile = StoredFile(path: string, text: string)

  /** Python's `str()` of a looked-up value, as an f-string inserts it. The
      text of a nested block (a list's `repr`) is not modelled. */
  function NameText(v: Option<Value>): (r: Result<string, string>)
    ensures v.Some? && v.value.Str? ==> r == Ok(v.value.s)
    ensures r.Err? <==> v.Some? && v.value.Obj?
  {
    match v
    case None => Ok("None")
    case Some(Str(s)) => Ok(s)
    case Some(Bool(b)) => Ok(if b then "True" else "False")
    case Some(Obj(_)) => Err("block name")
  }

  /** The opening line of a stored empire: its name in quotes, then `={`. */
  function HeaderLine(name: string): string
  {
    "\"" + name + "\"" + "=" + "{"
  }

  /** `store(empire, folder)`: the empire as one block named after its
      `key`, written to `folder/name.txt`. */
  function Store(empire: seq<Datum>, folder: string): (r: Result<StoredFile, string>)
    ensures r.Ok? <==> GetValue(empire, "key").Ok? && NameText(GetValue(empire, "key").value).Ok?
    ensures r.Ok? ==> var p := r.value.path;
      && |p| >= |folder| + 5 && p[..|folder| + 1] == folder + "/" && p[|p| - 4..] == ".txt"
  {
    match GetValue(empire, "key")
    case Err(e) => Err(e)
    case Ok(v) =>
      match NameText(v)
      case Err(e) => Err(e)
      case Ok(name) =>
        Ok(StoredFile(folder + "/" + name + ".txt", StoredText(name, empire)))
  }

  /** The text `store` writes for an empire named `name`: the header line,
      the empire one tab deep, and the closing line. */
  function StoredText(name: string, empire: seq<Datum>): string
  {
    HeaderLine(name) + "\n" + Render(empire, 1) + "}\n"
  }

  /** A name that reads back from a stored header. */
  predicate ShapedName(name: string)
  {
    ShapedText(name) && '=' !in name
  }

  /** The header line reads as the opening of a block named `name`. */
  lemma HeaderLineReads(name: string)
    requires ShapedName(name)
    ensures var line := Strip(HeaderLine(name));
      && '=' in line && SplitAtEquals(line).1 == "{"
      && StripQuotes(SplitAtEquals(line).0) == name
  {
    var q := "\"" + name + "\"";
    var h := HeaderLine(name);
    assert q[0] == '"' && h[0] == '"' && h[|h| - 1] == '{';
    VisibleNotSpace(h[0]);
    VisibleNotSpace(h[|h| - 1]);
    TrimNoop(h, IsPySpace);
    assert '=' !in q;
    SplitAtEqualsOf(q, "{");
    StripQuotesQuoted(name);
  }

  lemma HeaderParses(name: string, rest: seq<string>)
    requires ShapedName(name)
    ensures var lines := [HeaderLine(name)] + rest;
      var inner := ParseLines(rest);
      && ParseLines(lines).0 == [Entry(name, Obj(inner.0))] + ParseLines(inner.1).0
      && ParseLines(lines).1 == ParseLines(inner.1).1
  {
    HeaderLineReads(name);
    ParseOpening(HeaderLine(name), name, rest);
  }

  /** The stored text, as lines. */
  lemma StoredLines(name: string, empire: seq<Datum>)
    ensures HeaderLine(name) + "\n" + Render(empire, 1) + "}\n"
      == Unlines([HeaderLine(name)] + RenderLines(empire, 1) + ["}"])
  {
    var h := HeaderLine(name);
    var body := RenderLines(empire, 1);
    UnlinesAppend([h] + body, ["}"]);
    UnlinesAppend([h], body);
    UnlinesOne(h);
    UnlinesOne("}");
  }

  /** The stored text splits back into the header, the empire's lines and
      the closing `}`. */
  lemma StoredTextLines(name: string, empire: seq<Datum>)
    requires ShapedObject(empire) && ShapedName(name)
    ensures SplitLines(StoredText(name, empire)) == [HeaderLine(name)] + (RenderLines(empire, 1) + ["}"])
  {
    var h := HeaderLine(name);
    var body := RenderLines(empire, 1);
    StoredLines(name, empire);
    assert '\n' !in h;
    RenderedLinesNoNewline(empire, 1);
    NoNewlinesAppend([h], body);
    NoNewlinesAppend([h] + body, ["}"]);
    SplitUnlines([h] + body + ["}"]);
    SeqAssoc([h], body, ["}"]);
  }

  /** Reading back the stored text gives one entry, named `name`, whose
      block is the empire. */
  lemma StoredTextRoundTrip(name: string, empire: seq<Datum>)
    requires ShapedObject(empire) && ShapedName(name)
    ensures ParseText(StoredText(name, empire)) == [Entry(name, Obj(empire))]
  {
    var rest := RenderLines(empire, 1) + ["}"];
    StoredTextLines(name, empire);
    ParseRenderClosed(empire, 1);
    HeaderParses(name, rest);
    assert ParseLines([]) == ([], []);
  }

  /** `store` names the file and the block after the empire's `key`, and
      reading the file back gives that one block. */
  lemma StoreRoundTrip(empire: seq<Datum>, folder: string, name: string)
    requires ShapedObject(empire) && ShapedName(name)
    requires GetValue(empire, "key").Ok? && NameText(GetValue(empire, "key").value) == Ok(name)
    ensures Store(empire, folder) == Ok(StoredFile(folder + "/" + name + ".txt", StoredText(name, empire)))
    ensures ParseText(Store(empire, folder).value.text) == [Entry(name, Obj(empire))]
  {
    StoredTextRoundTrip(name, empire);
  }
}
