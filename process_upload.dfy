/** The upload handler: the checks on the posted form, the names of the
    empires the user picked, and the import that rewrites each picked empire
    for the server and stores it under the user's pending folder. */
module ProcessUpload {
  import opened Wrappers
  import opened Text
  import opened Parser
  import opened Importer
  import opened UserEmpires

  // ---------------------------------------------------------------------
  // The rewrite of one empire

  /** Initializers whose name starts with this are the game's per-save
      custom systems; they are cleared on import. */
  const InitPrefix: string := "custom_starting_init_"

  /** `str(get_value(empire, "initializer")).startswith(...)`. Only a string
      value can start with the prefix: `None`, `True`, `False` and a list's
      `repr` (which begins with `[`) never do. */
  predicate ClearsInitializer(v: Option<Value>)
  {
    v.Some? && v.value.Str? && InitPrefix <= v.value.s
  }

  /** The test agrees with the text `str()` gives the value. */
  lemma ClearsInitializerText(v: Option<Value>)
    requires NameText(v).Ok?
    ensures ClearsInitializer(v) <==> InitPrefix <= NameText(v).value
  {
    var t := NameText(v).value;
    if InitPrefix <= t {
      assert t[0] == 'c';
    }
  }

  /** The entries the import writes at the end of every stored empire. */
  function Trailer(username: string): seq<Datum>
  {
    [Entry("spawn_enabled", Str("always")), Entry("spawn_as_fallen", Bool(false)), Entry("author", Str(username))]
  }

  /** The keys the import rewrites. */
  const Rewritten: set<string> := {"initializer", "spawn_enabled", "spawn_as_fallen", "author"}

  /** `remove_values` followed by `add_value`, as a value. */
  function Replace(data: seq<Datum>, key: string, v: Value): seq<Datum>
  {
    Without(data, key) + [Entry(key, v)]
  }

  /** The empire after lines 68-72 of the handler: a custom initializer
      (the looked-up value `v`) is replaced by an empty one. */
  function Cleared(empire: seq<Datum>, v: Option<Value>): seq<Datum>
  {
    if ClearsInitializer(v) then Replace(empire, "initializer", Str("")) else empire
  }

  /** The empire after lines 74-81 of the handler: the three server fields
      rewritten. */
  function Finished(empire: seq<Datum>, username: string): seq<Datum>
  {
    Replace(Replace(Replace(empire, "spawn_enabled", Str("always")), "spawn_as_fallen", Bool(false)), "author", Str(username))
  }

  /** The empire after lines 68-81 of the handler: an error when it has
      several `initializer` entries, otherwise the empire with a custom
      initializer cleared and the three server fields written last. */
  function Prepared(empire: seq<Datum>, username: string): (r: Result<seq<Datum>, string>)
    ensures r.Err? <==> |GetValues(empire, "initializer")| > 1
  {
    match GetValue(empire, "initializer")
    case Err(e) => Err(e)
    case Ok(v) => Ok(Finished(Cleared(empire, v), username))
  }

  /** After `Replace`, `key` holds exactly the new value and every other key
      holds what it held. */
  lemma ReplaceValues(data: seq<Datum>, key: string, v: Value)
    ensures GetValues(Replace(data, key, v), key) == [v]
    ensures forall other :: other != key ==> GetValues(Replace(data, key, v), other) == GetValues(data, other)
  {
    GetValuesAppend(Without(data, key), [Entry(key, v)], key);
    WithoutGetValues(data, key);
    forall other | other != key
      ensures GetValues(Replace(data, key, v), other) == GetValues(data, other)
    {
      GetValuesAppend(Without(data, key), [Entry(key, v)], other);
      WithoutOtherKey(data, key, other);
    }
  }

  /** A block with the entries under `keys` taken out. */
  function Others(data: seq<Datum>, keys: set<string>): (r: seq<Datum>)
    ensures forall i :: 0 <= i < |r| ==> !(r[i].Entry? && r[i].key in keys)
  {
    if data == [] then []
    else (if data[0].Entry? && data[0].key in keys then [] else [data[0]]) + Others(data[1..], keys)
  }

  lemma {:induction false} OthersAppend(a: seq<Datum>, b: seq<Datum>, keys: set<string>)
    ensures Others(a + b, keys) == Others(a, keys) + Others(b, keys)
  {
    if a == [] {
      assert a + b == b;
    } else {
      assert (a + b)[0] == a[0] && (a + b)[1..] == a[1..] + b;
      OthersAppend(a[1..], b, keys);
      var head := if a[0].Entry? && a[0].key in keys then [] else [a[0]];
      SeqAssoc(head, Others(a[1..], keys), Others(b, keys));
    }
  }

  /** Removing one of `keys` first changes nothing about what `Others` keeps. */
  lemma {:induction false} OthersWithout(data: seq<Datum>, key: string, keys: set<string>)
    requires key in keys
    ensures Others(Without(data, key), keys) == Others(data, keys)
  {
    if data != [] {
      OthersWithout(data[1..], key, keys);
      var head := if IsValue(data[0], key) then [] else [data[0]];
      OthersAppend(head, Without(data[1..], key), keys);
    }
  }

  /** `Replace` under one of `keys` keeps the other items as they were. */
  lemma OthersReplace(data: seq<Datum>, key: string, v: Value, keys: set<string>)
    requires key in keys
    ensures Others(Replace(data, key, v), keys) == Others(data, keys)
  {
    OthersAppend(Without(data, key), [Entry(key, v)], keys);
    OthersWithout(data, key, keys);
  }

  /** Removal keeps a last entry under another key in last place. */
  lemma WithoutKeepsLast(data: seq<Datum>, d: Datum, key: string)
    requires !IsValue(d, key)
    ensures Without(data + [d], key) == Without(data, key) + [d]
  {
    WithoutAppend(data, [d], key);
    assert [d][1..] == [];
  }

  /** Three replacements under distinct keys leave the three new entries
      last, in order, each the only one under its key. */
  lemma ReplaceThree(a: seq<Datum>, k1: string, v1: Value, k2: string, v2: Value, k3: string, v3: Value)
    requires k1 != k2 && k1 != k3 && k2 != k3
    ensures var r := Replace(Replace(Replace(a, k1, v1), k2, v2), k3, v3);
      && r == Without(Without(Without(a, k1), k2), k3) + [Entry(k1, v1), Entry(k2, v2), Entry(k3, v3)]
      && GetValues(r, k1) == [v1] && GetValues(r, k2) == [v2] && GetValues(r, k3) == [v3]
  {
    var b := Replace(a, k1, v1);
    var c := Replace(b, k2, v2);
    var w1 := Without(a, k1);
    var w2 := Without(w1, k2);
    var w3 := Without(w2, k3);
    WithoutKeepsLast(w1, Entry(k1, v1), k2);
    WithoutKeepsLast(w2 + [Entry(k1, v1)], Entry(k2, v2), k3);
    WithoutKeepsLast(w2, Entry(k1, v1), k3);
    ReplaceValues(a, k1, v1);
    ReplaceValues(b, k2, v2);
    ReplaceValues(c, k3, v3);
  }

  /** Three replacements leave every other key as it was. */
  lemma ReplaceThreeOther(a: seq<Datum>, k1: string, v1: Value, k2: string, v2: Value, k3: string, v3: Value, key: string)
    requires key != k1 && key != k2 && key != k3
    ensures GetValues(Replace(Replace(Replace(a, k1, v1), k2, v2), k3, v3), key) == GetValues(a, key)
  {
    ReplaceValues(a, k1, v1);
    ReplaceValues(Replace(a, k1, v1), k2, v2);
    ReplaceValues(Replace(Replace(a, k1, v1), k2, v2), k3, v3);
  }

  /** The rewritten empire ends with `spawn_enabled="always"`,
      `spawn_as_fallen=no` and `author=<username>`, in that order, and none of
      the three occurs before them. */
  lemma PreparedEnding(empire: seq<Datum>, username: string)
    requires Prepared(empire, username).Ok?
    ensures var r := Prepared(empire, username).value;
      && |r| >= 3 && r[|r| - 3..] == Trailer(username)
      && GetValues(r, "spawn_enabled") == [Str("always")]
      && GetValues(r, "spawn_as_fallen") == [Bool(false)]
      && GetValues(r, "author") == [Str(username)]
  {
    var a := Cleared(empire, GetValue(empire, "initializer").value);
    ReplaceThree(a, "spawn_enabled", Str("always"), "spawn_as_fallen", Bool(false), "author", Str(username));
  }

  /** Apart from the rewritten keys, the empire keeps every item in its
      order; an initializer that is not custom is left where it was, a custom
      one becomes a single empty value. */
  lemma PreparedKeepsOthers(empire: seq<Datum>, username: string)
    requires Prepared(empire, username).Ok?
    ensures var r := Prepared(empire, username).value;
      && Others(r, Rewritten) == Others(empire, Rewritten)
      && (if ClearsInitializer(GetValue(empire, "initializer").value)
          then GetValues(r, "initializer") == [Str("")]
          else GetValues(r, "initializer") == GetValues(empire, "initializer"))
  {
    var v := GetValue(empire, "initializer").value;
    var a := Cleared(empire, v);
    var b := Replace(a, "spawn_enabled", Str("always"));
    var c := Replace(b, "spawn_as_fallen", Bool(false));
    if ClearsInitializer(v) {
      OthersReplace(empire, "initializer", Str(""), Rewritten);
      ReplaceValues(empire, "initializer", Str(""));
    }
    OthersReplace(a, "spawn_enabled", Str("always"), Rewritten);
    OthersReplace(b, "spawn_as_fallen", Bool(false), Rewritten);
    OthersReplace(c, "author", Str(username), Rewritten);
    ReplaceThreeOther(a, "spawn_enabled", Str("always"), "spawn_as_fallen", Bool(false), "author", Str(username), "initializer");
  }

  /** Every key outside the rewritten ones holds the same values afterwards. */
  lemma PreparedOtherValues(empire: seq<Datum>, username: string, key: string)
    requires Prepared(empire, username).Ok? && key !in Rewritten
    ensures GetValues(Prepared(empire, username).value, key) == GetValues(empire, key)
  {
    var v := GetValue(empire, "initializer").value;
    if ClearsInitializer(v) {
      ReplaceValues(empire, "initializer", Str(""));
    }
    ReplaceThreeOther(Cleared(empire, v), "spawn_enabled", Str("always"), "spawn_as_fallen", Bool(false), "author", Str(username), key);
  }

  /** An empire that passed validation is still valid after the rewrite. */
  lemma PreparedStaysValid(empire: seq<Datum>, username: string)
    requires IsValidEmpire(empire) && Prepared(empire, username).Ok?
    ensures IsValidEmpire(Prepared(empire, username).value)
  {
    var r := Prepared(empire, username).value;
    PreparedEnding(empire, username);
    IsValidEmpireFields(empire);
    IsValidEmpireFields(r);
    forall f | f in RequiredFields
      ensures HasValue(r, f)
    {
      if f !in Rewritten {
        PreparedOtherValues(empire, username, f);
      }
    }
  }

  /** Lines 68-81 of the handler on the record object: the lookup that may
      raise, then the in-place removals and appends. */
  method Prepare(empire: ClausObject, username: string) returns (r: Result<(), string>)
    modifies empire
    ensures r.Ok? <==> Prepared(old(empire.items), username).Ok?
    ensures r.Ok? ==> empire.items == Prepared(old(empire.items), username).value
    ensures r.Err? ==> (r.error == Prepared(old(empire.items), username).error
      && empire.items == old(empire.items))
  {
    var systemType := GetValue(empire.items, "initializer");
    if systemType.Err? {
      return Err(systemType.error);
    }
    if ClearsInitializer(systemType.value) {
      empire.RemoveValues("initializer");
      empire.AddValue("initializer", Str(""));
    }
    empire.RemoveValues("spawn_enabled");
    empire.AddValue("spawn_enabled", Str("always"));
    empire.RemoveValues("spawn_as_fallen");
    empire.AddValue("spawn_as_fallen", Bool(false));
    empire.RemoveValues("author");
    empire.AddValue("author", Str(username));
    r := Ok(());
  }

  // ---------------------------------------------------------------------
  // The import loop

  /** What the loop does with one top-level item. */
  datatype Outcome = Skipped | Rejected(name: string) | Stored(name: string, file: StoredFile)

  /** The folder new uploads of `username` go to. */
  function PendingFolder(username: string): string
  {
    "pending/" + username
  }

  /** One turn of the loop. A bare string is unpacked by Python into a name
      and an empire: two characters unpack (and are then skipped, since a
      character is not a list), any other length raises. An entry not picked
      by the user, or whose value is not a block, is skipped. */
  function ImportItem(item: Datum, wanted: seq<string>, username: string): (r: Result<Outcome, string>)
    ensures r.Err? ==> (item.Bare? && |item.text| != 2) || (item.Entry? && item.key in wanted && item.value.Obj?)
    ensures r == Ok(Skipped) <==> (item.Bare? && |item.text| == 2) || (item.Entry? && (item.key !in wanted || !item.value.Obj?))
    ensures r.Ok? && r.value.Rejected? <==> item.Entry? && item.key in wanted && item.value.Obj? && !IsValidEmpire(item.value.items)
    ensures r.Ok? && r.value.Stored? ==> (item.Entry? && r.value.name == item.key && IsValidEmpire(item.value.items)
      && Prepared(item.value.items, username).Ok?
      && Store(Prepared(item.value.items, username).value, PendingFolder(username)) == Ok(r.value.file))
  {
    match item
    case Bare(text) => if |text| == 2 then Ok(Skipped) else Err("ValueError: cannot unpack")
    case Entry(name, v) =>
      if name !in wanted || !v.Obj? then Ok(Skipped)
      else if !IsValidEmpire(v.items) then Ok(Rejected(name))
      else
        match Prepared(v.items, username)
        case Err(e) => Err(e)
        case Ok(empire) =>
          match Store(empire, PendingFolder(username))
          case Err(e) => Err(e)
          case Ok(file) => Ok(Stored(name, file))
  }

  /** The report line of one outcome. */
  function ReportLine(o: Outcome): string
  {
    match o
    case Skipped => ""
    case Rejected(name) => name + " does not appear to be a valid empire?\n"
    case Stored(name, _) => "Stored " + name + "\n"
  }

  /** The files one outcome writes. */
  function Written(o: Outcome): seq<StoredFile>
  {
    if o.Stored? then [o.file] else []
  }

  /** The state of the import after some items: the report lines so far (or
      the exception that stopped it) and every file written before that. */
  datatype Progress = Progress(lines: Result<string, string>, stored: seq<StoredFile>)

  /** The import over `items`, one turn at a time. Once an item raises,
      later items are not looked at; the files written before remain. */
  function Imported(items: seq<Datum>, wanted: seq<string>, username: string): (p: Progress)
    decreases |items|
  {
    if items == [] then Progress(Ok(""), [])
    else
      var prev := Imported(items[..|items| - 1], wanted, username);
      if prev.lines.Err? then prev
      else match ImportItem(items[|items| - 1], wanted, username)
        case Err(e) => Progress(Err(e), prev.stored)
        case Ok(o) => Progress(Ok(prev.lines.value + ReportLine(o)), prev.stored + Written(o))
  }

  /** An exception stops the import for good. */
  lemma {:induction false} ImportedStops(items: seq<Datum>, n: nat, wanted: seq<string>, username: string)
    requires n <= |items| && Imported(items[..n], wanted, username).lines.Err?
    ensures Imported(items, wanted, username) == Imported(items[..n], wanted, username)
    decreases |items| - n
  {
    if n < |items| {
      var longer := items[..n + 1];
      assert longer[..|longer| - 1] == items[..n];
      ImportedStops(items, n + 1, wanted, username);
    } else {
      assert items[..n] == items;
    }
  }

  /** The import of `items` followed by one more item. */
  lemma ImportedSnoc(items: seq<Datum>, x: Datum, wanted: seq<string>, username: string)
    ensures Imported(items + [x], wanted, username) ==
      var prev := Imported(items, wanted, username);
      if prev.lines.Err? then prev
      else match ImportItem(x, wanted, username)
        case Err(e) => Progress(Err(e), prev.stored)
        case Ok(o) => Progress(Ok(prev.lines.value + ReportLine(o)), prev.stored + Written(o))
  {
    assert (items + [x])[..|items + [x]| - 1] == items;
  }

  /** Every file the import writes lies in the user's pending folder, and
      there is at most one file per uploaded item. */
  lemma {:induction false} ImportedFiles(items: seq<Datum>, wanted: seq<string>, username: string)
    ensures var files := Imported(items, wanted, username).stored;
      && |files| <= |items|
      && forall k :: 0 <= k < |files| ==>
        |files[k].path| > |PendingFolder(username)| && files[k].path[..|PendingFolder(username)| + 1] == PendingFolder(username) + "/"
    decreases |items|
  {
    if items != [] {
      var init := items[..|items| - 1];
      var x := items[|items| - 1];
      assert items == init + [x];
      ImportedFiles(init, wanted, username);
      ImportedSnoc(init, x, wanted, username);
    }
  }

  /** The first line of every report. */
  function Header(wanted: seq<string>): string
  {
    "Attempt Upload " + Join(", ", wanted) + ".\n\n"
  }

  /** The last line of every report. */
  const Footer: string := "\nPage will refresh in 5 seconds..."

  /** One turn of the loop for an entry `name=v`: the checks, then the
      rewrite of the record object and the store. */
  method ImportEntry(name: string, v: Value, wanted: seq<string>, username: string)
    returns (outcome: Result<Outcome, string>)
    ensures outcome == ImportItem(Entry(name, v), wanted, username)
  {
    if name !in wanted || !v.Obj? {
      return Ok(Skipped);
    }
    if !IsValidEmpire(v.items) {
      return Ok(Rejected(name));
    }
    var empire := new ClausObject(v.items);
    var prepared := Prepare(empire, username);
    if prepared.Err? {
      return Err(prepared.error);
    }
    var file := Store(empire.items, PendingFolder(username));
    if file.Err? {
      return Err(file.error);
    }
    return Ok(Stored(name, file.value));
  }

  /** `do_import(empires, wanted, username)`: walks the uploaded items in
      order, rewriting and storing each picked valid empire, and returns the
      report, or the exception that stopped it; either way the files written
      so far are returned too. */
  method DoImport(empires: seq<Datum>, wanted: seq<string>, username: string)
    returns (report: Result<string, string>, stored: seq<StoredFile>)
    ensures var p := Imported(empires, wanted, username);
      && stored == p.stored
      && (p.lines.Ok? ==> report == Ok(Header(wanted) + p.lines.value + Footer))
      && (p.lines.Err? ==> report == p.lines)
    ensures report.Ok? ==> (Header(wanted) <= report.value
      && report.value[|report.value| - |Footer|..] == Footer)
  {
    var lines := "";
    stored := [];
    var i := 0;
    while i < |empires|
      invariant 0 <= i <= |empires|
      invariant Imported(empires[..i], wanted, username) == Progress(Ok(lines), stored)
    {
      var item := empires[i];
      assert empires[..i + 1] == empires[..i] + [item];
      ImportedSnoc(empires[..i], item, wanted, username);
      var outcome;
      match item {
        case Bare(text) =>
          outcome := if |text| == 2 then Ok(Skipped) else Err("ValueError: cannot unpack");
        case Entry(name, v) =>
          outcome := ImportEntry(name, v, wanted, username);
      }
      assert outcome == ImportItem(item, wanted, username);
      match outcome {
        case Err(e) =>
          report := Err(e);
          ImportedStops(empires, i + 1, wanted, username);
          return;
        case Ok(Skipped) =>
          assert lines + ReportLine(Skipped) == lines && stored + Written(Skipped) == stored;
        case Ok(Rejected(name)) =>
          lines := lines + (name + " does not appear to be a valid empire?\n");
        case Ok(Stored(name, file)) =>
          stored := stored + [file];
          lines := lines + ("Stored " + name + "\n");
      }
      i := i + 1;
    }
    assert empires[..i] == empires;
    report := Ok(Header(wanted) + lines + Footer);
    assert (Header(wanted) + lines + Footer)[..|Header(wanted)|] == Header(wanted);
  }

  // ---------------------------------------------------------------------
  // The request

  /** One value of the posted form: text, or the bytes of an uploaded file
      (held here as the text they decode to). */
  datatype FormValue = FormText(text: string) | FormBytes(decoded: string)

  /** What the handler answers. */
  datatype Reply =
    | Unsupported(code: int, message: string)
    | Created(report: string)
    | Failed(error: string)

  /** Python's `str()` of a form value: a string is itself, bytes show as
      `b'...'` around them, which is their `repr` when they are printable
      ASCII without `'` or `\`. */
  function FormString(v: FormValue): string
  {
    match v
    case FormText(t) => t
    case FormBytes(d) => "b'" + d + "'"
  }

  /** One picked name: surrounding whitespace removed, then surrounding
      double quotes. */
  function WantedName(raw: string): (r: string)
    ensures r == [] || (!IsQuote(r[0]) && !IsQuote(r[|r| - 1]))
  {
    StripQuotes(Strip(raw))
  }

  /** A name sent without quotes is only stripped of whitespace, so it has
      no surrounding whitespace left. */
  lemma WantedNameUnquoted(raw: string)
    requires '"' !in raw
    ensures WantedName(raw) == Strip(raw)
    ensures var r := WantedName(raw); r == [] || (!IsPySpace(r[0]) && !IsPySpace(r[|r| - 1]))
  {
    var stripped := Strip(raw);
    var a := TrimStart(raw, IsPySpace);
    assert stripped == TrimEnd(a, IsPySpace);
    assert forall n :: 0 <= n < |stripped| ==> stripped[n] == raw[|raw| - |a| + n];
    TrimNoop(stripped, IsQuote);
  }

  /** The names `process_upload` takes from the form's `select` values. */
  function Wanted(select: seq<FormValue>): (r: seq<string>)
    ensures |r| == |select| && forall i :: 0 <= i < |r| ==> r[i] == WantedName(FormString(select[i]))
  {
    if select == [] then [] else [WantedName(FormString(select[0]))] + Wanted(select[1..])
  }

  /** The handler rejects a form without `select` or `file`, or whose first
      `file` value is not bytes. */
  predicate Acceptable(form: map<string, seq<FormValue>>)
  {
    "select" in form && "file" in form && form["file"] != [] && form["file"][0].FormBytes?
  }

  /** `process_upload(self, msg, username)`: checks the form, parses the
      upload, imports the picked empires and answers with the report. The
      folders it creates are not modelled. */
  method HandleUpload(form: map<string, seq<FormValue>>, username: string)
    returns (reply: Reply, stored: seq<StoredFile>)
    ensures reply.Unsupported? <==> !("select" in form && "file" in form) || (form["file"] != [] && !form["file"][0].FormBytes?)
    ensures reply.Unsupported? ==> reply.code == 415 && stored == []
    ensures reply.Failed? && "file" in form && form["file"] == [] ==> stored == []
    ensures Acceptable(form) ==>
      var p := Imported(ParseUserEmpires(form["file"][0].decoded), Wanted(form["select"]), username);
      && stored == p.stored
      && (p.lines.Ok? ==> reply == Created(Header(Wanted(form["select"])) + p.lines.value + Footer))
      && (p.lines.Err? ==> reply == Failed(p.lines.error))
  {
    stored := [];
    if "select" !in form || "file" !in form {
      return Unsupported(415, "Missing file or empire list in post data"), [];
    }
    if form["file"] == [] {
      return Failed("IndexError: list index out of range"), [];
    }
    if !form["file"][0].FormBytes? {
      return Unsupported(415, "Missing file or empire list in post data"), [];
    }
    var upload := form["file"][0].decoded;
    var empires := ParseUserEmpires(upload);
    var wanted := Wanted(form["select"]);
    var report;
    report, stored := DoImport(empires, wanted, username);
    if report.Ok? {
      reply := Created(report.value);
    } else {
      reply := Failed(report.error);
    }
  }
}
