# Stellaris Empire Exchange — a verified model of its core

Stellaris Empire Exchange is a small web service for sharing custom empires
of the game Stellaris. Users upload their `user_empire_designs.txt`. They
pick empires in the browser. The server repairs the file, parses it, rewrites
each picked empire and stores it in the user's pending folder. The list page
summarises stored empires. The download page selects empires, either at
random or balanced by author, and packs them into a mod.

This project models the core of that service in Dafny and proves properties
of the model:

- `parser.dfy` (module `Parser`): the game's brace-delimited `key=value`
  text format. A `LineReader` class holds the lines and a cursor that the
  recursive `Parse` calls share. It is proved against the function
  `ParseLines`. A `Writer` class receives the indented text, and `Write` is
  proved against the function `Render`. Both are tied together by a round
  trip.
- `importer.dfy` (module `Importer`): key lookup on a record, the in-place
  `add_value`/`remove_values` (class `ClausObject`), `is_valid_empire`, and
  the file name and text that `store` writes.
- `user_empires.dfy` (module `UserEmpires`): the six substitutions that
  `parse_user_empires` makes before parsing, each as a hand-written string
  rewrite. `repair_examples.dfy` (module `RepairExamples`) proves what the
  chain does on typical inputs.
- `process_upload.dfy` (module `ProcessUpload`): the form checks of
  `process_upload`, the `wanted` names, and the `do_import` loop with its
  report and stored files.
- `mod.dfy` (module `Mod`): `normalise_path` and the `ModPack` class with
  its two path maps, which are kept disjoint, and its two sets.
- `download_modpack.dfy` (module `DownloadModpack`): the author map, the
  approved-before-pending shuffle, and the random and author-balanced picks.
- `empire_list.dfy` (module `EmpireList`): the summary of one stored file,
  and the page that lists them all.
- `upload.dfy` (module `Upload`): the browser's brace-depth splitter
  `processEmpires` and the preview `processEmpire`.
- `text.dfy` (module `Text`) and `wrappers.dfy` (module `Wrappers`):
  Python and JavaScript string helpers, and `Option`/`Result`.

Exceptions the source raises are modelled as the `Err` case of a `Result`.
Randomness is modelled as any permutation or subset. `glob` results and the
contents of files are modelled as inputs.

## Model

| member | source | states |
|---|---|---|
| Parser.ParseLines | src/clauswitz/parser.py:13-46 | what `parse` returns for a stream of lines, and the lines it leaves unread; these are always a suffix of its input |
| Parser.SplitAtEquals | src/clauswitz/parser.py:32 | a line is cut at its first `=`: the key holds no `=` and the value keeps any later ones |
| Parser.LineReader.ReadLine | src/clauswitz/parser.py:17-20 | `readline` yields the next unread line and advances the shared cursor by one, or yields nothing at end of input |
| Parser.Parse | src/clauswitz/parser.py:13-46 | the reading loop returns exactly `ParseLines` of the unread lines and leaves the cursor where `ParseLines` stops: at end of input or just after a `}` line |
| Parser.ParseString | src/clauswitz/parser.py:13-46 | parsing a whole text gives `ParseText` of it |
| Parser.Writer.Write | src/clauswitz/parser.py:51 | a write appends its text to the stream |
| Parser.WriteLiteral | src/clauswitz/parser.py:77-85 | `write_literal` appends `yes`/`no`, the bare `male`/`female`, or the string in double quotes |
| Parser.WriteItem | src/clauswitz/parser.py:50-74 | one item appends its tab-indented line, or its block of lines |
| Parser.Write | src/clauswitz/parser.py:49-74 | `write` appends exactly `Render(data, depth)` |
| Parser.DatumText | src/clauswitz/parser.py:51-74 | a bare item is one indented literal line; a key with a literal is `key=literal`; an empty list is `key={}`; a non-empty list is `key={`, its items one tab deeper, then the indented `}` |
| Parser.QuotedKey | src/clauswitz/parser.py:60 | a key containing a space is written in double quotes |
| Parser.KeyRoundTrip | src/clauswitz/parser.py:43-60 | a written key has no `=` and reads back as the key after the quotes are stripped |
| Parser.LiteralRoundTrip | src/clauswitz/parser.py:34-85 | a written literal reads back as the same string or boolean |
| Parser.ParseRenderLines | src/clauswitz/parser.py:13-74 | parsing the lines `write` produces, followed by a `}` line or by the end of input, gives back the object and consumes exactly that `}` |
| Parser.ParseWriteRoundTrip | src/clauswitz/parser.py:13-74 | `parse(write(o)) == o` for every object with no empty list, no string with an outer quote or a newline, no `=` in keys or bare strings, and no key with outer whitespace |
| Importer.GetValues | src/importer.py:66-69 | `get_values` has at most one value per item |
| Importer.GetValuesAppend | src/importer.py:66-69 | the values of two runs of items are those of the first, then those of the second: file order is kept |
| Importer.GetValuesMember | src/importer.py:66-69 | a value is found under a key exactly when that entry is in the record; bare strings are never found |
| Importer.HasValueUnique | src/importer.py:72-73 | `has_value` holds exactly when one entry, and only one, has the key |
| Importer.GetValue | src/importer.py:76-85 | `get_value` raises exactly when the key appears more than once, is `None` exactly when it does not appear, and is otherwise the single value |
| Importer.ClausObject.AddValue | src/importer.py:88-89 | `add_value` appends the entry at the end, so the key's values gain the new one last |
| Importer.ClausObject.RemoveValues | src/importer.py:92-97 | `remove_values` keeps exactly the items that are not entries with the key, in order, and the key then has no values |
| Importer.WithoutIdempotent | src/importer.py:96-97 | removing a key twice is removing it once |
| Importer.WithoutOtherKey | src/importer.py:96-97 | removing a key leaves the values of every other key as they were |
| Importer.IsValidEmpireFields | src/importer.py:41-63 | `is_valid_empire` holds exactly when each of the seven fields has exactly one value |
| Importer.MissingFieldInvalid | src/importer.py:41-63 | an empire missing one of the seven fields is invalid |
| Importer.NameText | src/importer.py:32-33 | the text `str()` gives the name: a string is itself, and a nested list is not modelled |
| Importer.Store | src/importer.py:31-38 | `store` fails exactly when the key lookup does; otherwise it writes `folder/<key>.txt` |
| Importer.StoreRoundTrip | src/importer.py:31-38 | the stored file is `"<key>"={`, the empire one tab deep and `}`, and it parses back to the one entry `<key>` holding the empire |
| UserEmpires.DropCarriageReturns | src/importer.py:17 | step 1 leaves no carriage return and every other character |
| UserEmpires.InsertEquals | src/importer.py:20 | after step 2, no `{` follows a word character directly |
| UserEmpires.InsertEqualsKeepsText | src/importer.py:20 | step 2 only inserts `=` |
| UserEmpires.InsertEqualsNoop | src/importer.py:20 | text where no `{` follows a word character is unchanged by step 2 |
| UserEmpires.SpaceThenBraceOf | src/importer.py:21 | `\s*{` matches any run of whitespace followed by `{`, and returns the text after the `{` |
| UserEmpires.SpaceThenBraceSplit | src/importer.py:21 | every match of `\s*{` is whitespace only, then `{`, then the text it returns |
| UserEmpires.CollapseEqualsKeepsText | src/importer.py:21 | step 3 only deletes whitespace |
| UserEmpires.JoinEqualsKeepsText | src/importer.py:22 | step 4 only deletes newlines |
| UserEmpires.JoinEqualsNoop | src/importer.py:22 | text with no newline directly before `={` is unchanged by step 4 |
| UserEmpires.BreakAfterOpenKeepsText | src/importer.py:23 | step 5 only inserts newlines |
| UserEmpires.BreakAfterOpenNoop | src/importer.py:23 | text where every `={` ends its line is unchanged by step 5 |
| UserEmpires.DropEmptyBracesKeepsText | src/importer.py:26 | step 6 only deletes whitespace and braces |
| UserEmpires.DropEmptyBracesNoop | src/importer.py:26 | text without `}` is unchanged by step 6 |
| UserEmpires.DropEmptyBracesKeepsBlocks | src/importer.py:26 | text where every `{` follows an `=` is unchanged by step 6 |
| UserEmpires.RepairKeepsText | src/importer.py:17-26 | the whole repair keeps every character other than layout, `=` and braces, in order |
| UserEmpires.RepairChars | src/importer.py:17-26 | the repaired text holds only characters of the input other than carriage returns, plus `=` and newlines |
| RepairExamples.RepairDialect | src/importer.py:20-23 | `foo{` on its own line becomes `foo={` |
| RepairExamples.RepairJoinedLine | src/importer.py:22-23 | a `={` on the line after its key is joined to that key |
| RepairExamples.DialectParses | src/importer.py:15-28 | a block opened without `=` parses as that block, holding its entry |
| RepairExamples.RepairNotIdempotent | src/importer.py:15-28 | after a blank line one repair leaves a block with an empty key; a second repair joins it to its key, so parsing twice-repaired text differs |
| ProcessUpload.Prepared | src/handlers/process_upload.py:68-81 | the rewrite of one empire raises exactly when it has several `initializer` entries |
| ProcessUpload.ClearsInitializerText | src/handlers/process_upload.py:70 | the initializer test is the test on `str()` of the looked-up value |
| ProcessUpload.ReplaceValues | src/handlers/process_upload.py:71-81 | a remove followed by an add leaves the key with exactly the new value and every other key as it was |
| ProcessUpload.PreparedEnding | src/handlers/process_upload.py:74-81 | the rewritten empire ends with `spawn_enabled="always"`, `spawn_as_fallen=no` and `author=<username>`, each key then held exactly once |
| ProcessUpload.PreparedKeepsOthers | src/handlers/process_upload.py:68-81 | every item outside the four rewritten keys stays, in order; the initializer is one empty string exactly when it was a custom one |
| ProcessUpload.PreparedOtherValues | src/handlers/process_upload.py:68-81 | every key outside the rewritten ones keeps its values |
| ProcessUpload.PreparedStaysValid | src/handlers/process_upload.py:64-81 | an empire that passed validation is still valid after the rewrite |
| ProcessUpload.Prepare | src/handlers/process_upload.py:68-81 | the in-place removals and appends on the record give `Prepared`, and a raise leaves it as it was |
| ProcessUpload.ImportItem | src/handlers/process_upload.py:57-84 | an item not picked, or not a block, is skipped; an invalid block is reported; a valid one is rewritten and stored under its name in `pending/<username>`; a bare string that does not unpack raises |
| ProcessUpload.ImportEntry | src/handlers/process_upload.py:57-84 | one turn of the loop on the record object does what `ImportItem` says |
| ProcessUpload.ImportedStops | src/handlers/process_upload.py:57-84 | once an item raises, later items change nothing |
| ProcessUpload.ImportedFiles | src/handlers/process_upload.py:83 | every file the import writes is in the user's pending folder, and there is at most one per item |
| ProcessUpload.DoImport | src/handlers/process_upload.py:54-88 | the report is the header naming the picked empires, one line per reported empire in order, then the footer; the files are stored in input order; a raise returns the files stored before it |
| ProcessUpload.WantedName | src/handlers/process_upload.py:39 | a picked name has no surrounding double quote left |
| ProcessUpload.WantedNameUnquoted | src/handlers/process_upload.py:39 | a name without quotes is only stripped of its whitespace |
| ProcessUpload.Wanted | src/handlers/process_upload.py:39 | one name per `select` value, in order, each `str()`-ed (bytes as a `b'...'` literal, see Left out) then stripped |
| ProcessUpload.HandleUpload | src/handlers/process_upload.py:19-51 | the reply is 415 exactly when `select` or `file` is missing or the first file is not bytes; otherwise it carries the import's report and files |
| Mod.NormalisePath | src/clauswitz/mod.py:21-41 | the normalised path is refused exactly when it is empty or starts with `.` or `/`, and is otherwise returned |
| Mod.NormaliseTwice | src/clauswitz/mod.py:21-41 | an accepted path is accepted again unchanged |
| Mod.MissingFileGuardNeverHolds | src/clauswitz/mod.py:161-162 | the `FileNotFoundError` guard holds for no path |
| Mod.Buffer.Write | src/clauswitz/mod.py:123 | writing to an in-memory file appends the bytes |
| Mod.ModPack.constructor | src/clauswitz/mod.py:71-80 | a new mod pack has its names, the `*` game version, no dependencies, tags or files |
| Mod.ModPack.AddDependency | src/clauswitz/mod.py:82-92 | the dependency set gains the dependency and nothing else changes |
| Mod.ModPack.AddTags | src/clauswitz/mod.py:94-103 | the tag set gains the tag and nothing else changes |
| Mod.ModPack.HasFile | src/clauswitz/mod.py:125-134 | a file is present exactly when its normalised path is a destination of either map; a refused path raises |
| Mod.ModPack.AddFile | src/clauswitz/mod.py:136-170 | returns false and changes nothing when the destination is taken; otherwise records it and returns true; keeps the two maps disjoint |
| Mod.ModPack.GetFileWriter | src/clauswitz/mod.py:172-203 | raises exactly when the path is refused or copied from disk; otherwise returns the existing buffer unchanged, or a new empty one; keeps the maps disjoint |
| Mod.ModPack.AddThumbnail | src/clauswitz/mod.py:105-123 | raises exactly when `thumbnail.png` is already present or refused; otherwise a new in-memory `thumbnail.png` holds the bytes |
| Mod.ListOf | src/clauswitz/mod.py:219-220 | `list(set)` holds every element exactly once |
| Mod.ModPack.GetMetadata | src/clauswitz/mod.py:205-225 | the `.mod` text is the six entries `name`, `version`, `path=mod/<short name>`, `supported_version`, `dependencies` and `tags`, with the two sets listed in some order |
| Mod.MetadataReadsBack | src/clauswitz/mod.py:205-225 | for non-empty dependency and tag lists, the `.mod` text parses back to those six entries |
| Parser.EmptyBlockReadsAsText | src/clauswitz/parser.py:58-70 | an empty list is written `key={}`, which parses back as the string `{}`, not as an empty list |
| DownloadModpack.AuthorOfStored | src/handlers/download_modpack.py:136 | a file `folder/<user>/<name>` belongs to `<user>` |
| DownloadModpack.MakeAuthorMap | src/handlers/download_modpack.py:131-143 | each author maps to that author's files in input order; every file has its author in the map; the authors are listed once each |
| DownloadModpack.AuthorMapPermutation | src/handlers/download_modpack.py:131-143 | the author map's lists, put one after the other, are a permutation of the files |
| DownloadModpack.ShuffleEmpires | src/handlers/download_modpack.py:146-155 | the approved files in some order, then the pending files in some order |
| DownloadModpack.ShuffledOrder | src/handlers/download_modpack.py:146-155 | every approved file of the shuffle comes before every pending one, and all come from the input |
| DownloadModpack.ShuffledAll | src/handlers/download_modpack.py:146-155 | when every file is approved or pending, the shuffle is a permutation of the input |
| DownloadModpack.Sample | src/handlers/download_modpack.py:89 | `random.sample` raises exactly for a negative size or one past the pool; otherwise it picks that many of the pool's entries |
| DownloadModpack.RandomEmpires | src/handlers/download_modpack.py:81-91 | `min(count, len(pool))` distinct files of the pool, which holds pending files only with `unmod`; a negative count raises |
| DownloadModpack.PickOne | src/handlers/download_modpack.py:120-125 | the inner loop selects the first of the author's files not yet selected, if any |
| DownloadModpack.PickOneGrows | src/handlers/download_modpack.py:118-125 | one author's turn adds at most one file, one of their own, and adds one exactly when some file of theirs is still unselected |
| DownloadModpack.AuthorTurn | src/handlers/download_modpack.py:118-125 | one author's turn adds at most one of that author's files, and adds none only when all of them are selected |
| DownloadModpack.PassTurn | src/handlers/download_modpack.py:118-128 | within a pass, an author's turn adds at most one file, one of that author's, and adds none only when all their files are selected |
| DownloadModpack.OnePerAuthorStep | src/handlers/download_modpack.py:118-125 | after an author's turn, the files added in this pass are still at most one per author, each of an author who had a turn |
| DownloadModpack.Pass | src/handlers/download_modpack.py:116-128 | one pass over the authors only selects files of the pool, adds at most one file per author, stops when `count` are selected, and otherwise adds at least one |
| DownloadModpack.PassGrows | src/handlers/download_modpack.py:116-128 | a pass in which every author had a turn without reaching `count` selected at least one more file |
| DownloadModpack.Passes | src/handlers/download_modpack.py:115-128 | the passes end with `max(count, 1)` distinct files of the pool |
| DownloadModpack.AuthorBalancedEmpires | src/handlers/download_modpack.py:94-128 | the whole pool when it has no more than `count` files (or none at all), otherwise `max(count, 1)` distinct files of the pool |
| DownloadModpack.SelectEmpires | src/handlers/download_modpack.py:74-78 | the author-balanced pick exactly when `balance_authors` is set, the random pick otherwise |
| DownloadModpack.AsWrittenEmptyPoolHangs | src/handlers/download_modpack.py:94-128 | as written, an empty pool with a negative count never returns, however many passes are made |
| EmpireList.RemoveAllMissing | src/handlers/ajax_empire_list.py:39 | `replace` of a pattern that does not occur changes nothing |
| EmpireList.ReplaceChar | src/handlers/ajax_empire_list.py:39 | every `_` becomes a space and nothing else changes |
| EmpireList.EthicLabel | src/handlers/ajax_empire_list.py:39 | a label holds no `_` and is no longer than the ethic |
| EmpireList.EthicLabelOf | src/handlers/ajax_empire_list.py:39 | the label of `ethic_<name>` is the name with every `_` turned into a space |
| EmpireList.Labels | src/handlers/ajax_empire_list.py:39 | one label per ethic, in order; a value that is not a string raises |
| EmpireList.Summarise | src/handlers/ajax_empire_list.py:29-39 | a one-entry file is unwrapped; name and author come from `get_value` and raise on a duplicate; the ethics' labels keep file order |
| EmpireList.StoredUnwraps | src/handlers/ajax_empire_list.py:30-32 | a file as `store` writes it unwraps to the stored empire |
| EmpireList.CollectStop | src/handlers/ajax_empire_list.py:24-42 | once a file raises, the page fails with that error |
| EmpireList.SummariesInOrder | src/handlers/ajax_empire_list.py:24-42 | one summary per file, in file order, and the page succeeds exactly when every file does |
| EmpireList.ListEmpires | src/handlers/ajax_empire_list.py:24-42 | the loop over the files gives exactly those summaries or the first error |
| Upload.JsIndexOf | html/upload.js:47-56 | `indexOf` gives the first matching position at or after the start, or -1 when there is none |
| Upload.ScanTurn | html/upload.js:54-88 | the loop body computes the turn `Step` describes; the `Step` lemmas below say what a turn does |
| Upload.StepStops | html/upload.js:55-61 | a turn returns without a chunk exactly when no brace is left after the offset |
| Upload.StepOpen | html/upload.js:55-67 | a `{` that comes first and has a `}` after it moves the offset to it, one level deeper |
| Upload.StepClose | html/upload.js:55-76 | a `}` that comes first and leaves the depth nonzero moves the offset to it, one level up |
| Upload.StepCut | html/upload.js:55-84 | a `}` that brings the depth to zero cuts the text from `start` up to that `}`, and with no `{` after it the loop returns |
| Upload.StepCutNext | html/upload.js:55-88 | after such a cut with a `{` ahead, the next empire starts just past the `}`, one level deep at that `{` |
| Upload.StepLoneOpen | html/upload.js:55-88 | with no `}` left, a `{` counts as a close against -1: above depth one the offset returns to -1; at depth one the text before `start` is cut and the next empire starts at 0 |
| Upload.StepDeeper | html/upload.js:55-67 | a turn goes one level deeper exactly when the first brace after the offset is a `{` with a `}` after it |
| Upload.StepChunk | html/upload.js:55-79 | a turn cuts a chunk exactly when a brace is left, it is not such a `{`, and the depth before the turn is one |
| Upload.StepReturns | html/upload.js:55-84 | the loop returns exactly when no brace is left, or when the turn cuts a chunk and no `{` follows the offset |
| Upload.AppendPreview | html/upload.js:79-116 | the previews gain that of the chunk a turn cuts |
| Upload.Advance | html/upload.js:53-89 | the chunks of a run are those of its first turn followed by those of the rest |
| Upload.ProcessEmpires | html/upload.js:35-90 | within a bound on the loop's turns, the previews of the chunks the scan cuts, in order, and whether the loop returned |
| Upload.PreviewsInOrder | html/upload.js:79-116 | one preview per chunk, in order |
| Upload.NoBraces | html/upload.js:55-61 | text without braces shows no empire and the loop returns at once |
| Upload.RunChain | html/upload.js:53-89 | a chain of turns cutting the given chunks is what the loop runs through |
| Upload.FlatChain | html/upload.js:53-89 | empires without nested blocks, one after another, form such a chain, one chunk per empire |
| Upload.FlatUpload | html/upload.js:35-90 | `n` such empires followed by text without braces give exactly their `n` chunks, and the loop returns within `n` turns |
| Upload.UnbalancedCycle | html/upload.js:63-75 | on `{{{}{{` a lone `{` counts as a close, and the scan falls back to the start with a deeper depth |
| Upload.UnbalancedHangs | html/upload.js:35-90 | the loop never returns on `{{{}{{`, however many turns it runs |
| Upload.StripName | html/upload.js:97-99 | the name loop leaves no trailing `{` or `=` |
| Upload.StripNameJunk | html/upload.js:97-99 | any mix of `{`, `=` and spaces after a clean name is removed |
| Upload.NameOfHeader | html/upload.js:93-99 | a first line `<name> = {` gives the name |
| Upload.DropPrefix | html/upload.js:105-106 | a leading pattern is dropped once, or the text is left unchanged |
| Upload.ReplaceFirst | html/upload.js:107 | only the first `_` becomes a space |
| Upload.DropQuote | html/upload.js:108 | one closing quote is dropped |
| Upload.EthicLine | html/upload.js:103-109 | a saved line `ethic="ethic_<x>"` shows as `<x>` with its first `_` turned into a space |
| Upload.EthicsAppend | html/upload.js:103-109 | ethics keep the order of their lines |
| Upload.ProcessEmpire | html/upload.js:92-116 | the name and ethics of one chunk |

## Left out

- Files, folders and the network are not modelled. `glob` results and
  uploaded or stored file contents are inputs. `store` returns the path and
  text it would write. The folders `process_upload` creates are not modelled.
- `random.shuffle` and `random.sample` become any permutation or any
  choice of distinct entries.
- `os.path.normpath` is an abstract function parameter. The model only
  assumes it is idempotent, which `add_file` relies on to check a path
  that is already normalised.
- Mod.ModPack.AddFile: the `FileNotFoundError` guard of `add_file` can never
  hold, so it is left out (`Mod.MissingFileGuardNeverHolds`).
- Mod.ModPack.AddThumbnail: models the branch for image bytes only. The
  branch that copies a thumbnail from an existing file on disk, and
  the encoding of a string that is not a file, are left out.
- `write_to_folder`, `write_to_zip` and `add_empire_to_modpack` only do
  file I/O and zip packing, so they are left out.
- The HTTP replies, headers and JSON encoding are not modelled.
  `HandleUpload` returns the reply code and the report.
- The DOM and `fetch` in `upload.js` are left out. `processEmpire` returns
  the name and ethics instead of adding elements.
- Upload.ProcessEmpires: takes a bound on the loop's turns. The loop does
  not terminate on unbalanced input (`Upload.UnbalancedHangs`). A run that
  does not return within the bound reports that it did not finish.
- Strings are sequences of characters. The UTF-8 decoding of the upload,
  and JavaScript's UTF-16 string units, are not modelled.
- Importer.NameText: `str()` of a nested list (Python's `repr` of a list)
  is not modelled. `store` then gives an error instead of a file name.
- Mod.MetadataReadsBack: holds for non-empty dependency and tag lists
  only. An empty list is written `dependencies={}`, and that reads back
  as the string `{}` (`Parser.EmptyBlockReadsAsText`).
- ProcessUpload.Wanted: `str()` of bytes is Python's `repr`, modelled as
  `b'` + the bytes + `'`. That is exact for printable ASCII without `'`
  or `\`. The escaping of other bytes, and the switch to `"` quotes when
  the bytes hold `'` but no `"`, are not modelled.
- Parser.WriteLiteral: the `int`/`float` branch of `write_literal` is left
  out. Parsed data holds only strings and booleans.
- The handler for the download page, the server's routing and its
  authentication are not modelled.

## Findings

| source | as written | input that shows it | evidently intended | confidence | as-written member | corrected member |
|---|---|---|---|---|---|---|
| src/handlers/download_modpack.py:102-128 | the guard `len(files) <= count` returns early only when the pool is no larger than `count`; otherwise the `while True` loop runs passes over the authors, and checks the count only inside the loop over authors | `count = -1` with no approved and no pending files: the guard is false, there are no authors, and the loop never returns | an empty pool is returned as it is, so the pick always ends. The hang cannot be reached through the download handler today: it calls `mod.add_tag` (line 39), which `ModPack` does not define (it has `add_tags`, src/clauswitz/mod.py:94), so the handler raises `AttributeError` before `select_empires` runs (line 43) | not executed | DownloadModpack.AsWrittenEmptyPoolHangs | DownloadModpack.AuthorBalancedEmpires |

Two further points where the model follows the code:

- The upload repair is not idempotent (`RepairExamples.RepairNotIdempotent`).
  After a blank line, one pass moves a lone `={` up to the blank line. Only a
  second pass joins it to its key.
- The browser and the list page label ethics differently. The browser
  replaces only the first `_` with a space (`Upload.EthicLine`). The list
  page replaces every `_` (`EmpireList.EthicLabelOf`).
