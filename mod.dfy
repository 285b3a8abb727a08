/** The book-keeping of a mod pack: the files it will hold (copied from disk
    or written from memory), the mods it depends on, its tags, and the
    `.mod` metadata text. */
module Mod {
  import opened Wrappers
  import opened Parser

  /** `os.path.normpath` is taken as a parameter; the model only relies on
      normalising a normalised path changing nothing. */
  ghost predicate Idempotent(normpath: string -> string)
  {
    forall s :: normpath(normpath(s)) == normpath(s)
  }

  /** `normalise_path(file_name)`: the normalised path, or an error when it
      is empty, relative to a parent (`.`) or absolute (`/`). */
  function NormalisePath(fileName: string, normpath: string -> string): (r: Result<string, string>)
    ensures r.Ok? ==> r.value == normpath(fileName)
    ensures r.Err? <==> normpath(fileName) == [] || normpath(fileName)[0] in {'.', '/'}
  {
    var path := normpath(fileName);
    if path == [] || path[0] == '.' || path[0] == '/' then Err("Invalid Path: " + path)
    else Ok(path)
  }

  /** A path that passed the check is accepted again unchanged. */
  lemma NormaliseTwice(fileName: string, normpath: string -> string)
    requires Idempotent(normpath) && NormalisePath(fileName, normpath).Ok?
    ensures NormalisePath(NormalisePath(fileName, normpath).value, normpath) == NormalisePath(fileName, normpath)
  {
    assert normpath(normpath(fileName)) == normpath(fileName);
  }

  /** What `os.path.exists` and `os.path.isfile` can see at a path. */
  datatype FileKind = Missing | Directory | RegularFile

  predicate Exists(k: FileKind) { !k.Missing? }

  predicate IsFile(k: FileKind) { k.RegularFile? }

  /** The guard `not exists(source) and isfile(source)` holds for no path:
      whatever is a file exists. */
  lemma MissingFileGuardNeverHolds(k: FileKind)
    ensures !(!Exists(k) && IsFile(k))
  {
  }

  /** An in-memory file (`BytesIO`). */
  class Buffer {
    var data: seq<bv8>

    constructor ()
      ensures data == []
    {
      data := [];
    }

    method Write(bytes: seq<bv8>)
      modifies this
      ensures data == old(data) + bytes
    {
      data := data + bytes;
    }
  }

  /** `list(some_set)`: every element once, in an order the model leaves
      open. */
  method ListOf(s: set<string>) returns (r: seq<string>)
    ensures |r| == |s|
    ensures forall x :: x in r <==> x in s
    ensures forall i, j :: 0 <= i < j < |r| ==> r[i] != r[j]
  {
    r := [];
    var rest := s;
    while rest != {}
      invariant rest <= s
      invariant forall x :: x in r <==> x in s && x !in rest
      invariant forall i, j :: 0 <= i < j < |r| ==> r[i] != r[j]
      invariant |r| + |rest| == |s|
      decreases |rest|
    {
      var x :| x in rest;
      r := r + [x];
      rest := rest - {x};
    }
  }

  /** The entries `get_metadata` writes, in this order. */
  function MetadataItems(name: string, version: string, shortName: string, versions: string,
                         dependencies: seq<string>, tags: seq<string>): seq<Datum>
  {
    [ Entry("name", Str(name)),
      Entry("version", Str(version)),
      Entry("path", Str("mod/" + shortName)),
      Entry("supported_version", Str(versions)),
      Entry("dependencies", Obj(Bares(dependencies))),
      Entry("tags", Obj(Bares(tags))) ]
  }

  /** A list of strings as the bare items of a block. */
  function Bares(xs: seq<string>): (r: seq<Datum>)
    ensures |r| == |xs| && forall i :: 0 <= i < |r| ==> r[i] == Bare(xs[i])
  {
    if xs == [] then [] else [Bare(xs[0])] + Bares(xs[1..])
  }

  /** A string list whose items read back as they were written. */
  predicate ShapedWords(xs: seq<string>)
  {
    xs != [] && forall i :: 0 <= i < |xs| ==> ShapedText(xs[i]) && '=' !in xs[i]
  }

  lemma BaresShaped(xs: seq<string>)
    requires ShapedWords(xs)
    ensures Bares(xs) != [] && ShapedObject(Bares(xs))
  {
  }

  /** The six metadata keys read back as entries. */
  lemma MetadataKeysShaped()
    ensures ShapedKey("name") && ShapedKey("version") && ShapedKey("path")
    ensures ShapedKey("supported_version") && ShapedKey("dependencies") && ShapedKey("tags")
  {
    WordShaped("name");
    WordShaped("version");
    WordShaped("path");
    WordShaped("supported_version");
    WordShaped("dependencies");
    WordShaped("tags");
  }

  /** A word of lower-case letters and underscores is a shaped key. */
  lemma WordShaped(k: string)
    requires forall i :: 0 <= i < |k| ==> 'a' <= k[i] <= 'z' || k[i] == '_'
    ensures ShapedKey(k)
  {
  }

  /** The `.mod` text reads back as the six entries in their order, with the
      dependency and tag lists intact, when the names hold no newline, no
      quote at their ends and the lists are not empty. */
  lemma MetadataReadsBack(name: string, version: string, shortName: string, versions: string,
                          dependencies: seq<string>, tags: seq<string>)
    requires ShapedText(name) && ShapedText(version) && ShapedText(versions)
    requires '\n' !in shortName && (shortName == [] || shortName[|shortName| - 1] != '"')
    requires ShapedWords(dependencies) && ShapedWords(tags)
    ensures var items := MetadataItems(name, version, shortName, versions, dependencies, tags);
      ParseText(Render(items, 0)) == items
  {
    var items := MetadataItems(name, version, shortName, versions, dependencies, tags);
    MetadataKeysShaped();
    BaresShaped(dependencies);
    BaresShaped(tags);
    var path := "mod/" + shortName;
    assert path[0] == 'm' && path[|path| - 1] != '"' && '\n' !in path by {
      if shortName != [] {
        assert path[|path| - 1] == shortName[|shortName| - 1];
      }
      forall i | 0 <= i < |path|
        ensures path[i] != '\n'
      {
        if i >= 4 {
          assert path[i] == shortName[i - 4];
        }
      }
    }
    assert ShapedDatum(items[2]);
    assert ShapedObject(items);
    ParseWriteRoundTrip(items);
  }

  /** `ModPack`: what a mod will contain, gathered before it is written. */
  class ModPack {
    const name: string
    const shortName: string
    const version: string
    const stellarisVersions: string
    var dependencies: set<string>
    var tags: set<string>
    /** Destination path to the path of the file on disk to copy there. */
    var filesToAdd: map<string, string>
    /** Destination path to the in-memory file to write there. */
    var filesToWrite: map<string, Buffer>

    /** No destination is both copied from disk and written from memory. */
    predicate Valid()
      reads this
    {
      filesToAdd.Keys !! filesToWrite.Keys
    }

    constructor (name: string, shortName: string, version: string)
      ensures this.name == name && this.shortName == shortName && this.version == version
      ensures stellarisVersions == "*"
      ensures dependencies == {} && tags == {} && filesToAdd == map[] && filesToWrite == map[]
      ensures Valid()
    {
      this.name := name;
      this.shortName := shortName;
      this.version := version;
      stellarisVersions := "*";
      dependencies := {};
      tags := {};
      filesToAdd := map[];
      filesToWrite := map[];
    }

    /** `add_dependency(dependency)`. */
    method AddDependency(dependency: string)
      modifies this
      ensures dependencies == old(dependencies) + {dependency}
      ensures tags == old(tags) && filesToAdd == old(filesToAdd) && filesToWrite == old(filesToWrite)
    {
      dependencies := dependencies + {dependency};
    }

    /** `add_tags(tag)`. */
    method AddTags(tag: string)
      modifies this
      ensures tags == old(tags) + {tag}
      ensures dependencies == old(dependencies) && filesToAdd == old(filesToAdd) && filesToWrite == old(filesToWrite)
    {
      tags := tags + {tag};
    }

    /** `has_file(file_name)`: whether the normalised path is already a
        destination, or the error of an invalid path. */
    function HasFile(fileName: string, normpath: string -> string): (r: Result<bool, string>)
      reads this
      ensures r.Err? <==> NormalisePath(fileName, normpath).Err?
      ensures r.Ok? ==> var path := NormalisePath(fileName, normpath).value;
        (r.value <==> path in filesToAdd || path in filesToWrite)
    {
      match NormalisePath(fileName, normpath)
      case Err(e) => Err(e)
      case Ok(path) => Ok(path in filesToAdd || path in filesToWrite)
    }

    /** `add_file(destination_file, source_file)`: records the copy of a
        file on disk unless the destination is taken. `kind` is what the
        disk holds at `source_file`. */
    method AddFile(destination: string, source: string, kind: FileKind, normpath: string -> string)
      returns (r: Result<bool, string>)
      requires Valid() && Idempotent(normpath)
      modifies this
      ensures Valid()
      ensures dependencies == old(dependencies) && tags == old(tags) && filesToWrite == old(filesToWrite)
      ensures r.Err? <==> NormalisePath(destination, normpath).Err?
      ensures r.Ok? ==> var path := NormalisePath(destination, normpath).value;
        && (!r.value <==> path in old(filesToAdd) || path in old(filesToWrite))
        && filesToAdd == if r.value then old(filesToAdd)[path := source] else old(filesToAdd)
      ensures r.Err? ==> filesToAdd == old(filesToAdd)
    {
      var checked := NormalisePath(destination, normpath);
      if checked.Err? {
        return Err(checked.error);
      }
      var path := checked.value;
      if !Exists(kind) && IsFile(kind) {
        assert false;
      }
      NormaliseTwice(destination, normpath);
      var present := HasFile(path, normpath);
      if present.value {
        return Ok(false);
      }
      filesToAdd := filesToAdd[path := source];
      r := Ok(true);
    }

    /** `get_file_writer(destination_file)`: the in-memory file for the
        destination, created empty on first use and the same one afterwards;
        an error when the path is invalid or already copied from disk. */
    method GetFileWriter(destination: string, normpath: string -> string) returns (r: Result<Buffer, string>)
      requires Valid()
      modifies this
      ensures Valid()
      ensures dependencies == old(dependencies) && tags == old(tags) && filesToAdd == old(filesToAdd)
      ensures r.Err? <==> (NormalisePath(destination, normpath).Err?
        || NormalisePath(destination, normpath).value in filesToAdd)
      ensures r.Err? ==> filesToWrite == old(filesToWrite)
      ensures r.Ok? ==> var path := NormalisePath(destination, normpath).value;
        && path in filesToWrite && r.value == filesToWrite[path]
        && (path in old(filesToWrite) ==> filesToWrite == old(filesToWrite))
        && (path !in old(filesToWrite) ==>
              fresh(r.value) && r.value.data == [] && filesToWrite == old(filesToWrite)[path := r.value])
    {
      var checked := NormalisePath(destination, normpath);
      if checked.Err? {
        return Err(checked.error);
      }
      var path := checked.value;
      if path in filesToAdd {
        return Err("Can not create file " + path + ", as it has been added");
      }
      if path !in filesToWrite {
        var buffer := new Buffer();
        filesToWrite := filesToWrite[path := buffer];
      }
      r := Ok(filesToWrite[path]);
    }

    /** `add_thumbnail(thumbnail)` for image bytes: a new in-memory
        `thumbnail.png` holding them, or an error when the mod already has
        one (or the path is refused). */
    method AddThumbnail(thumbnail: seq<bv8>, normpath: string -> string) returns (r: Result<(), string>)
      requires Valid()
      modifies this
      ensures Valid()
      ensures dependencies == old(dependencies) && tags == old(tags) && filesToAdd == old(filesToAdd)
      ensures r.Err? <==> old(HasFile("thumbnail.png", normpath)) != Ok(false)
      ensures r.Err? ==> filesToWrite == old(filesToWrite)
      ensures r.Ok? ==> var path := NormalisePath("thumbnail.png", normpath).value;
        && path !in old(filesToWrite) && path in filesToWrite
        && fresh(filesToWrite[path]) && filesToWrite[path].data == thumbnail
        && filesToWrite == old(filesToWrite)[path := filesToWrite[path]]
    {
      var present := HasFile("thumbnail.png", normpath);
      if present.Err? {
        return Err(present.error);
      }
      if present.value {
        return Err("Already have a thumbnail");
      }
      var writer := GetFileWriter("thumbnail.png", normpath);
      writer.value.Write(thumbnail);
      r := Ok(());
    }

    /** `get_metadata()`: the `.mod` text, with the dependency and tag sets
        listed in some order. */
    method GetMetadata() returns (output: string)
      ensures exists deps, tagList ::
        && |deps| == |dependencies| && (forall x :: x in deps <==> x in dependencies)
        && |tagList| == |tags| && (forall x :: x in tagList <==> x in tags)
        && output == Render(MetadataItems(name, version, shortName, stellarisVersions, deps, tagList), 0)
    {
      var deps := ListOf(dependencies);
      var tagList := ListOf(tags);
      var w := new Writer();
      Parser.Write(MetadataItems(name, version, shortName, stellarisVersions, deps, tagList), w, 0);
      output := w.text;
    }
  }
}
