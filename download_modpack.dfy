/** The choice of empires for a downloaded mod pack: the pool of stored
    files, grouping by author, approved files before pending ones, and the
    random and the author-balanced picks. The random generator is modelled
    as an arbitrary choice wherever the handler draws from it. */
module DownloadModpack {
  import opened Wrappers
  import opened Mod

  // ---------------------------------------------------------------------
  // Paths

  /** `p.rfind("/")`. */
  function LastSlash(p: string): (r: int)
    ensures -1 <= r < |p|
    ensures r >= 0 ==> p[r] == '/'
    ensures forall i :: r < i < |p| ==> p[i] != '/'
  {
    if p == [] then -1
    else if p[|p| - 1] == '/' then |p| - 1
    else LastSlash(p[..|p| - 1])
  }

  /** `os.path.basename(p)`: what follows the last `/`. */
  function Basename(p: string): string
  {
    p[LastSlash(p) + 1..]
  }

  /** `os.path.dirname(p)`: what precedes the last `/`, with trailing
      slashes removed unless it is all slashes. */
  function Dirname(p: string): string
  {
    var head := p[..LastSlash(p) + 1];
    if exists i :: 0 <= i < |head| && head[i] != '/' then TrimSlashes(head) else head
  }

  function TrimSlashes(s: string): (r: string)
    ensures |r| <= |s| && r == s[..|r|]
    ensures r == [] || r[|r| - 1] != '/'
  {
    if s != [] && s[|s| - 1] == '/' then TrimSlashes(s[..|s| - 1]) else s
  }

  /** The author of a stored empire: the name of the folder holding it. */
  function Author(p: string): string
  {
    Basename(Dirname(p))
  }

  /** The last `/` of `folder/name`, when `name` has none, is the one
      just before `name`. */
  lemma LastSlashBefore(folder: string, name: string)
    requires '/' !in name
    ensures LastSlash(folder + "/" + name) == |folder|
  {
    var tail := "/" + name;
    assert tail[1..] == name;
    assert folder + "/" + name == folder + tail;
    LastSlashConcat(folder, tail);
  }

  lemma LastSlashConcat(a: string, b: string)
    requires b != [] && b[0] == '/' && '/' !in b[1..]
    ensures LastSlash(a + b) == |a|
  {
    var p := a + b;
    forall i | |a| < i < |p|
      ensures p[i] != '/'
    {
      assert p[i] == b[i - |a|] == b[1..][i - |a| - 1];
    }
    LastSlashAt(p, |a|);
  }

  /** The last `/` is the one with no `/` after it. */
  lemma LastSlashAt(p: string, k: int)
    requires 0 <= k < |p| && p[k] == '/'
    requires forall i :: k < i < |p| ==> p[i] != '/'
    ensures LastSlash(p) == k
  {
  }

  /** `os.path.basename(folder + "/" + name)` is `name`. */
  lemma BasenameOf(folder: string, name: string)
    requires '/' !in name
    ensures Basename(folder + "/" + name) == name
  {
    LastSlashBefore(folder, name);
    var p := folder + "/" + name;
    assert p[|folder| + 1..] == name;
  }

  /** `os.path.dirname(folder + "/" + user + "/" + name)` is
      `folder + "/" + user` when `user` is a non-empty name. */
  lemma DirnameOf(folder: string, user: string, name: string)
    requires '/' !in user && '/' !in name && user != []
    ensures Dirname(folder + "/" + user + "/" + name) == folder + "/" + user
  {
    var d := folder + "/" + user;
    var p := d + "/" + name;
    assert p == folder + "/" + user + "/" + name;
    LastSlashBefore(d, name);
    var head := p[..|d| + 1];
    assert head == d + "/";
    assert d[|d| - 1] == user[|user| - 1] != '/';
    assert head[|d| - 1] != '/';
    assert head[..|d|] == d;
    assert TrimSlashes(d) == d;
  }

  /** A stored empire `folder/user/name` belongs to `user`. */
  lemma AuthorOfStored(folder: string, user: string, name: string)
    requires '/' !in user && '/' !in name && user != []
    ensures Author(folder + "/" + user + "/" + name) == user
  {
    DirnameOf(folder, user, name);
    BasenameOf(folder, user);
  }

  // ---------------------------------------------------------------------
  // Shuffling

  /** `random.shuffle(xs)` (a Fisher-Yates pass): each position, from the
      last down, swaps with an arbitrary position at or before it. */
  method Shuffle(xs: seq<string>) returns (ys: seq<string>)
    ensures |ys| == |xs| && multiset(ys) == multiset(xs)
  {
    ys := xs;
    var i := |ys|;
    while i > 1
      invariant 0 <= i <= |ys| && |ys| == |xs|
      invariant multiset(ys) == multiset(xs)
    {
      i := i - 1;
      var j :| 0 <= j <= i;
      ys := ys[i := ys[j]][j := ys[i]];
    }
  }

  predicate IsApproved(p: string) { "approved/" <= p }

  predicate IsPending(p: string) { "pending/" <= p }

  /** No path is both approved and pending. */
  lemma ApprovedNotPending(p: string)
    ensures !(IsApproved(p) && IsPending(p))
  {
    if IsApproved(p) {
      assert p[0] == 'a';
    }
  }

  /** `[x for x in xs if keep(x)]`. */
  function Filter(xs: seq<string>, keep: string -> bool): (r: seq<string>)
    ensures |r| <= |xs|
  {
    if xs == [] then []
    else (if keep(xs[0]) then [xs[0]] else []) + Filter(xs[1..], keep)
  }

  /** `[x for x in empires if x.startswith("approved/")]`. */
  function Approved(xs: seq<string>): seq<string>
  {
    Filter(xs, IsApproved)
  }

  /** `[x for x in empires if x.startswith("pending/")]`. */
  function Pending(xs: seq<string>): seq<string>
  {
    Filter(xs, IsPending)
  }

  /** A filter keeps exactly the items it accepts. */
  lemma {:induction false} FilterMember(xs: seq<string>, keep: string -> bool, p: string)
    ensures p in Filter(xs, keep) <==> p in xs && keep(p)
  {
    if xs != [] {
      FilterMember(xs[1..], keep, p);
      assert xs == [xs[0]] + xs[1..];
    }
  }

  /** Two filters that accept every item, and never the same one, split a
      sequence: together they hold every item as often as it. */
  lemma {:induction false} FiltersSplit(xs: seq<string>, f: string -> bool, g: string -> bool)
    requires forall i :: 0 <= i < |xs| ==> f(xs[i]) != g(xs[i])
    ensures multiset(Filter(xs, f)) + multiset(Filter(xs, g)) == multiset(xs)
  {
    if xs != [] {
      var x := xs[0];
      var tail := xs[1..];
      assert forall i :: 0 <= i < |tail| ==> tail[i] == xs[i + 1];
      FiltersSplit(tail, f, g);
      assert Filter(xs, f) == (if f(x) then [x] else []) + Filter(tail, f);
      assert Filter(xs, g) == (if g(x) then [x] else []) + Filter(tail, g);
      assert xs == [x] + tail;
      SplitStep(x, f(x), Filter(tail, f), Filter(tail, g), tail);
    }
  }

  lemma SplitStep(x: string, first: bool, fs: seq<string>, gs: seq<string>, tail: seq<string>)
    requires multiset(fs) + multiset(gs) == multiset(tail)
    ensures multiset((if first then [x] else []) + fs) + multiset((if !first then [x] else []) + gs)
      == multiset([x] + tail)
  {
  }

  /** When every file has one of the two prefixes, the two filters together
      hold every file once. */
  lemma FiltersCover(xs: seq<string>)
    requires forall i :: 0 <= i < |xs| ==> IsApproved(xs[i]) || IsPending(xs[i])
    ensures multiset(Approved(xs)) + multiset(Pending(xs)) == multiset(xs)
  {
    forall i | 0 <= i < |xs|
      ensures IsApproved(xs[i]) != IsPending(xs[i])
    {
      ApprovedNotPending(xs[i]);
    }
    FiltersSplit(xs, IsApproved, IsPending);
  }

  /** `shuffle_empires(empires)`: the approved files in some order, then the
      pending ones in some order; anything else is dropped. */
  method ShuffleEmpires(empires: seq<string>) returns (r: seq<string>)
    ensures |r| == |Approved(empires)| + |Pending(empires)|
    ensures multiset(r[..|Approved(empires)|]) == multiset(Approved(empires))
    ensures multiset(r[|Approved(empires)|..]) == multiset(Pending(empires))
  {
    var approved := Shuffle(Approved(empires));
    var pending := Shuffle(Pending(empires));
    r := approved + pending;
    assert r[..|approved|] == approved;
    assert r[|approved|..] == pending;
  }

  /** What a shuffle of an author's files holds: every approved file comes
      before every pending one, and nothing else is there. */
  lemma ShuffledOrder(empires: seq<string>, r: seq<string>)
    requires |r| == |Approved(empires)| + |Pending(empires)|
    requires multiset(r[..|Approved(empires)|]) == multiset(Approved(empires))
    requires multiset(r[|Approved(empires)|..]) == multiset(Pending(empires))
    ensures forall i :: 0 <= i < |Approved(empires)| ==> IsApproved(r[i]) && r[i] in empires
    ensures forall i :: |Approved(empires)| <= i < |r| ==> IsPending(r[i]) && r[i] in empires
  {
    var n := |Approved(empires)|;
    forall i | 0 <= i < n
      ensures IsApproved(r[i]) && r[i] in empires
    {
      assert r[..n][i] == r[i];
      assert r[i] in multiset(r[..n]);
      FilterMember(empires, IsApproved, r[i]);
    }
    forall i | n <= i < |r|
      ensures IsPending(r[i]) && r[i] in empires
    {
      assert r[n..][i - n] == r[i];
      assert r[i] in multiset(r[n..]);
      FilterMember(empires, IsPending, r[i]);
    }
  }

  /** When every file has one of the two prefixes, the shuffle holds each of
      them exactly as often as the input. */
  lemma ShuffledAll(empires: seq<string>, r: seq<string>)
    requires forall i :: 0 <= i < |empires| ==> IsApproved(empires[i]) || IsPending(empires[i])
    requires |r| == |Approved(empires)| + |Pending(empires)|
    requires multiset(r[..|Approved(empires)|]) == multiset(Approved(empires))
    requires multiset(r[|Approved(empires)|..]) == multiset(Pending(empires))
    ensures multiset(r) == multiset(empires)
  {
    var n := |Approved(empires)|;
    assert r == r[..n] + r[n..];
    FiltersCover(empires);
  }

  // ---------------------------------------------------------------------
  // Grouping by author

  /** No item occurs twice. */
  predicate Distinct<T(==)>(xs: seq<T>)
  {
    forall i, j :: 0 <= i < j < |xs| ==> xs[i] != xs[j]
  }

  /** The files whose `key` is `a`, in input order. */
  function Group(files: seq<string>, key: string -> string, a: string): (r: seq<string>)
    ensures |r| <= |files|
  {
    if files == [] then []
    else Group(files[..|files| - 1], key, a) + (if key(files[|files| - 1]) == a then [files[|files| - 1]] else [])
  }

  /** The files of author `a`, in input order. */
  function ByAuthor(files: seq<string>, a: string): seq<string>
  {
    Group(files, Author, a)
  }

  lemma GroupSnoc(files: seq<string>, key: string -> string, x: string, a: string)
    ensures Group(files + [x], key, a) == Group(files, key, a) + (if key(x) == a then [x] else [])
  {
    assert (files + [x])[..|files|] == files;
  }

  /** A file is listed in its own group and in no other. */
  lemma {:induction false} GroupMember(files: seq<string>, key: string -> string, a: string, p: string)
    ensures p in Group(files, key, a) <==> p in files && key(p) == a
  {
    if files != [] {
      var init := files[..|files| - 1];
      GroupMember(init, key, a, p);
      assert files == init + [files[|files| - 1]];
    }
  }

  /** `make_author_map(files)`: the files grouped by author, each group in
      input order; `authors` lists the groups in the order the dictionary
      first met them. */
  method MakeAuthorMap(files: seq<string>) returns (authors: seq<string>, m: map<string, seq<string>>)
    ensures Distinct(authors)
    ensures forall a :: a in m <==> a in authors
    ensures forall a :: a in m ==> m[a] == ByAuthor(files, a) && m[a] != []
    ensures forall i :: 0 <= i < |files| ==> Author(files[i]) in m
  {
    authors, m := GroupBy(files, Author);
  }

  /** `m` maps each key of `files` to its group, and `keys` lists the keys
      of `m` once each. */
  ghost predicate Grouping(files: seq<string>, key: string -> string, keys: seq<string>, m: map<string, seq<string>>)
  {
    && Distinct(keys)
    && (forall a :: a in m <==> a in keys)
    && (forall a :: a in m ==> m[a] == Group(files, key, a) && m[a] != [])
    && (forall a :: a !in m ==> Group(files, key, a) == [])
  }

  /** Appending one file to its key's group, creating the group when the
      key is new, keeps the grouping. */
  lemma GroupingStep(files: seq<string>, key: string -> string, keys: seq<string>, m: map<string, seq<string>>,
                     x: string, keys': seq<string>, m': map<string, seq<string>>)
    requires Grouping(files, key, keys, m)
    requires key(x) in m ==> keys' == keys && m' == m[key(x) := m[key(x)] + [x]]
    requires key(x) !in m ==> keys' == keys + [key(x)] && m' == m[key(x) := [x]]
    ensures Grouping(files + [x], key, keys', m')
  {
    forall a
      ensures Group(files + [x], key, a) == Group(files, key, a) + (if key(x) == a then [x] else [])
    {
      GroupSnoc(files, key, x, a);
    }
    if key(x) !in m {
      assert Distinct(keys') by {
        assert forall i :: 0 <= i < |keys| ==> keys'[i] == keys[i];
      }
    }
  }

  /** Every file's key has a group. */
  lemma GroupingCovers(files: seq<string>, key: string -> string, keys: seq<string>, m: map<string, seq<string>>)
    requires Grouping(files, key, keys, m)
    ensures forall i :: 0 <= i < |files| ==> key(files[i]) in m
  {
    forall i | 0 <= i < |files|
      ensures key(files[i]) in m
    {
      GroupMember(files, key, key(files[i]), files[i]);
    }
  }

  lemma PrefixSnoc(xs: seq<string>, i: int)
    requires 0 <= i < |xs|
    ensures xs[..i + 1] == xs[..i] + [xs[i]]
  {
  }

  method GroupBy(files: seq<string>, key: string -> string) returns (keys: seq<string>, m: map<string, seq<string>>)
    ensures Distinct(keys)
    ensures forall a :: a in m <==> a in keys
    ensures forall a :: a in m ==> m[a] == Group(files, key, a) && m[a] != []
    ensures forall i :: 0 <= i < |files| ==> key(files[i]) in m
  {
    keys := [];
    m := map[];
    var i := 0;
    while i < |files|
      invariant 0 <= i <= |files|
      invariant Grouping(files[..i], key, keys, m)
    {
      var filename := files[i];
      var k := key(filename);
      PrefixSnoc(files, i);
      ghost var keys0, m0 := keys, m;
      if k !in m {
        m := m[k := [filename]];
        keys := keys + [k];
      } else {
        m := m[k := m[k] + [filename]];
      }
      GroupingStep(files[..i], key, keys0, m0, filename, keys, m);
      i := i + 1;
    }
    assert files[..i] == files;
    GroupingCovers(files, key, keys, m);
  }

  /** The groups of `keys`, one after the other. */
  function Grouped(keys: seq<string>, files: seq<string>, key: string -> string): seq<string>
  {
    if keys == [] then [] else Group(files, key, keys[0]) + Grouped(keys[1..], files, key)
  }

  lemma DistinctTail(keys: seq<string>)
    requires Distinct(keys) && keys != []
    ensures Distinct(keys[1..]) && keys[0] !in keys[1..]
  {
    var rest := keys[1..];
    assert forall i :: 0 <= i < |rest| ==> rest[i] == keys[i + 1];
  }

  /** One more file adds itself to the groups exactly when its key is
      listed. */
  lemma {:induction false} GroupedSnoc(keys: seq<string>, files: seq<string>, key: string -> string, x: string)
    requires Distinct(keys)
    ensures multiset(Grouped(keys, files + [x], key))
      == multiset(Grouped(keys, files, key)) + (if key(x) in keys then multiset{x} else multiset{})
  {
    if keys != [] {
      var rest := keys[1..];
      DistinctTail(keys);
      GroupedSnoc(rest, files, key, x);
      GroupSnoc(files, key, x, keys[0]);
      var extra := if key(x) == keys[0] then [x] else [];
      var restExtra := if key(x) in rest then multiset{x} else multiset{};
      assert Grouped(keys, files + [x], key) == Group(files, key, keys[0]) + extra + Grouped(rest, files + [x], key);
      assert Grouped(keys, files, key) == Group(files, key, keys[0]) + Grouped(rest, files, key);
      MultisetInsert(Group(files, key, keys[0]), extra, Grouped(rest, files, key), Grouped(rest, files + [x], key), restExtra);
      ExclusiveExtra(keys, key(x), x);
    }
  }

  lemma MultisetInsert(a: seq<string>, e: seq<string>, b: seq<string>, b': seq<string>, more: multiset<string>)
    requires multiset(b') == multiset(b) + more
    ensures multiset(a + e + b') == multiset(a + b) + multiset(e) + more
  {
  }

  lemma ExclusiveExtra(keys: seq<string>, k: string, x: string)
    requires keys != [] && keys[0] !in keys[1..]
    ensures (if k == keys[0] then multiset{x} else multiset{}) + (if k in keys[1..] then multiset{x} else multiset{})
      == (if k in keys then multiset{x} else multiset{})
  {
    assert keys == [keys[0]] + keys[1..];
  }

  lemma {:induction false} GroupedEmpty(keys: seq<string>, key: string -> string)
    ensures Grouped(keys, [], key) == []
  {
    if keys != [] {
      GroupedEmpty(keys[1..], key);
    }
  }

  /** The groups of distinct keys covering every file, put one after the
      other, are a permutation of the files. */
  lemma {:induction false} GroupedPermutation(keys: seq<string>, files: seq<string>, key: string -> string)
    requires Distinct(keys)
    requires forall i :: 0 <= i < |files| ==> key(files[i]) in keys
    ensures multiset(Grouped(keys, files, key)) == multiset(files)
    decreases |files|
  {
    if files == [] {
      GroupedEmpty(keys, key);
    } else {
      var init := files[..|files| - 1];
      var x := files[|files| - 1];
      assert files == init + [x];
      GroupedPermutation(keys, init, key);
      GroupedSnoc(keys, init, key, x);
    }
  }

  /** The author map holds every file once: its groups, in the order of
      `authors`, are a permutation of `files`. */
  lemma AuthorMapPermutation(files: seq<string>, authors: seq<string>, m: map<string, seq<string>>)
    requires Distinct(authors)
    requires forall a :: a in m <==> a in authors
    requires forall i :: 0 <= i < |files| ==> Author(files[i]) in m
    ensures multiset(Grouped(authors, files, Author)) == multiset(files)
  {
    GroupedPermutation(authors, files, Author);
  }

  // ---------------------------------------------------------------------
  // The pool

  function Min(a: int, b: int): int { if a <= b then a else b }

  function Max(a: int, b: int): int { if a >= b then a else b }

  /** What `glob("approved/**/*.txt")` and `glob("pending/**/*.txt")` give:
      each path once, under its own folder. */
  predicate Globbed(approved: seq<string>, pending: seq<string>)
  {
    && Distinct(approved)
    && Distinct(pending)
    && (forall i :: 0 <= i < |approved| ==> IsApproved(approved[i]))
    && (forall i :: 0 <= i < |pending| ==> IsPending(pending[i]))
  }

  /** The files a download picks from: the approved ones, then the pending
      ones when unmoderated empires are wanted. */
  function Pool(approved: seq<string>, pending: seq<string>, unmod: bool): seq<string>
  {
    approved + (if unmod then pending else [])
  }

  /** The pool holds each file once, and every file has one of the two
      prefixes. */
  lemma PoolFacts(approved: seq<string>, pending: seq<string>, unmod: bool)
    requires Globbed(approved, pending)
    ensures Distinct(Pool(approved, pending, unmod))
    ensures forall i :: 0 <= i < |Pool(approved, pending, unmod)| ==>
      IsApproved(Pool(approved, pending, unmod)[i]) || IsPending(Pool(approved, pending, unmod)[i])
    ensures !unmod ==> forall i :: 0 <= i < |Pool(approved, pending, unmod)| ==> IsApproved(Pool(approved, pending, unmod)[i])
  {
    var pool := Pool(approved, pending, unmod);
    forall i, j | 0 <= i < j < |pool|
      ensures pool[i] != pool[j]
    {
      if i < |approved| <= j {
        ApprovedNotPending(pool[i]);
      }
    }
  }

  /** A sequence holds each item at most once exactly when no item counts
      twice in its multiset. */
  lemma {:induction false} DistinctCounts(xs: seq<string>)
    ensures Distinct(xs) <==> forall x :: multiset(xs)[x] <= 1
  {
    if xs != [] {
      var t := xs[1..];
      assert xs == [xs[0]] + t;
      DistinctCounts(t);
      if Distinct(xs) {
        assert Distinct(t) by {
          assert forall i :: 0 <= i < |t| ==> t[i] == xs[i + 1];
        }
        assert xs[0] !in t;
      } else {
        var i, j :| 0 <= i < j < |xs| && xs[i] == xs[j];
        if i == 0 {
          assert xs[0] == t[j - 1];
          assert multiset(xs)[xs[0]] >= 2;
        } else {
          assert t[i - 1] == t[j - 1];
          assert !Distinct(t);
          var x :| multiset(t)[x] > 1;
          assert multiset(xs)[x] > 1;
        }
      }
    }
  }

  /** Part of a sequence that holds each item once holds each item once. */
  lemma DistinctSub(xs: seq<string>, ys: seq<string>)
    requires Distinct(ys) && multiset(xs) <= multiset(ys)
    ensures Distinct(xs)
  {
    DistinctCounts(ys);
    DistinctCounts(xs);
  }

  /** `random.sample(pool, k)`: `k` of the pool's positions, in some order;
      a negative `k` or one past the pool's size is a `ValueError`. */
  method Sample(pool: seq<string>, k: int) returns (r: Result<seq<string>, string>)
    ensures r.Err? <==> k < 0 || k > |pool|
    ensures r.Err? ==> r.error == "ValueError: Sample larger than population or is negative"
    ensures r.Ok? ==> |r.value| == k && multiset(r.value) <= multiset(pool)
  {
    if k < 0 || k > |pool| {
      return Err("ValueError: Sample larger than population or is negative");
    }
    var shuffled := Shuffle(pool);
    assert shuffled == shuffled[..k] + shuffled[k..];
    r := Ok(shuffled[..k]);
  }

  /** `random_empires(count, unmod)`: `min(count, len(pool))` distinct files
      of the pool, approved ones only unless `unmod`; a negative count
      reaches `random.sample` and raises. */
  method RandomEmpires(count: int, approved: seq<string>, pending: seq<string>, unmod: bool)
    returns (r: Result<seq<string>, string>)
    requires Globbed(approved, pending)
    ensures Sampled(count, Pool(approved, pending, unmod), r)
    ensures r.Ok? && !unmod ==> forall i :: 0 <= i < |r.value| ==> IsApproved(r.value[i])
  {
    var files := Pool(approved, pending, unmod);
    PoolFacts(approved, pending, unmod);
    r := Sample(files, Min(count, |files|));
    if r.Ok? {
      DistinctSub(r.value, files);
      forall i | 0 <= i < |r.value|
        ensures r.value[i] in files
      {
        assert r.value[i] in multiset(r.value);
      }
    }
  }

  /** What a random pick from `pool` gives: an error exactly for a negative
      count, otherwise `min(count, |pool|)` distinct files of the pool. */
  ghost predicate Sampled(count: int, pool: seq<string>, r: Result<seq<string>, string>)
  {
    && (r.Err? <==> count < 0)
    && (r.Ok? ==> |r.value| == Min(count, |pool|) && Distinct(r.value)
                  && forall i :: 0 <= i < |r.value| ==> r.value[i] in pool)
  }

  // ---------------------------------------------------------------------
  // The author-balanced pick

  /** The first of `empires` not yet selected, if any. */
  function FirstNew(empires: seq<string>, selected: set<string>): (r: Option<string>)
    ensures r.Some? ==> r.value in empires && r.value !in selected
    ensures r.None? ==> forall i :: 0 <= i < |empires| ==> empires[i] in selected
  {
    if empires == [] then None
    else if empires[0] !in selected then Some(empires[0])
    else FirstNew(empires[1..], selected)
  }

  /** The inner loop of a pass: select the first of one author's shuffled
      files that is not selected yet, if there is one. */
  method PickOne(empires: seq<string>, selected: set<string>) returns (s: set<string>)
    ensures FirstNew(empires, selected).Some? ==> s == selected + {FirstNew(empires, selected).value}
    ensures FirstNew(empires, selected).None? ==> s == selected
  {
    s := selected;
    var i := 0;
    while i < |empires|
      invariant 0 <= i <= |empires|
      invariant s == selected
      invariant FirstNew(empires, selected) == FirstNew(empires[i..], selected)
    {
      if empires[i] !in s {
        s := s + {empires[i]};
        break;
      }
      assert empires[i..][1..] == empires[i + 1..];
      i := i + 1;
    }
  }

  /** One pass lets each author add at most one file, and one of their own:
      the selection grows by one file exactly when the author has a file
      not selected yet. */
  lemma PickOneGrows(empires: seq<string>, selected: set<string>, s: set<string>)
    requires FirstNew(empires, selected).Some? ==> s == selected + {FirstNew(empires, selected).value}
    requires FirstNew(empires, selected).None? ==> s == selected
    ensures selected <= s && s - selected <= set x | x in empires
    ensures |s| == |selected| + 1 <==> exists i :: 0 <= i < |empires| && empires[i] !in selected
    ensures |s| <= |selected| + 1
  {
    var f := FirstNew(empires, selected);
    if f.Some? {
      var i :| 0 <= i < |empires| && empires[i] == f.value;
    }
  }

  /** A set drawn from a sequence has at most its length. */
  lemma {:induction false} SubsetSize(s: set<string>, xs: seq<string>)
    requires forall x :: x in s ==> x in xs
    ensures |s| <= |xs|
  {
    if xs != [] {
      var rest := s - {xs[0]};
      forall x | x in rest
        ensures x in xs[1..]
      {
        assert x in xs && x != xs[0];
      }
      SubsetSize(rest, xs[1..]);
    } else {
      assert s == {};
    }
  }

  /** A set holding every item of a sequence without repeats has at least
      its length. */
  lemma {:induction false} SupersetSize(s: set<string>, xs: seq<string>)
    requires Distinct(xs)
    requires forall i :: 0 <= i < |xs| ==> xs[i] in s
    ensures |xs| <= |s|
  {
    if xs != [] {
      var t := xs[1..];
      assert Distinct(t) by {
        assert forall i :: 0 <= i < |t| ==> t[i] == xs[i + 1];
      }
      forall i | 0 <= i < |t|
        ensures t[i] in s - {xs[0]}
      {
        assert t[i] == xs[i + 1];
      }
      SupersetSize(s - {xs[0]}, t);
    }
  }

  /** What the author-balanced pick gives: the whole pool when it has no
      more files than the count (or none at all), otherwise `count` distinct
      files of it, and one when the count is not positive. */
  ghost predicate Balanced(count: int, pool: seq<string>, r: seq<string>)
  {
    if |pool| <= count || pool == [] then r == pool
    else |r| == Max(count, 1) && Distinct(r) && forall i :: 0 <= i < |r| ==> r[i] in pool
  }

  /** The files of one group, shuffled, hold exactly the files of that
      group. */
  lemma GroupShuffled(files: seq<string>, key: string -> string, group: seq<string>, a: string, empires: seq<string>)
    requires forall i :: 0 <= i < |files| ==> IsApproved(files[i]) || IsPending(files[i])
    requires group == Group(files, key, a)
    requires |empires| == |Approved(group)| + |Pending(group)|
    requires multiset(empires[..|Approved(group)|]) == multiset(Approved(group))
    requires multiset(empires[|Approved(group)|..]) == multiset(Pending(group))
    ensures forall x :: x in empires <==> x in files && key(x) == a
    ensures |empires| == |group|
  {
    forall i | 0 <= i < |group|
      ensures IsApproved(group[i]) || IsPending(group[i])
    {
      GroupMember(files, key, a, group[i]);
    }
    ShuffledAll(group, empires);
    assert |multiset(empires)| == |multiset(group)|;
    forall x
      ensures x in empires <==> x in files && key(x) == a
    {
      assert x in empires <==> x in multiset(group);
      GroupMember(files, key, a, x);
    }
  }

  /** One author's turn in a pass: shuffle their files, approved ones
      first, and select the first that is not selected yet. The turn adds
      at most one file, one of the author's own, and adds none only when
      all of the author's files are already selected. */
  method AuthorTurn(files: seq<string>, key: string -> string, group: seq<string>, author: string, selected: set<string>)
    returns (s: set<string>)
    requires forall i :: 0 <= i < |files| ==> IsApproved(files[i]) || IsPending(files[i])
    requires group == Group(files, key, author) && group != []
    ensures selected <= s && |s| <= |selected| + 1
    ensures forall x :: x in s ==> x in selected || (x in files && key(x) == author)
    ensures selected == {} ==> |s| == 1
    ensures |s| == |selected| ==> forall x :: x in files && key(x) == author ==> x in selected
    ensures forall x, y :: x in s && x !in selected && y in s && y !in selected ==> x == y
  {
    var empires := ShuffleEmpires(group);
    GroupShuffled(files, key, group, author, empires);
    s := PickOne(empires, selected);
    PickOneGrows(empires, selected, s);
    if selected == {} {
      assert empires[0] !in selected;
    }
    if |s| == |selected| {
      forall x | x in files && key(x) == author
        ensures x in selected
      {
        assert x in empires;
        var i :| 0 <= i < |empires| && empires[i] == x;
      }
    }
  }

  lemma SubsetCard(a: set<string>, b: set<string>)
    requires a <= b
    ensures |a| <= |b|
  {
    assert b == a + (b - a);
  }

  /** A shuffle holds the same items. */
  lemma SameMembers(xs: seq<string>, ys: seq<string>)
    requires multiset(xs) == multiset(ys)
    ensures forall x :: x in xs <==> x in ys
  {
    forall x
      ensures x in xs <==> x in ys
    {
      assert x in xs <==> x in multiset(xs);
      assert x in ys <==> x in multiset(ys);
    }
  }

  /** `author_balanced_empires(count, unmod)`, with the empty pool returned
      at once: passes over the authors in a fresh random order, each
      author adding at most one of their files not selected yet (approved
      ones first), until `count` files are selected. */
  method AuthorBalancedEmpires(count: int, approved: seq<string>, pending: seq<string>, unmod: bool)
    returns (r: seq<string>)
    requires Globbed(approved, pending)
    ensures Balanced(count, Pool(approved, pending, unmod), r)
  {
    var files := Pool(approved, pending, unmod);
    PoolFacts(approved, pending, unmod);
    if |files| <= count || files == [] {
      return files;
    }
    r := Passes(count, files, Author);
  }

  /** The passes of the author-balanced pick, for any way `key` of naming a
      file's author: group the files, then pass over the groups in a fresh
      random order until `count` files are selected. */
  method Passes(count: int, files: seq<string>, key: string -> string) returns (r: seq<string>)
    requires Distinct(files) && files != [] && count < |files|
    requires forall i :: 0 <= i < |files| ==> IsApproved(files[i]) || IsPending(files[i])
    ensures |r| == Max(count, 1) && Distinct(r) && forall i :: 0 <= i < |r| ==> r[i] in files
  {
    var authorList, authorMap := GroupBy(files, key);
    var selected: set<string> := {};
    while true
      invariant forall x :: x in selected ==> x in files
      invariant |selected| < count || selected == {}
      invariant forall a :: a in authorMap <==> a in authorList
      invariant Distinct(authorList)
      decreases |files| - |selected|
    {
      SubsetSize(selected, files);
      var shuffled := Shuffle(authorList);
      SameMembers(authorList, shuffled);
      DistinctSub(shuffled, authorList);
      authorList := shuffled;
      var full;
      selected, full := Pass(count, files, key, authorList, authorMap, selected);
      if full {
        r := ListOf(selected);
        return;
      }
    }
  }

  /** One pass of the author-balanced pick: every author in `authors`, in
      that order, takes a turn, and the pick ends (`full`) as soon as
      `count` files are selected. A pass that does not end has selected at
      least one more file: otherwise every file would be selected, more
      than `count` of them. */
  method Pass(count: int, files: seq<string>, key: string -> string, authors: seq<string>,
              groups: map<string, seq<string>>, selected: set<string>)
    returns (s: set<string>, full: bool)
    requires Distinct(files) && files != [] && count < |files|
    requires forall i :: 0 <= i < |files| ==> IsApproved(files[i]) || IsPending(files[i])
    requires Distinct(authors)
    requires forall a :: a in authors ==> a in groups && groups[a] == Group(files, key, a) && groups[a] != []
    requires forall i :: 0 <= i < |files| ==> key(files[i]) in authors
    requires forall x :: x in selected ==> x in files
    requires |selected| < count || selected == {}
    ensures selected <= s && forall x :: x in s ==> x in files
    ensures full ==> |s| == Max(count, 1)
    ensures !full ==> |s| < count && |s| > |selected|
    ensures OnePerAuthor(s - selected, key, authors)
  {
    s := selected;
    ghost var seen: set<string> := {};
    var j := 0;
    assert s - selected == {};
    while j < |authors|
      invariant 0 <= j <= |authors|
      invariant selected <= s && forall x :: x in s ==> x in files
      invariant |s| < count || s == {}
      invariant forall k :: 0 <= k < j ==> authors[k] in seen
      invariant |s| > |selected| || forall x :: x in files && key(x) in seen ==> x in s
      invariant OnePerAuthor(s - selected, key, authors[..j])
    {
      var author := authors[j];
      s := PassTurn(files, key, authors, groups, j, selected, s);
      if |s| >= count {
        return s, true;
      }
      seen := seen + {author};
      j := j + 1;
    }
    PassGrows(count, files, key, authors, seen, selected, s);
    assert authors[..j] == authors;
    full := false;
  }

  /** A pass in which every author had a turn and the count was not
      reached selected at least one more file: otherwise every file would
      be selected, more than `count` of them. */
  lemma PassGrows(count: int, files: seq<string>, key: string -> string, authors: seq<string>,
                  seen: set<string>, selected: set<string>, s: set<string>)
    requires Distinct(files) && files != [] && count < |files|
    requires forall i :: 0 <= i < |files| ==> key(files[i]) in authors
    requires forall k :: 0 <= k < |authors| ==> authors[k] in seen
    requires selected <= s && (|s| < count || s == {})
    requires |s| > |selected| || forall x :: x in files && key(x) in seen ==> x in s
    ensures |s| > |selected|
  {
    SubsetCard(selected, s);
    if |s| <= |selected| {
      forall i | 0 <= i < |files|
        ensures files[i] in s
      {
        assert key(files[i]) in authors;
      }
      SupersetSize(s, files);
    }
  }

  /** The turn of the `j`-th author in a pass that started from `selected`
      and has reached `s`: at most one more file, of that author, and none
      only when all of theirs are selected. */
  method PassTurn(files: seq<string>, key: string -> string, authors: seq<string>,
                  groups: map<string, seq<string>>, j: int, selected: set<string>, s: set<string>)
    returns (t: set<string>)
    requires forall i :: 0 <= i < |files| ==> IsApproved(files[i]) || IsPending(files[i])
    requires Distinct(authors) && 0 <= j < |authors|
    requires authors[j] in groups && groups[authors[j]] == Group(files, key, authors[j]) && groups[authors[j]] != []
    requires selected <= s && forall x :: x in s ==> x in files
    requires OnePerAuthor(s - selected, key, authors[..j])
    ensures s <= t && |t| <= |s| + 1 && forall x :: x in t ==> x in files
    ensures s == {} ==> |t| == 1
    ensures |t| == |s| ==> forall x :: x in files && key(x) == authors[j] ==> x in s
    ensures |t| > |selected| || |t| == |s|
    ensures OnePerAuthor(t - selected, key, authors[..j + 1]) && OnePerAuthor(t - selected, key, authors)
  {
    t := AuthorTurn(files, key, groups[authors[j]], authors[j], s);
    OnePerAuthorStep(selected, s, t, key, authors, j);
    SubsetCard(selected, s);
    SubsetCard(s, t);
  }

  /** The files `added` came from the authors `authors`, at most one from
      each. */
  ghost predicate OnePerAuthor(added: set<string>, key: string -> string, authors: seq<string>)
  {
    && (forall x :: x in added ==> key(x) in authors)
    && (forall x, y :: x in added && y in added && key(x) == key(y) ==> x == y)
  }

  /** In a list without repeats, the author whose turn it is has had none
      before. */
  lemma NotYetTurned(authors: seq<string>, j: int)
    requires Distinct(authors) && 0 <= j < |authors|
    ensures authors[j] !in authors[..j]
  {
  }

  /** The turn of the `j`-th author, in a list without repeats, keeps each
      author of the pass so far at one added file at most. */
  lemma OnePerAuthorStep(selected: set<string>, prior: set<string>, s: set<string>, key: string -> string,
                         authors: seq<string>, j: int)
    requires Distinct(authors) && 0 <= j < |authors|
    requires OnePerAuthor(prior - selected, key, authors[..j]) && selected <= prior
    requires forall x :: x in s ==> x in prior || key(x) == authors[j]
    requires forall x, y :: x in s && x !in prior && y in s && y !in prior ==> x == y
    ensures OnePerAuthor(s - selected, key, authors[..j + 1])
    ensures OnePerAuthor(s - selected, key, authors)
  {
    NotYetTurned(authors, j);
    OnePerAuthorTurn(selected, prior, s, key, authors[..j], authors[j]);
    assert authors[..j + 1] == authors[..j] + [authors[j]];
    OnePerAuthorWiden(s - selected, key, authors[..j + 1], authors);
  }

  /** A turn of an author who has not had one adds at most one file, of
      that author, so each author has still added at most one. */
  lemma OnePerAuthorTurn(selected: set<string>, prior: set<string>, s: set<string>, key: string -> string,
                         done: seq<string>, author: string)
    requires OnePerAuthor(prior - selected, key, done) && author !in done && selected <= prior
    requires forall x :: x in s ==> x in prior || key(x) == author
    requires forall x, y :: x in s && x !in prior && y in s && y !in prior ==> x == y
    ensures OnePerAuthor(s - selected, key, done + [author])
  {
    forall x | x in s - selected
      ensures key(x) in done + [author]
    {
      if x in prior {
        assert x in prior - selected;
      } else {
        assert key(x) == (done + [author])[|done|];
      }
    }
  }

  /** More authors allowed, the same files added. */
  lemma OnePerAuthorWiden(added: set<string>, key: string -> string, a: seq<string>, b: seq<string>)
    requires OnePerAuthor(added, key, a) && a <= b
    ensures OnePerAuthor(added, key, b)
  {
    forall x | x in added
      ensures key(x) in b
    {
      var k :| 0 <= k < |a| && a[k] == key(x);
      assert b[k] == key(x);
    }
  }

  /** `select_empires(count, unmod, balance_authors)`: the author-balanced
      pick when `balance_authors` is set, the plain random pick otherwise. */
  method SelectEmpires(count: int, unmod: bool, balanceAuthors: bool, approved: seq<string>, pending: seq<string>)
    returns (r: Result<seq<string>, string>)
    requires Globbed(approved, pending)
    ensures balanceAuthors ==> r.Ok? && Balanced(count, Pool(approved, pending, unmod), r.value)
    ensures !balanceAuthors ==> Sampled(count, Pool(approved, pending, unmod), r)
  {
    if balanceAuthors {
      var files := AuthorBalancedEmpires(count, approved, pending, unmod);
      r := Ok(files);
    } else {
      r := RandomEmpires(count, approved, pending, unmod);
    }
  }

  // ---------------------------------------------------------------------
  // The author-balanced pick as written

  /** One pass of `author_balanced_empires` as written, with the shuffles
      fixed to leave every order as it is: each author in turn selects
      their first file not selected yet, and the pass stops (`true`) once
      the selection has `count` files. */
  function RoundAsWritten(count: int, files: seq<string>, authors: seq<string>, selected: set<string>): (r: (set<string>, bool))
    ensures selected <= r.0
    ensures r.1 ==> |r.0| >= count
  {
    if authors == [] then (selected, false)
    else
      var f := FirstNew(ByAuthor(files, authors[0]), selected);
      var s := if f.Some? then selected + {f.value} else selected;
      if |s| >= count then (s, true) else RoundAsWritten(count, files, authors[1..], s)
  }

  /** At most `fuel` passes: `None` when none of them reached the count. */
  function RoundsAsWritten(count: int, files: seq<string>, authors: seq<string>, selected: set<string>, fuel: nat): Option<set<string>>
    decreases fuel
  {
    if fuel == 0 then None
    else
      var (s, full) := RoundAsWritten(count, files, authors, selected);
      if full then Some(s) else RoundsAsWritten(count, files, authors, s, fuel - 1)
  }

  /** `author_balanced_empires` as written, for at most `fuel` passes: the
      guard returns the pool only when it has no more files than `count`,
      so an empty pool with a negative count goes on to the passes. */
  function BalancedAsWritten(count: int, files: seq<string>, authors: seq<string>, fuel: nat): Option<set<string>>
  {
    if |files| <= count then Some(set x | x in files)
    else RoundsAsWritten(count, files, authors, {}, fuel)
  }

  lemma {:induction false} NoAuthorsNeverFull(count: int, selected: set<string>, fuel: nat)
    requires count < 0 || |selected| < count
    ensures RoundsAsWritten(count, [], [], selected, fuel) == None
  {
    if fuel > 0 {
      assert RoundAsWritten(count, [], [], selected) == (selected, false);
      NoAuthorsNeverFull(count, selected, fuel - 1);
    }
  }

  /** As written, an empty pool with a negative count never returns: no
      number of passes over its (no) authors reaches the count. */
  lemma AsWrittenEmptyPoolHangs(count: int, fuel: nat)
    requires count < 0
    ensures BalancedAsWritten(count, [], [], fuel) == None
  {
    NoAuthorsNeverFull(count, {}, fuel);
  }
}
