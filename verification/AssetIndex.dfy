/** The embedded assets: a flat table of names, a tree of directories over the same names, and writing
    assets back to files. */
module AssetIndex {
  import opened Options
  import opened Substitution

  type Content = string
  type Path = seq<string>

  /** bintree: an asset's generator, or a directory. */
  datatype Tree = Tree(func: Option<Content>, children: map<string, Tree>)

  // ---------------------------------------------------------------- names and segments

  /** Names may be given with backslashes. */
  function Canonical(name: string): string { ReplaceAll(name, "\\", "/") }

  function Split(s: string): (parts: Path)
    ensures |parts| >= 1
    ensures forall p <- parts :: '/' !in p
  {
    if s == "" then [""]
    else if s[0] == '/' then [""] + Split(s[1..])
    else
      var rest := Split(s[1..]);
      [[s[0]] + rest[0]] + rest[1..]
  }

  function Join(parts: Path): string
    requires |parts| >= 1
  {
    if |parts| == 1 then parts[0] else parts[0] + "/" + Join(parts[1..])
  }

  lemma {:induction false} JoinSplit(s: string)
    ensures Join(Split(s)) == s
  {
    if s != "" {
      JoinSplit(s[1..]);
      var rest := Split(s[1..]);
      if s[0] == '/' {
        assert ([""] + rest)[1..] == rest;
      } else if |rest| > 1 {
        assert ([[s[0]] + rest[0]] + rest[1..])[1..] == rest[1..];
      }
    }
  }

  lemma {:induction false} SplitSegment(p: string)
    requires '/' !in p
    ensures Split(p) == [p]
  {
    if p != "" {
      SplitSegment(p[1..]);
      assert [p[0]] + p[1..] == p;
    }
  }

  lemma {:induction false} SplitFirst(p: string, rest: string)
    requires '/' !in p
    ensures Split(p + "/" + rest) == [p] + Split(rest)
  {
    if p == "" {
      assert (p + "/" + rest)[1..] == rest;
    } else {
      assert (p + "/" + rest)[1..] == p[1..] + "/" + rest && (p + "/" + rest)[0] == p[0];
      SplitFirst(p[1..], rest);
      assert ([p[1..]] + Split(rest))[1..] == Split(rest);
      assert [p[0]] + p[1..] == p;
    }
  }

  lemma {:induction false} SplitJoin(parts: Path)
    requires |parts| >= 1 && forall p <- parts :: '/' !in p
    ensures Split(Join(parts)) == parts
    decreases |parts|
  {
    if |parts| == 1 {
      SplitSegment(parts[0]);
    } else {
      SplitFirst(parts[0], Join(parts[1..]));
      SplitJoin(parts[1..]);
    }
  }

  lemma {:induction false} JoinLast(parts: Path, last: string)
    requires |parts| >= 1
    ensures Join(parts + [last]) == Join(parts) + "/" + last
    decreases |parts|
  {
    if |parts| > 1 {
      assert (parts + [last])[1..] == parts[1..] + [last];
      JoinLast(parts[1..], last);
    } else {
      assert (parts + [last])[1..] == [last];
    }
  }

  /** The path of directories that a name stands for; the empty name is the root. */
  function PathOf(name: string): Path { if name == "" then [] else Split(Canonical(name)) }

  lemma NoBackslash(name: string)
    requires '\\' !in name
    ensures Canonical(name) == name
  {
    forall k: nat | k < |name| ensures !("\\" <= name[k..]) {
      assert name[k] in name && name[k..][0] == name[k];
    }
    NothingToReplace(name, "\\", "/");
  }

  /** A canonical name is the name with slashes for backslashes. */
  lemma {:induction false} CanonicalIs(name: string)
    ensures |Canonical(name)| == |name|
    ensures forall k | 0 <= k < |name| :: Canonical(name)[k] == if name[k] == '\\' then '/' else name[k]
    decreases |name|
  {
    if name != "" {
      CanonicalIs(name[1..]);
      if "\\" <= name {
        assert Canonical(name) == "/" + Canonical(name[1..]);
      } else {
        assert name[0] != '\\' && Canonical(name) == [name[0]] + Canonical(name[1..]);
      }
    }
  }

  lemma CanonicalSum(a: string, b: string)
    ensures Canonical(a + b) == Canonical(a) + Canonical(b)
  {
    PassInTwo(a, b, "\\", "/");
  }

  lemma SplitLast(s: string, last: string)
    requires '/' !in last
    ensures Split(s + "/" + last) == Split(s) + [last]
  {
    JoinSplit(s);
    JoinLast(Split(s), last);
    SplitJoin(Split(s) + [last]);
  }

  lemma CanonicalLast(s: string, last: string)
    requires '/' !in last && '\\' !in last
    ensures Split(Canonical(s + "/" + last)) == Split(Canonical(s)) + [last]
  {
    CanonicalSum(s, "/" + last);
    assert s + ("/" + last) == s + "/" + last;
    assert '\\' !in "/" + last;
    NoBackslash("/" + last);
    assert Canonical(s) + ("/" + last) == Canonical(s) + "/" + last;
    SplitLast(Canonical(s), last);
  }

  // ---------------------------------------------------------------- tree and table

  function Walk(t: Tree, path: Path): Option<Tree>
    decreases |path|
  {
    if path == [] then Some(t)
    else if path[0] in t.children then Walk(t.children[path[0]], path[1..])
    else None
  }

  lemma {:induction false} WalkOn(t: Tree, path: Path, more: Path)
    ensures Walk(t, path + more) == if Walk(t, path).Some? then Walk(Walk(t, path).value, more) else None
    decreases |path|
  {
    if path == [] {
      assert path + more == more;
    } else if path[0] in t.children {
      assert (path + more)[1..] == path[1..] + more;
      WalkOn(t.children[path[0]], path[1..], more);
    }
  }

  predicate Segment(p: string) { p != "" && '/' !in p && '\\' !in p && p != "." && p != ".." }

  /** Assets are leaves, and every directory below the root holds something. */
  predicate Proper(t: Tree) {
    && (t.func.Some? ==> t.children == map[])
    && (forall c <- t.children :: Segment(c) && (t.children[c].func.Some? || t.children[c].children != map[]))
    && (forall c <- t.children :: Proper(t.children[c]))
  }

  predicate IsAsset(t: Tree, path: Path, content: Content) {
    Walk(t, path).Some? && Walk(t, path).value.func == Some(content)
  }

  predicate Listed(t: Tree, table: map<string, Content>, key: string)
    requires key in table
  {
    IsAsset(t, Split(key), table[key])
  }

  /** The tree and the table describe the same assets under the same names. */
  ghost predicate Represents(t: Tree, table: map<string, Content>) {
    && Proper(t) && t.func.None?
    && (forall key {:trigger Listed(t, table, key)} | key in table :: Listed(t, table, key))
    && (forall path: Path, content | IsAsset(t, path, content) :: Join(path) in table && table[Join(path)] == content)
  }

  /** The asset names below a path, itself included. */
  ghost function Under(table: map<string, Content>, path: Path): set<string> {
    set key | key in table && path <= Split(key)
  }

  /** Some asset lies below every directory that holds something. */
  lemma {:induction false} SomethingBelow(t: Tree) returns (path: Path, content: Content)
    requires Proper(t) && (t.func.Some? || t.children != map[])
    ensures IsAsset(t, path, content)
    ensures forall p <- path :: '/' !in p
  {
    if t.func.Some? {
      path, content := [], t.func.value;
    } else {
      var c :| c in t.children;
      path, content := SomethingBelow(t.children[c]);
      path := [c] + path;
      assert path[1..] == path[1..];
    }
  }

  lemma {:induction false} ProperBelow(t: Tree, path: Path)
    requires Proper(t) && Walk(t, path).Some?
    ensures Proper(Walk(t, path).value)
    ensures forall p <- path :: Segment(p)
    ensures path != [] ==> Walk(t, path).value.func.Some? || Walk(t, path).value.children != map[]
    decreases |path|
  {
    if path != [] {
      ProperBelow(t.children[path[0]], path[1..]);
    }
  }

  /** A node is an asset's exactly when the table has its name, and a directory below the root exactly when
      the table has a name further down. */
  lemma NodeMeaning(t: Tree, table: map<string, Content>, path: Path)
    requires Represents(t, table) && forall p <- path :: '/' !in p
    ensures path != [] ==> ((Walk(t, path).Some? && Walk(t, path).value.func.Some?) <==> Join(path) in table)
    ensures path != [] ==> ((Walk(t, path).Some? && Walk(t, path).value.func.None?)
                            <==> exists key <- table :: path <= Split(key) && |path| < |Split(key)|)
  {
    if path != [] {
      if Join(path) in table {
        assert Listed(t, table, Join(path));
        SplitJoin(path);
      }
      if Walk(t, path).Some? && Walk(t, path).value.func.Some? {
        assert IsAsset(t, path, Walk(t, path).value.func.value);
      }
      if Walk(t, path).Some? && Walk(t, path).value.func.None? {
        var key := NameBelow(t, table, path);
      }
      forall key | key in table && path <= Split(key) && |path| < |Split(key)|
        ensures Walk(t, path).Some? && Walk(t, path).value.func.None?
      {
        ChildBelow(t, table, path, key);
      }
    }
  }

  /** A name below a directory. */
  lemma NameBelow(t: Tree, table: map<string, Content>, path: Path) returns (key: string)
    requires Represents(t, table) && path != []
    requires Walk(t, path).Some? && Walk(t, path).value.func.None?
    ensures key in table && path <= Split(key) && |path| < |Split(key)|
  {
    ProperBelow(t, path);
    var more, content := SomethingBelow(Walk(t, path).value);
    WalkOn(t, path, more);
    assert IsAsset(t, path + more, content);
    assert forall p <- path :: Segment(p);
    forall p | p in path + more ensures '/' !in p {
      assert p in path || p in more;
    }
    SplitJoin(path + more);
    key := Join(path + more);
  }

  /** The step from a directory towards a name below it. */
  lemma ChildBelow(t: Tree, table: map<string, Content>, path: Path, key: string)
    requires Represents(t, table) && key in table && path <= Split(key) && |path| < |Split(key)|
    ensures Walk(t, path).Some? && Walk(t, path).value.func.None?
    ensures Split(key)[|path|] in Walk(t, path).value.children
  {
    assert Listed(t, table, key);
    assert Split(key) == path + Split(key)[|path|..];
    PathStep(t, path, Split(key)[|path|..]);
  }

  lemma PathStep(t: Tree, path: Path, rest: Path)
    requires Proper(t) && rest != [] && Walk(t, path + rest).Some?
    ensures Walk(t, path).Some? && Walk(t, path).value.func.None? && rest[0] in Walk(t, path).value.children
  {
    WalkOn(t, path, rest);
    ProperBelow(t, path);
    StepDown(Walk(t, path).value, rest);
  }

  lemma StepDown(n: Tree, path: Path)
    requires Proper(n) && path != [] && Walk(n, path).Some?
    ensures n.func.None? && path[0] in n.children
  {
  }

  // ---------------------------------------------------------------- AssetDir

  /** Asset: the bytes under a name. */
  function Asset(table: map<string, Content>, name: string): Option<Content> {
    if Canonical(name) in table then Some(table[Canonical(name)]) else None
  }

  predicate IsDirectory(t: Tree, name: string) {
    Walk(t, PathOf(name)).Some? && Walk(t, PathOf(name)).value.func.None?
  }

  predicate NoDuplicates<T(==)>(s: seq<T>) { forall i, j | 0 <= i < j < |s| :: s[i] != s[j] }

  /** AssetDir: walk down the tree along the name, and list the children of the directory it leads to. */
  method AssetDir(t: Tree, name: string) returns (entries: Option<seq<string>>)
    ensures entries.Some? <==> IsDirectory(t, name)
    ensures entries.Some? ==> NoDuplicates(entries.value)
    ensures entries.Some? ==> forall c :: c in entries.value <==> c in Walk(t, PathOf(name)).value.children
  {
    var node := t;
    if |name| != 0 {
      var pathList := Split(Canonical(name));
      var i := 0;
      while i < |pathList|
        invariant i <= |pathList|
        invariant Walk(t, pathList) == Walk(node, pathList[i..])
      {
        if pathList[i] !in node.children {
          return None;
        }
        node, i := node.children[pathList[i]], i + 1;
      }
    }
    if node.func.Some? {
      return None;
    }
    var rv: seq<string>, todo := [], node.children.Keys;
    while todo != {}
      invariant todo <= node.children.Keys
      invariant NoDuplicates(rv) && forall c :: c in rv <==> c in node.children.Keys - todo
      decreases todo
    {
      var c :| c in todo;
      assert c !in rv;
      rv, todo := rv + [c], todo - {c};
    }
    entries := Some(rv);
  }

  /** AssetDir succeeds exactly for the root and for proper directories of some asset's name. */
  lemma DirectoryMeaning(t: Tree, table: map<string, Content>, name: string)
    requires Represents(t, table)
    ensures IsDirectory(t, name) <==>
              name == "" || exists key <- table :: PathOf(name) <= Split(key) && |PathOf(name)| < |Split(key)|
  {
    NodeMeaning(t, table, PathOf(name));
  }

  /** And then it lists the set of next segments of the names below. */
  lemma EntriesMeaning(t: Tree, table: map<string, Content>, path: Path, c: string)
    requires Represents(t, table) && Walk(t, path).Some? && Walk(t, path).value.func.None?
    ensures c in Walk(t, path).value.children <==> exists key <- table :: path + [c] <= Split(key)
  {
    if c in Walk(t, path).value.children {
      WalkOn(t, path, [c]);
      var key := NameAtOrBelow(t, table, path + [c]);
    }
    forall key | key in table && path + [c] <= Split(key) ensures c in Walk(t, path).value.children {
      assert path <= path + [c] && Split(key)[|path|] == (path + [c])[|path|];
      ChildBelow(t, table, path, key);
    }
  }

  /** It fails on every asset's own name. */
  lemma NoDirectoryIsAnAsset(t: Tree, table: map<string, Content>, name: string)
    requires Represents(t, table) && Asset(table, name).Some?
    ensures !IsDirectory(t, name)
  {
    RootIsNoName(t, table);
    JoinSplit(Canonical(name));
    NodeMeaning(t, table, PathOf(name));
  }

  lemma RootIsNoName(t: Tree, table: map<string, Content>)
    requires Represents(t, table)
    ensures "" !in table && Canonical("") == ""
  {
    assert Split("") == [""] && "" in Split("");
    if "" in table {
      assert Listed(t, table, "");
      ProperBelow(t, Split(""));
    }
  }

  /** A name at or below a node. */
  lemma NameAtOrBelow(t: Tree, table: map<string, Content>, path: Path) returns (key: string)
    requires Represents(t, table) && path != [] && Walk(t, path).Some?
    ensures key in table && path <= Split(key)
  {
    if Walk(t, path).value.func.Some? {
      ProperBelow(t, path);
      assert forall p <- path :: Segment(p);
      assert IsAsset(t, path, Walk(t, path).value.func.value);
      SplitJoin(path);
      key := Join(path);
    } else {
      key := NameBelow(t, table, path);
    }
  }

  // ---------------------------------------------------------------- RestoreAssets

  /** filepath.Join of a directory's name and an entry, which are clean. */
  function PathJoin(name: string, child: string): string { if name == "" then child else name + "/" + child }

  /** The entry of a directory stands for the directory's path and one more segment. */
  lemma EntryPath(name: string, child: string)
    requires Segment(child)
    ensures PathJoin(name, child) != "" && PathOf(PathJoin(name, child)) == PathOf(name) + [child]
  {
    if name == "" {
      NoBackslash(child);
      SplitSegment(child);
    } else {
      CanonicalLast(name, child);
    }
  }

  // ---------------------------------------------------------------- directories on the disk

  function Parent(path: Path): Path
    requires path != []
  {
    path[..|path| - 1]
  }

  /** MkdirAll: a directory, and the directories it lies in. */
  function WithParents(path: Path): set<Path> { set n | 0 <= n <= |path| :: path[..n] }

  lemma WithParentsAre(path: Path)
    ensures forall q :: q in WithParents(path) <==> q <= path
  {
    forall q | q <= path ensures q in WithParents(path) {
      assert q == path[..|q|];
    }
  }

  /** The directory that RestoreAsset creates for a name: filepath.Dir knows slashes only, and what it leaves is
      made canonical. */
  function DirOf(name: string): Path {
    var parts := Split(name);
    if |parts| == 1 then [] else Split(Canonical(Join(parts[..|parts| - 1])))
  }

  /** After that the directory of the file itself is there. */
  predicate Writable(dirs: set<Path>, dir: Path, name: string) {
    Parent(dir + Split(Canonical(name))) in dirs + WithParents(dir + DirOf(name))
  }

  predicate OrdinaryLast(name: string) { '\\' !in Split(name)[|Split(name)| - 1] }

  /** It is, whatever was there before, unless the last segment of the name has a backslash in it. */
  lemma OrdinaryNamesAreWritable(dirs: set<Path>, dir: Path, name: string)
    requires OrdinaryLast(name)
    ensures Writable(dirs, dir, name)
    ensures Parent(dir + Split(Canonical(name))) == dir + DirOf(name)
  {
    var parts := Split(name);
    var last := parts[|parts| - 1];
    JoinSplit(name);
    if |parts| == 1 {
      NoBackslash(name);
    } else {
      assert parts == parts[..|parts| - 1] + [last];
      JoinLast(parts[..|parts| - 1], last);
      CanonicalLast(Join(parts[..|parts| - 1]), last);
    }
    assert Split(Canonical(name)) == DirOf(name) + [last];
    assert Parent(dir + Split(Canonical(name))) == dir + DirOf(name) == (dir + DirOf(name))[..|dir + DirOf(name)|];
  }

  lemma EntriesAreWritable(dirs: set<Path>, dir: Path, name: string, child: string)
    requires Segment(child)
    ensures OrdinaryLast(PathJoin(name, child)) && Writable(dirs, dir, PathJoin(name, child))
  {
    if name == "" {
      SplitSegment(child);
    } else {
      SplitLast(name, child);
    }
    OrdinaryNamesAreWritable(dirs, dir, PathJoin(name, child));
  }

  // ---------------------------------------------------------------- what is restored

  /** What restoring these names below a directory puts into files. */
  ghost function Files(table: map<string, Content>, dir: Path, names: set<string>): map<Path, Content>
    requires names <= table.Keys
  {
    SplitIsInjective();
    map key | key in names :: dir + Split(key) := table[key]
  }

  lemma SplitIsInjective()
    ensures forall a, b | Split(a) == Split(b) :: a == b
    ensures forall a, b, dir: Path | dir + Split(a) == dir + Split(b) :: a == b
  {
    forall a, b | Split(a) == Split(b) ensures a == b {
      JoinSplit(a);
      JoinSplit(b);
    }
    forall a, b, dir: Path | dir + Split(a) == dir + Split(b) ensures a == b {
      assert (dir + Split(a))[|dir|..] == Split(a) && (dir + Split(b))[|dir|..] == Split(b);
    }
  }

  lemma FilesInTwo(table: map<string, Content>, dir: Path, first: set<string>, second: set<string>)
    requires first <= table.Keys && second <= table.Keys
    ensures Files(table, dir, first) + Files(table, dir, second) == Files(table, dir, first + second)
    ensures first !! second ==> Files(table, dir, first).Keys !! Files(table, dir, second).Keys
  {
    SplitIsInjective();
  }

  /** The names below those entries of a directory that are done. */
  ghost function UnderEntries(table: map<string, Content>, path: Path, done: seq<string>): set<string> {
    set key | key in Under(table, path) && |path| < |Split(key)| && Split(key)[|path|] in done
  }

  lemma NextEntry(table: map<string, Content>, path: Path, done: seq<string>, c: string)
    requires c !in done
    ensures UnderEntries(table, path, done + [c]) == UnderEntries(table, path, done) + Under(table, path + [c])
    ensures UnderEntries(table, path, done) !! Under(table, path + [c])
  {
    forall key | key in table
      ensures path + [c] <= Split(key) <==> path <= Split(key) && |path| < |Split(key)| && Split(key)[|path|] == c
    {
      if path <= Split(key) && |path| < |Split(key)| && Split(key)[|path|] == c {
        assert Split(key)[..|path| + 1] == path + [c];
      }
      if path + [c] <= Split(key) {
        assert Split(key)[|path|] == (path + [c])[|path|];
      }
    }
  }

  /** The writes between two states of the log: each of these paths once, and no other. */
  ghost predicate WrittenOnce(before: seq<Path>, after: seq<Path>, paths: set<Path>) {
    && before <= after
    && NoDuplicates(after[|before|..])
    && forall p :: p in after[|before|..] <==> p in paths
  }

  lemma WrittenInTwo(a: seq<Path>, b: seq<Path>, c: seq<Path>, first: set<Path>, second: set<Path>)
    requires WrittenOnce(a, b, first) && WrittenOnce(b, c, second) && first !! second
    ensures WrittenOnce(a, c, first + second)
  {
    var x, y := b[|a|..], c[|b|..];
    assert c[|a|..] == x + y;
    forall i, j | 0 <= i < j < |x + y| ensures (x + y)[i] != (x + y)[j] {
      assert (x + y)[i] in first <==> i < |x|;
      assert (x + y)[j] in first <==> j < |x|;
    }
    assert forall p :: p in x + y <==> p in x || p in y;
  }

  /** The state of a disk after restoring these names, from what it was before. */
  ghost predicate Restored(table: map<string, Content>, dir: Path, names: set<string>,
                           f0: map<Path, Content>, w0: seq<Path>, f: map<Path, Content>, w: seq<Path>)
  {
    names <= table.Keys && f == f0 + Files(table, dir, names) && WrittenOnce(w0, w, Files(table, dir, names).Keys)
  }

  lemma RestoredInTwo(table: map<string, Content>, dir: Path, first: set<string>, second: set<string>,
                      f0: map<Path, Content>, w0: seq<Path>, f1: map<Path, Content>, w1: seq<Path>,
                      f2: map<Path, Content>, w2: seq<Path>)
    requires Restored(table, dir, first, f0, w0, f1, w1) && Restored(table, dir, second, f1, w1, f2, w2)
    requires first !! second
    ensures Restored(table, dir, first + second, f0, w0, f2, w2)
  {
    var a, b := Files(table, dir, first), Files(table, dir, second);
    FilesInTwo(table, dir, first, second);
    WrittenInTwo(w0, w1, w2, a.Keys, b.Keys);
    Overlay(f0, a, b);
  }

  lemma Overlay<K, V>(f: map<K, V>, a: map<K, V>, b: map<K, V>)
    ensures (f + a) + b == f + (a + b)
    ensures (a + b).Keys == a.Keys + b.Keys
  {
  }

  lemma NothingRestored(table: map<string, Content>, dir: Path, f: map<Path, Content>, w: seq<Path>)
    ensures Restored(table, dir, {}, f, w, f, w)
  {
    assert Files(table, dir, {}) == map[];
    assert w[|w|..] == [];
  }

  lemma NoEntriesRestored(table: map<string, Content>, dir: Path, path: Path, entries: seq<string>,
                          f: map<Path, Content>, w: seq<Path>)
    ensures Restored(table, dir, UnderEntries(table, path, entries[..0]), f, w, f, w)
  {
    assert UnderEntries(table, path, entries[..0]) == {};
    NothingRestored(table, dir, f, w);
  }

  lemma OneMoreEntry(entries: seq<string>, i: nat)
    requires i < |entries| && NoDuplicates(entries)
    ensures entries[i] in entries && entries[i] !in entries[..i]
    ensures entries[..i] + [entries[i]] == entries[..i + 1]
  {
  }

  lemma OneRestored(table: map<string, Content>, dir: Path, name: string, f: map<Path, Content>, w: seq<Path>)
    requires name in table
    ensures Restored(table, dir, {name}, f, w, f[dir + Split(name) := table[name]], w + [dir + Split(name)])
  {
    FileOfOne(table, dir, name);
    assert (w + [dir + Split(name)])[|w|..] == [dir + Split(name)];
  }

  lemma FileOfOne(table: map<string, Content>, dir: Path, name: string)
    requires name in table
    ensures Files(table, dir, {name}) == map[dir + Split(name) := table[name]]
  {
    var files := Files(table, dir, {name});
    assert forall p :: p in files <==> p == dir + Split(name);
  }

  /** A name that is no directory is an asset's, with nothing else below it, or nothing at all. */
  lemma UnderNoDirectory(t: Tree, table: map<string, Content>, name: string)
    requires Represents(t, table) && !IsDirectory(t, name)
    ensures name != ""
    ensures Under(table, PathOf(name)) == if Canonical(name) in table then {Canonical(name)} else {}
  {
    JoinSplit(Canonical(name));
    NodeMeaning(t, table, PathOf(name));
    forall key | key in table && PathOf(name) <= Split(key) ensures key == Canonical(name) {
      assert Split(key) == PathOf(name);
      JoinSplit(key);
    }
  }

  /** Below a directory there is what is below its entries. */
  lemma UnderAllEntries(t: Tree, table: map<string, Content>, path: Path, entries: seq<string>, n: nat)
    requires Represents(t, table) && Walk(t, path).Some? && Walk(t, path).value.func.None?
    requires n == |entries| && forall c :: c in entries <==> c in Walk(t, path).value.children
    ensures UnderEntries(table, path, entries[..n]) == Under(table, path)
  {
    assert entries[..n] == entries;
    forall key | key in table && path <= Split(key)
      ensures |path| < |Split(key)| && Split(key)[|path|] in entries
    {
      assert Listed(t, table, key);
      assert |path| == |Split(key)| ==> path == Split(key);
      ChildBelow(t, table, path, key);
    }
  }

  /** What follows a path in the tree. */
  function Below(t: Tree, path: Path): Tree { if Walk(t, path).Some? then Walk(t, path).value else Tree(None, map[]) }

  /** The directories that are there now are the ones before and those that the files written since lie in. */
  ghost predicate Made(d0: set<Path>, d: set<Path>, w0: seq<Path>, w: seq<Path>) {
    w0 <= w && forall q :: q in d <==> q in d0 || exists p <- w[|w0|..] :: q < p
  }

  lemma NothingMade(d: set<Path>, w: seq<Path>)
    ensures Made(d, d, w, w)
  {
    assert w[|w|..] == [];
  }

  lemma MadeForOne(d: set<Path>, w: seq<Path>, dir: Path, name: string)
    requires OrdinaryLast(name)
    ensures Made(d, d + WithParents(dir + DirOf(name)), w, w + [dir + Split(Canonical(name))])
  {
    var path, more := dir + Split(Canonical(name)), w + [dir + Split(Canonical(name))];
    OrdinaryNamesAreWritable(d, dir, name);
    WithParentsAre(dir + DirOf(name));
    assert more[|w|..] == [path] && path in [path];
    forall q ensures q in d + WithParents(dir + DirOf(name)) <==> q in d || exists p <- [path] :: q < p {
      PrefixOfParent(q, path);
    }
  }

  lemma PrefixOfParent(q: Path, path: Path)
    requires path != []
    ensures q <= Parent(path) <==> q < path
  {
    assert path == Parent(path) + [path[|path| - 1]];
    if q <= Parent(path) {
      assert q == path[..|q|];
    }
    if q < path {
      assert q == Parent(path)[..|q|];
    }
  }

  lemma MadeInTwo(d0: set<Path>, d1: set<Path>, d2: set<Path>, w0: seq<Path>, w1: seq<Path>, w2: seq<Path>)
    requires Made(d0, d1, w0, w1) && Made(d1, d2, w1, w2)
    ensures Made(d0, d2, w0, w2)
  {
    var x, y := w1[|w0|..], w2[|w1|..];
    assert w2[|w0|..] == x + y;
    assert forall p :: p in x + y <==> p in x || p in y;
  }

  /** RestoreAssets succeeds for the root and for every name that stands for something, but for an asset only
      if the directory of its file is there or is created. */
  ghost predicate CanRestore(t: Tree, table: map<string, Content>, dirs: set<Path>, dir: Path, name: string) {
    name == "" || (Under(table, PathOf(name)) != {} && (IsDirectory(t, name) || Writable(dirs, dir, name)))
  }

  class Disk {
    var files: map<Path, Content>
    var dirs: set<Path>
    var written: seq<Path>

    /** RestoreAsset: write one asset below dir. */
    method RestoreAsset(table: map<string, Content>, dir: Path, name: string) returns (ok: bool)
      modifies this
      ensures ok <==> Canonical(name) in table && Writable(old(dirs), dir, name)
      ensures var path := dir + Split(Canonical(name));
              && files == (if ok then old(files)[path := table[Canonical(name)]] else old(files))
              && written == (if ok then old(written) + [path] else old(written))
      ensures dirs == if Canonical(name) in table then old(dirs) + WithParents(dir + DirOf(name)) else old(dirs)
    {
      match Asset(table, name) {
        case None => ok := false;
        case Some(data) =>
          dirs := dirs + WithParents(dir + DirOf(name));
          var path := dir + Split(Canonical(name));
          ok := Parent(path) in dirs;
          if ok {
            files, written := files[path := data], written + [path];
          }
      }
    }

    /** RestoreAssets: an asset by itself, a directory entry by entry. It writes exactly the assets at or
        below the name, each once. */
    method RestoreAssets(t: Tree, table: map<string, Content>, dir: Path, name: string) returns (ok: bool)
      requires Represents(t, table)
      modifies this
      ensures ok <==> CanRestore(t, table, old(dirs), dir, name)
      ensures Restored(table, dir, if ok then Under(table, PathOf(name)) else {},
                       old(files), old(written), files, written)
      ensures old(dirs) <= dirs
      ensures ok && (IsDirectory(t, name) || OrdinaryLast(name)) ==> Made(old(dirs), dirs, old(written), written)
      decreases Below(t, PathOf(name)), 2
    {
      var children := AssetDir(t, name);
      if children.None? {
        UnderNoDirectory(t, table, name);
        NothingRestored(table, dir, files, written);
        ghost var f, d, w := files, dirs, written;
        ok := RestoreAsset(table, dir, name);
        if ok {
          OneRestored(table, dir, Canonical(name), f, w);
          if OrdinaryLast(name) {
            MadeForOne(d, w, dir, name);
          }
        }
      } else {
        DirectoryHasNames(t, table, name);
        RestoreEntries(t, table, dir, name, children.value);
        ok := true;
      }
    }

    /** The loop over the entries of a directory, none of which can fail. */
    method RestoreEntries(t: Tree, table: map<string, Content>, dir: Path, name: string, entries: seq<string>)
      requires Represents(t, table) && IsDirectory(t, name) && NoDuplicates(entries)
      requires forall c :: c in entries <==> c in Walk(t, PathOf(name)).value.children
      modifies this
      ensures Restored(table, dir, Under(table, PathOf(name)), old(files), old(written), files, written)
      ensures old(dirs) <= dirs && Made(old(dirs), dirs, old(written), written)
      decreases Below(t, PathOf(name)), 1
    {
      ghost var path := PathOf(name);
      NoEntriesRestored(table, dir, path, entries, files, written);
      NothingMade(dirs, written);
      var i := 0;
      while i < |entries|
        invariant i <= |entries|
        invariant Restored(table, dir, UnderEntries(table, path, entries[..i]),
                           old(files), old(written), files, written)
        invariant old(dirs) <= dirs && Made(old(dirs), dirs, old(written), written)
      {
        OneMoreEntry(entries, i);
        RestoreEntry(t, table, dir, name, entries[..i], entries[i], old(files), old(dirs), old(written));
        i := i + 1;
      }
      UnderAllEntries(t, table, path, entries, i);
    }

    method RestoreEntry(t: Tree, table: map<string, Content>, dir: Path, name: string, ghost done: seq<string>,
                        entry: string, ghost f0: map<Path, Content>, ghost d0: set<Path>, ghost w0: seq<Path>)
      requires Represents(t, table) && IsDirectory(t, name)
      requires entry in Walk(t, PathOf(name)).value.children && entry !in done
      requires Restored(table, dir, UnderEntries(table, PathOf(name), done), f0, w0, files, written)
      requires Made(d0, dirs, w0, written)
      modifies this
      ensures Restored(table, dir, UnderEntries(table, PathOf(name), done + [entry]), f0, w0, files, written)
      ensures old(dirs) <= dirs && Made(d0, dirs, w0, written)
      decreases Below(t, PathOf(name)), 0
    {
      EntryIsSmaller(t, table, name, entry);
      ghost var path, f, d, w := PathOf(name), files, dirs, written;
      EntriesAreWritable(dirs, dir, name, entry);
      var ok := RestoreAssets(t, table, dir, PathJoin(name, entry));
      assert ok;
      NextEntry(table, path, done, entry);
      RestoredInTwo(table, dir, UnderEntries(table, path, done), Under(table, path + [entry]),
                    f0, w0, f, w, files, written);
      MadeInTwo(d0, d, dirs, w0, w, written);
    }
  }

  /** An entry of a directory stands for a smaller part of the tree, with some name in it. */
  lemma EntryIsSmaller(t: Tree, table: map<string, Content>, name: string, child: string)
    requires Represents(t, table) && IsDirectory(t, name)
    requires child in Walk(t, PathOf(name)).value.children
    ensures Segment(child) && PathOf(PathJoin(name, child)) == PathOf(name) + [child]
    ensures Below(t, PathOf(name) + [child]) == Below(t, PathOf(name)).children[child]
    ensures Under(table, PathOf(name) + [child]) != {}
  {
    var path := PathOf(name);
    ProperBelow(t, path);
    EntryPath(name, child);
    WalkOn(t, path, [child]);
    var key := NameAtOrBelow(t, table, path + [child]);
    assert key in Under(table, path + [child]);
  }

  /** A name without backslashes is restored exactly if it stands for something. */
  lemma OrdinaryNamesAreRestored(t: Tree, table: map<string, Content>, dirs: set<Path>, dir: Path, name: string)
    requires '\\' !in name
    ensures CanRestore(t, table, dirs, dir, name) <==> name == "" || Under(table, PathOf(name)) != {}
  {
    SplitHasNoMore(name);
    OrdinaryNamesAreWritable(dirs, dir, name);
  }

  /** An asset of a directory that is named with a backslash is written only if that directory is there. */
  lemma BackslashedNames(dirs: set<Path>, dir: Path, sub: string, file: string)
    requires Segment(sub) && Segment(file)
    ensures Split(Canonical(sub + "\\" + file)) == [sub, file]
    ensures Writable(dirs, dir, sub + "\\" + file) <==> dir + [sub] in dirs
  {
    var name := sub + "\\" + file;
    CanonicalSum(sub, "\\" + file);
    CanonicalSum("\\", file);
    assert name == sub + ("\\" + file);
    NoBackslash(sub);
    NoBackslash(file);
    assert Canonical("\\") == "/";
    assert sub + ("/" + file) == sub + "/" + file;
    SplitFirst(sub, file);
    SplitSegment(file);
    SplitSegment(name);
    assert Parent(dir + [sub, file]) == dir + [sub];
    assert forall p <- WithParents(dir) :: |p| <= |dir|;
    assert dir + DirOf(name) == dir;
  }

  lemma {:induction false} SplitHasNoMore(s: string)
    requires '\\' !in s
    ensures forall p <- Split(s) :: '\\' !in p
  {
    if s != "" {
      SplitHasNoMore(s[1..]);
    }
  }

  lemma DirectoryHasNames(t: Tree, table: map<string, Content>, name: string)
    requires Represents(t, table) && IsDirectory(t, name)
    ensures name == "" || Under(table, PathOf(name)) != {}
  {
    if name != "" {
      var key := NameBelow(t, table, PathOf(name));
      assert key in Under(table, PathOf(name));
    }
  }

  /** Asset names have no backslashes. */
  lemma NamesAreCanonical(t: Tree, table: map<string, Content>, key: string)
    requires Represents(t, table) && key in table
    ensures '\\' !in key && Canonical(key) == key
  {
    assert Listed(t, table, key);
    ProperBelow(t, Split(key));
    JoinSplit(key);
    NoBackslashInJoin(Split(key));
    NoBackslash(key);
  }

  lemma {:induction false} NoBackslashInJoin(parts: Path)
    requires |parts| >= 1 && forall p <- parts :: Segment(p)
    ensures '\\' !in Join(parts)
    decreases |parts|
  {
    assert Segment(parts[0]);
    if |parts| > 1 {
      NoBackslashInJoin(parts[1..]);
    }
  }

  /** From the root every asset is restored, to paths of their own, and reading a restored file back gives
      the asset. */
  lemma RestoredFilesAreAssets(t: Tree, table: map<string, Content>, dir: Path, key: string, other: string)
    requires Represents(t, table) && key in table && other in table
    ensures Under(table, PathOf("")) == table.Keys
    ensures dir + Split(key) == dir + Split(other) <==> key == other
    ensures dir + Split(key) in Files(table, dir, table.Keys)
    ensures Asset(table, key) == Some(Files(table, dir, table.Keys)[dir + Split(key)])
  {
    NamesAreCanonical(t, table, key);
    SplitIsInjective();
  }

  // ---------------------------------------------------------------- the embedded contracts

  function Leaf(content: Content): Tree { Tree(Some(content), map[]) }

  /** A root with these assets, and one directory with one more. */
  function TwoLevels(top: map<string, Content>, sub: string, file: string, content: Content): Tree {
    Tree(None, (map k | k in top :: Leaf(top[k]))[sub := Tree(None, map[file := Leaf(content)])])
  }

  function Flat(top: map<string, Content>, sub: string, file: string, content: Content): map<string, Content> {
    top[sub + "/" + file := content]
  }

  lemma LeafWalk(content: Content, path: Path, c: Content)
    ensures IsAsset(Leaf(content), path, c) <==> path == [] && c == content
  {
  }

  lemma OneFileWalk(file: string, content: Content, path: Path, c: Content)
    ensures IsAsset(Tree(None, map[file := Leaf(content)]), path, c) <==> path == [file] && c == content
  {
    if path != [] && path[0] == file {
      LeafWalk(content, path[1..], c);
      assert path == [file] + path[1..];
    }
  }

  /** The assets of such a tree. */
  lemma TwoLevelsWalk(top: map<string, Content>, sub: string, file: string, content: Content, path: Path, c: Content)
    requires sub !in top
    ensures IsAsset(TwoLevels(top, sub, file, content), path, c) <==>
              || (|path| == 1 && path[0] in top && c == top[path[0]])
              || (path == [sub, file] && c == content)
  {
    if path != [] {
      var rest := path[1..];
      assert path == [path[0]] + rest;
      if path[0] == sub {
        OneFileWalk(file, content, rest, c);
      } else if path[0] in top {
        LeafWalk(top[path[0]], rest, c);
      }
    }
  }

  lemma TwoLevelsProper(top: map<string, Content>, sub: string, file: string, content: Content)
    requires (forall k <- top :: Segment(k)) && Segment(sub) && Segment(file) && sub !in top
    ensures Proper(TwoLevels(top, sub, file, content))
  {
    var inner := Tree(None, map[file := Leaf(content)]);
    assert Proper(Leaf(content));
    assert file in inner.children && Proper(inner);
    forall k | k in top ensures Proper(Leaf(top[k])) {
    }
  }

  lemma TwoLevelsRepresent(top: map<string, Content>, sub: string, file: string, content: Content)
    requires (forall k <- top :: Segment(k)) && Segment(sub) && Segment(file) && sub !in top
    ensures Represents(TwoLevels(top, sub, file, content), Flat(top, sub, file, content))
  {
    var t, table, deep := TwoLevels(top, sub, file, content), Flat(top, sub, file, content), sub + "/" + file;
    TwoLevelsProper(top, sub, file, content);
    SplitFirst(sub, file);
    SplitSegment(file);
    assert deep !in top by {
      assert deep[|sub|] == '/';
    }
    forall key | key in table ensures Listed(t, table, key) {
      TwoLevelsWalk(top, sub, file, content, Split(key), table[key]);
      if key != deep {
        SplitSegment(key);
      }
    }
    forall path: Path, c | IsAsset(t, path, c) ensures Join(path) in table && table[Join(path)] == c {
      TwoLevelsWalk(top, sub, file, content, path, c);
      assert Join([sub, file]) == deep;
    }
  }

  /** The ten embedded contracts: nine at the root and one in a directory. */
  const FLOW_FEES := "FlowFees.cdc"
  const ID_TABLE := "FlowIDTableStaking.cdc"
  const ID_TABLE_OLD := "FlowIDTableStaking_old.cdc"
  const SERVICE_ACCOUNT := "FlowServiceAccount.cdc"
  const STAKING_COLLECTION := "FlowStakingCollection.cdc"
  const STORAGE_FEES := "FlowStorageFees.cdc"
  const FLOW_TOKEN := "FlowToken.cdc"
  const LOCKED_TOKENS := "LockedTokens.cdc"
  const STAKING_PROXY := "StakingProxy.cdc"
  const TEST_DIRECTORY := "testContracts"
  const TEST_ID_TABLE := "TestFlowIDTableStaking.cdc"

  function RootContracts(c: seq<Content>): map<string, Content>
    requires |c| == 10
  {
    map[FLOW_FEES := c[0],
        ID_TABLE := c[1],
        ID_TABLE_OLD := c[2],
        SERVICE_ACCOUNT := c[3],
        STAKING_COLLECTION := c[4],
        STORAGE_FEES := c[5],
        FLOW_TOKEN := c[6],
        LOCKED_TOKENS := c[7],
        STAKING_PROXY := c[8]]
  }

  /** A name that is a segment, and not the test directory's. */
  predicate RootName(name: string) { Segment(name) && name[0] != 't' }

  lemma FlowFeesName() ensures RootName(FLOW_FEES) {}
  lemma IDTableName() ensures RootName(ID_TABLE) {}
  lemma IDTableOldName() ensures RootName(ID_TABLE_OLD) {}
  lemma ServiceAccountName() ensures RootName(SERVICE_ACCOUNT) {}
  lemma StakingCollectionName() ensures RootName(STAKING_COLLECTION) {}
  lemma StorageFeesName() ensures RootName(STORAGE_FEES) {}
  lemma FlowTokenName() ensures RootName(FLOW_TOKEN) {}
  lemma LockedTokensName() ensures RootName(LOCKED_TOKENS) {}
  lemma StakingProxyName() ensures RootName(STAKING_PROXY) {}
  lemma TestNames() ensures Segment(TEST_DIRECTORY) && TEST_DIRECTORY[0] == 't' {}
  lemma TestFileName() ensures Segment(TEST_ID_TABLE) {}

  /** The embedded tree of contracts represents the embedded table of contracts. */
  lemma EmbeddedContracts(c: seq<Content>)
    requires |c| == 10
    ensures Represents(TwoLevels(RootContracts(c), TEST_DIRECTORY, TEST_ID_TABLE, c[9]),
                       Flat(RootContracts(c), TEST_DIRECTORY, TEST_ID_TABLE, c[9]))
  {
    TestNames();
    TestFileName();
    FlowFeesName();
    IDTableName();
    IDTableOldName();
    ServiceAccountName();
    StakingCollectionName();
    StorageFeesName();
    FlowTokenName();
    LockedTokensName();
    StakingProxyName();
    assert forall k <- RootContracts(c) :: RootName(k);
    TwoLevelsRepresent(RootContracts(c), TEST_DIRECTORY, TEST_ID_TABLE, c[9]);
  }
}
