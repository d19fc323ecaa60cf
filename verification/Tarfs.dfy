/** The index of a tar file: built while reading it, or rebuilt from its table of contents. */
module Tarfs {
  import opened Canonical
  import opened Links

  // Sorting by name

  /** Byte-wise comparison of names. */
  predicate Less(a: string, b: string)
    decreases |a|
  {
    b != "" && (a == "" || a[0] < b[0] || (a[0] == b[0] && Less(a[1..], b[1..])))
  }

  /** The first character in which two names differ decides, and of two names that do not, the shorter one comes
      first. */
  lemma {:induction false} LessFirstDiffers(a: string, b: string)
    ensures Less(a, b) <==>
            exists k :: 0 <= k <= |a| && k < |b| && a[..k] == b[..k] && (k == |a| || a[k] < b[k])
    decreases |a|
  {
    if a != "" && b != "" && a[0] == b[0] {
      LessFirstDiffers(a[1..], b[1..]);
      var p, q := a[1..], b[1..];
      if Less(p, q) {
        var k :| 0 <= k <= |p| && k < |q| && p[..k] == q[..k] && (k == |p| || p[k] < q[k]);
        assert a[..k + 1] == [a[0]] + p[..k] && b[..k + 1] == [b[0]] + q[..k];
      }
      if k :| 0 <= k <= |a| && k < |b| && a[..k] == b[..k] && (k == |a| || a[k] < b[k]) {
        assert p[..k - 1] == a[..k][1..] && q[..k - 1] == b[..k][1..];
      }
    } else if b != "" && (a == "" || a[0] < b[0]) {
      assert a[..0] == b[..0];
    } else if a != "" && b != "" {
      forall k | 0 < k <= |a| && k < |b| ensures a[..k] != b[..k] {
        assert a[..k][0] != b[..k][0];
      }
    }
  }

  lemma {:induction false} LessTrans(a: string, b: string, c: string)
    requires !Less(b, a) && !Less(c, b)
    ensures !Less(c, a)
    decreases |a|
  {
    if a != "" && b != "" && c != "" && a[0] == b[0] == c[0] {
      LessTrans(a[1..], b[1..], c[1..]);
    }
  }

  lemma {:induction false} LessAsym(a: string, b: string)
    requires Less(a, b)
    ensures !Less(b, a)
    decreases |a|
  {
    if a != "" && a[0] == b[0] {
      LessAsym(a[1..], b[1..]);
    }
  }

  ghost predicate SortedByName(s: seq<Entry>) {
    forall i, j | 0 <= i < j < |s| :: !Less(s[j].header.base, s[i].header.base)
  }

  /** A directory sorted by the names in it. */
  method SortByName(s: seq<Entry>) returns (r: seq<Entry>)
    ensures SortedByName(r) && multiset(r) == multiset(s)
  {
    r := [];
    for i := 0 to |s|
      invariant SortedByName(r) && multiset(r) == multiset(s[..i])
    {
      assert s[..i + 1] == s[..i] + [s[i]];
      r := InsertByName(r, s[i]);
    }
    assert s[..|s|] == s;
  }

  method InsertByName(s: seq<Entry>, x: Entry) returns (r: seq<Entry>)
    requires SortedByName(s)
    ensures SortedByName(r) && multiset(r) == multiset(s) + multiset{x}
  {
    var k := |s|;
    while 0 < k && Less(x.header.base, s[k - 1].header.base)
      invariant 0 <= k <= |s|
      invariant forall i | k <= i < |s| :: Less(x.header.base, s[i].header.base)
    {
      k := k - 1;
    }
    r := s[..k] + [x] + s[k..];
    assert s == s[..k] + s[k..];
    InsertedSorted(s, x, k, r);
  }

  lemma InsertedSorted(s: seq<Entry>, x: Entry, k: nat, r: seq<Entry>)
    requires SortedByName(s) && k <= |s| && r == s[..k] + [x] + s[k..]
    requires forall i | k <= i < |s| :: Less(x.header.base, s[i].header.base)
    requires 0 < k ==> !Less(x.header.base, s[k - 1].header.base)
    ensures SortedByName(r)
  {
    hide Less;
    forall i, j | 0 <= i < j < |r| ensures !Less(r[j].header.base, r[i].header.base) {
      if i == k {
        LessAsym(x.header.base, s[j - 1].header.base);
      } else if j == k {
        if i < k - 1 {
          assert !Less(s[k - 1].header.base, s[i].header.base);
        }
        NotBelowSelf(s[k - 1].header.base);
        LessTrans(r[i].header.base, s[k - 1].header.base, x.header.base);
      } else {
        var i', j' := if i < k then i else i - 1, if j < k then j else j - 1;
        assert r[i] == s[i'] && r[j] == s[j'] && i' < j';
      }
    }
  }

  lemma {:induction false} NotBelowSelf(a: string)
    ensures !Less(a, a)
  {
    if a != "" {
      NotBelowSelf(a[1..]);
    }
  }

  // What an index must be

  /** The entries of one directory, in the order of the file. */
  function InDir(files: seq<Entry>, dir: string): seq<Entry> {
    if files == [] then []
    else InDir(files[..|files| - 1], dir) + if files[|files| - 1].dir == dir then [files[|files| - 1]] else []
  }

  lemma {:induction false} InDirOnly(files: seq<Entry>, dir: string)
    ensures forall e | e in InDir(files, dir) :: e.dir == dir
  {
    if files != [] {
      InDirOnly(files[..|files| - 1], dir);
    }
  }

  /** Names lead to their last entries. */
  ghost predicate IndexOf(files: seq<Entry>, index: map<string, nat>) {
    && (forall name | name in index ::
          index[name] < |files| && files[index[name]].filename == name
          && forall j | index[name] < j < |files| :: files[j].filename != name)
    && (forall i | 0 <= i < |files| :: files[i].filename in index)
  }

  const SYNTHETIC: Entry := Entry(Header(".", Plain, "", 0, "."), 0, ".", ".")

  /** Entry i is the last one for the root itself. */
  ghost predicate LastRoot(files: seq<Entry>, i: nat)
    requires i < |files|
  {
    files[i].dir == "" && forall j | i < j < |files| :: files[j].dir != ""
  }

  /** The last entry for the root itself, or one made up. */
  ghost predicate RootOf(files: seq<Entry>, root: Entry) {
    || (root == SYNTHETIC && forall i | 0 <= i < |files| :: files[i].dir != "")
    || (exists i | 0 <= i < |files| :: files[i] == root && LastRoot(files, i))
  }

  /** Every entry is listed in its directory, as often as it occurs, and directories are sorted. */
  ghost predicate DirsOf(files: seq<Entry>, dirs: map<string, seq<Entry>>) {
    && (forall dir | dir in dirs :: multiset(dirs[dir]) == multiset(InDir(files, dir)) && SortedByName(dirs[dir]))
    && (forall dir :: dir in dirs <==> HasDir(files, dir))
  }

  ghost predicate HasDir(files: seq<Entry>, dir: string) {
    exists i | 0 <= i < |files| :: files[i].dir == dir
  }

  function DirOf(paths: Paths, normalized: string): string {
    var dir := paths.dir(normalized);
    if normalized == "." && dir == "." then "" else dir
  }

  /** The directories before they are sorted. */
  ghost predicate Lists(files: seq<Entry>, lists: map<string, seq<Entry>>) {
    && (forall dir | dir in lists :: lists[dir] == InDir(files, dir))
    && (forall dir :: dir in lists <==> HasDir(files, dir))
  }

  lemma NoDirs()
    ensures Lists([], map[])
  {
  }

  lemma NoEntries(dirs: map<string, seq<Entry>>)
    requires DirsOf([], dirs)
    ensures dirs == map[]
  {
    assert dirs.Keys == {};
  }

  lemma ListsMore(files: seq<Entry>, lists: map<string, seq<Entry>>, e: Entry)
    requires Lists(files, lists)
    ensures Lists(files + [e], lists[e.dir := (if e.dir in lists then lists[e.dir] else []) + [e]])
  {
    var files' := files + [e];
    assert files'[..|files|] == files;
    if e.dir !in lists {
      NotThere(files, e.dir);
    }
    forall dir ensures HasDir(files', dir) <==> dir == e.dir || HasDir(files, dir) {
      DirMore(files, e, dir);
    }
  }

  lemma DirMore(files: seq<Entry>, e: Entry, dir: string)
    ensures HasDir(files + [e], dir) <==> dir == e.dir || HasDir(files, dir)
  {
    var files' := files + [e];
    if dir == e.dir {
      assert files'[|files|].dir == dir;
    } else if HasDir(files, dir) {
      var i :| 0 <= i < |files| && files[i].dir == dir;
      assert files'[i].dir == dir;
    }
  }

  lemma {:induction false} NotThere(files: seq<Entry>, dir: string)
    requires !HasDir(files, dir)
    ensures InDir(files, dir) == []
  {
    if files != [] {
      NotThere(files[..|files| - 1], dir);
    }
  }

  class FS {
    const paths: Paths
    var files: seq<Entry>
    var index: map<string, nat>
    var dirs: map<string, seq<Entry>>
    var root: Entry

    ghost predicate Valid()
      reads this
    {
      IndexOf(files, index) && RootOf(files, root) && DirsOf(files, dirs)
    }

    constructor (paths: Paths)
      ensures this.paths == paths && Valid() && files == []
    {
      this.paths := paths;
      files, index, dirs, root := [], map[], map[], SYNTHETIC;
    }

    /** There is an entry for each header. */
    ghost predicate MadeFrom(headers: seq<(Header, int)>)
      reads this
    {
      && |files| == |headers|
      && forall i | 0 <= i < |files| ::
           files[i] == Entry(headers[i].0, headers[i].1, Normalize(headers[i].0.name),
                             DirOf(paths, Normalize(headers[i].0.name)))
    }

    /** Reads all headers, each with the position of its contents; `failed` if the file breaks off. */
    method New(headers: seq<(Header, int)>, failed: bool) returns (ok: bool)
      requires Valid() && files == []
      modifies this
      ensures ok == !failed
      ensures ok ==> Valid() && MadeFrom(headers)
    {
      hide IndexOf, RootOf, DirsOf, DirOf, Normalize;
      NoEntries(dirs);
      for i := 0 to |headers|
        invariant |files| == i && IndexOf(files, index) && RootOf(files, root) && dirs == map[]
        invariant forall j | 0 <= j < i ::
                    files[j] == Entry(headers[j].0, headers[j].1, Normalize(headers[j].0.name),
                                      DirOf(paths, Normalize(headers[j].0.name)))
      {
        var normalized := Normalize(headers[i].0.name);
        var entry := Entry(headers[i].0, headers[i].1, normalized, DirOf(paths, normalized));
        IndexMore(files, index, entry);
        RootMore(files, root, entry);
        index := index[normalized := |files|];
        files := files + [entry];
        if entry.dir == "" {
          root := entry;
        }
      }
      if failed {
        return false;
      }
      MakeDirs();
      return true;
    }

    /** Rebuilds the index from a table of contents, which has everything but the directories. */
    method Decode(toc: seq<Entry>)
      requires Valid() && files == []
      modifies this
      ensures Valid() && |files| == |toc|
      ensures forall i | 0 <= i < |files| :: files[i] == toc[i].(dir := DirOf(paths, toc[i].filename))
    {
      hide IndexOf, RootOf, DirsOf, DirOf;
      NoEntries(dirs);
      for i := 0 to |toc|
        invariant |files| == i && IndexOf(files, index) && RootOf(files, root) && dirs == map[]
        invariant forall j | 0 <= j < i :: files[j] == toc[j].(dir := DirOf(paths, toc[j].filename))
      {
        var e := toc[i].(dir := DirOf(paths, toc[i].filename));
        IndexMore(files, index, e);
        RootMore(files, root, e);
        files := files + [e];
        index := index[e.filename := i];
        if e.dir == "" {
          root := e;
        }
      }
      MakeDirs();
    }

    /** Lists every entry in its directory, and sorts the directories. */
    method MakeDirs()
      requires dirs == map[]
      modifies `dirs
      ensures DirsOf(files, dirs)
    {
      hide HasDir;
      var lists: map<string, seq<Entry>> := map[];
      NoDirs();
      for i := 0 to |files|
        invariant Lists(files[..i], lists)
      {
        assert files[..i + 1] == files[..i] + [files[i]];
        var e := files[i];
        var before := if e.dir in lists then lists[e.dir] else [];
        ListsMore(files[..i], lists, e);
        lists := lists[e.dir := before + [e]];
      }
      assert files[..|files|] == files;
      SortDirs(lists);
    }

    method SortDirs(lists: map<string, seq<Entry>>)
      requires Lists(files, lists)
      modifies `dirs
      ensures DirsOf(files, dirs)
    {
      hide HasDir, SortedByName, InDir;
      dirs := map[];
      var todo := lists.Keys;
      while todo != {}
        invariant todo <= lists.Keys && dirs.Keys == lists.Keys - todo
        invariant forall dir | dir in dirs :: multiset(dirs[dir]) == multiset(lists[dir]) && SortedByName(dirs[dir])
        decreases |todo|
      {
        var dir :| dir in todo;
        var sorted := SortByName(lists[dir]);
        dirs := dirs[dir := sorted];
        todo := todo - {dir};
      }
    }

    /** The entries by name, as links are followed through them. */
    function AsTable(): (t: Table)
      requires Valid()
      reads this
      ensures t.Valid()
    {
      Table(paths, files, index)
    }

    /** The last entry of a name is the one that is found. */
    lemma LookupIsLast(name: string, i: nat)
      requires Valid() && i < |files| && files[i].filename == name
      requires forall j | i < j < |files| :: files[j].filename != name
      ensures AsTable().Lookup(name) == Some(files[i])
    {
      hide RootOf, DirsOf;
      assert files[i].filename in index;
    }

    function Open(name: string): Opened
      requires Valid()
      reads this
    {
      if name == "." then Found(root) else Links.Open(AsTable(), name, 0)
    }

    /** However a name is written in a header, the last header of the name is what is found and, if it is no
        link, opened under it. */
    lemma HeaderOpens(headers: seq<(Header, int)>, i: nat, s: string)
      requires Valid() && MadeFrom(headers) && i < |headers| && Bare(s) && Writes(headers[i].0.name, s)
      requires forall j | i < j < |headers| :: Normalize(headers[j].0.name) != s
      ensures files[i].header == headers[i].0 && files[i].offset == headers[i].1
      ensures AsTable().Lookup(s) == Some(files[i])
      ensures s != "." && headers[i].0.kind.Plain? ==> Open(s) == Found(files[i])
    {
      hide Normalize, IndexOf, RootOf, DirsOf;
      Normalized(headers[i].0.name, s);
      LookupIsLast(s, i);
      if s != "." && headers[i].0.kind.Plain? {
        FileOpens(AsTable(), s, files[i], 0);
      }
    }

    /** The last header for the root, if there is one, is the root; it is not listed in itself. */
    lemma RootOpens(headers: seq<(Header, int)>, i: nat)
      requires Valid() && MadeFrom(headers) && i < |headers| && Writes(headers[i].0.name, ".")
      requires paths.dir(".") == "." && forall x :: paths.dir(x) != ""
      requires forall j | i < j < |headers| :: Normalize(headers[j].0.name) != "."
      ensures Open(".") == Found(files[i]) && files[i].header == headers[i].0
      ensures "." in dirs ==> files[i] !in dirs["."]
    {
      hide Normalize, IndexOf, SortedByName;
      Normalized(headers[i].0.name, ".");
      assert files[i].dir == "";
      forall j | i < j < |files| ensures files[j].dir != "" {
        assert files[j].filename != ".";
      }
      var k :| 0 <= k < |files| && files[k] == root && LastRoot(files, k);
      assert k == i;
      if "." in dirs {
        InDirOnly(files, ".");
        assert files[i] !in InDir(files, ".");
        assert files[i] !in multiset(dirs["."]);
      }
    }

    /** The root opens as itself, whatever its kind. Any other name opens as the file that at most 255
        rewriting steps lead to, which is an entry of the table and no link. */
    lemma OpensFile(name: string, e: Entry)
      requires Valid()
      ensures Open(name) == Found(e) <==>
              if name == "." then e == root
              else exists k :: 0 <= k <= MAX_HOPS && Chain(AsTable(), name, k) == Arrived(e)
      ensures name != "." && Open(name) == Found(e) ==> e in files && e.header.kind.Plain?
    {
      hide Links.Open, Chain;
      if name != "." {
        OpensIff(AsTable(), name, e);
        if Open(name) == Found(e) {
          var k :| 0 <= k <= MAX_HOPS && Chain(AsTable(), name, k) == Arrived(e);
          ArrivesAtFile(AsTable(), name, k);
        }
      }
    }

    function ReadDir(name: string): seq<Entry>
      reads this
    {
      if name in dirs then dirs[name] else []
    }
  }

  /** An open file. For a directory, the cursor is the position in its listing. */
  class File {
    const fsys: FS
    const entry: Entry
    var cursor: nat

    constructor (fsys: FS, entry: Entry)
      ensures this.fsys == fsys && this.entry == entry && cursor == 0
    {
      this.fsys, this.entry, cursor := fsys, entry, 0;
    }

    /** Lists the next n entries, or all that are left if n is negative; at the end, a positive n gets
        EOF. */
    method ReadDir(n: int) returns (ret: seq<Entry>, eof: bool)
      requires cursor <= |fsys.ReadDir(entry.filename)|
      modifies this
      ensures var dir := fsys.ReadDir(entry.filename);
              && old(cursor) <= cursor <= |dir| && ret == dir[old(cursor)..cursor]
              && (n == 0 ==> cursor == old(cursor))
              && (n < 0 ==> cursor == |dir|)
              && (n > 0 ==> cursor - old(cursor) == if n < |dir| - old(cursor) then n else |dir| - old(cursor))
              && (eof <==> n > 0 && old(cursor) == |dir|)
    {
      if n == 0 {
        return [], false;
      }
      var dir := fsys.ReadDir(entry.filename);
      if cursor >= |dir| {
        return [], n > 0;
      }
      eof := false;
      if n > 0 && |dir| - cursor > n {
        ret := dir[cursor..cursor + n];
        cursor := cursor + n;
        return;
      }
      ret := dir[cursor..];
      cursor := |dir|;
    }
  }

  function Total(sizes: seq<nat>): nat {
    if sizes == [] then 0 else sizes[0] + Total(sizes[1..])
  }

  /** Listing a directory piece by piece, with any positive counts, lists its entries in order, each as
      often as it occurs; EOF comes with the first call after the last entry. */
  method ListAll(f: File, sizes: seq<nat>) returns (all: seq<Entry>, eof: bool)
    requires f.cursor == 0 && forall i | 0 <= i < |sizes| :: 0 < sizes[i]
    modifies f
    ensures var dir := f.fsys.ReadDir(f.entry.filename);
            all == if Total(sizes) < |dir| then dir[..Total(sizes)] else dir
    ensures eof <==> exists i | 0 <= i < |sizes| :: |f.fsys.ReadDir(f.entry.filename)| <= Total(sizes[..i])
  {
    all, eof := [], false;
    ghost var dir := f.fsys.ReadDir(f.entry.filename);
    var i := 0;
    while i < |sizes| && !eof
      invariant i <= |sizes| && f.cursor <= |dir| && dir == f.fsys.ReadDir(f.entry.filename)
      invariant f.cursor == (if Total(sizes[..i]) < |dir| then Total(sizes[..i]) else |dir|) && all == dir[..f.cursor]
      invariant eof ==> 0 < i && |dir| <= Total(sizes[..i - 1])
      invariant !eof ==> forall k | 0 <= k < i :: Total(sizes[..k]) < |dir|
    {
      TotalSnoc(sizes[..i], sizes[i]);
      assert sizes[..i] + [sizes[i]] == sizes[..i + 1];
      var piece;
      piece, eof := f.ReadDir(sizes[i]);
      all := all + piece;
      i := i + 1;
    }
    TotalSplit(sizes, i);
    if eof {
      TotalSplit(sizes, i - 1);
    }
    assert !eof ==> sizes[..i] == sizes;
    assert dir[..|dir|] == dir;
  }

  lemma {:induction false} TotalSnoc(sizes: seq<nat>, n: nat)
    ensures Total(sizes + [n]) == Total(sizes) + n
  {
    if sizes != [] {
      TotalSnoc(sizes[1..], n);
      assert (sizes + [n])[1..] == sizes[1..] + [n];
    }
  }

  lemma {:induction false} TotalSplit(sizes: seq<nat>, i: nat)
    requires i <= |sizes|
    ensures Total(sizes) == Total(sizes[..i]) + Total(sizes[i..])
  {
    if i > 0 {
      TotalSplit(sizes[1..], i - 1);
      assert sizes[1..][..i - 1] == sizes[..i][1..] && sizes[1..][i - 1..] == sizes[i..];
    } else {
      assert sizes[..0] == [] && sizes[0..] == sizes;
    }
  }

  // The index is determined by the entries

  lemma IndexUnique(files: seq<Entry>, a: map<string, nat>, b: map<string, nat>)
    requires IndexOf(files, a) && IndexOf(files, b)
    ensures a == b
  {
    forall name | name in a ensures name in b && a[name] == b[name] {
      assert files[a[name]].filename in b;
    }
    forall name | name in b ensures name in a {
      assert files[b[name]].filename in a;
    }
  }

  lemma RootUnique(files: seq<Entry>, a: Entry, b: Entry)
    requires RootOf(files, a) && RootOf(files, b)
    ensures a == b
  {
  }

  lemma DirsAgree(files: seq<Entry>, a: map<string, seq<Entry>>, b: map<string, seq<Entry>>)
    requires DirsOf(files, a) && DirsOf(files, b)
    ensures a.Keys == b.Keys && forall dir | dir in a :: multiset(a[dir]) == multiset(b[dir]) && SortedByName(b[dir])
  {
    hide HasDir, SortedByName, InDir;
  }

  /** A rebuilt file system is the one the table of contents was made from: the same entries, the same
      index and root, and the same sorted directories, up to the order of entries with equal names. */
  method Rebuild(a: FS, toc: seq<Entry>) returns (b: FS)
    requires a.Valid() && |toc| == |a.files|
    requires forall i | 0 <= i < |toc| :: a.files[i].dir == DirOf(a.paths, a.files[i].filename)
    requires forall i | 0 <= i < |toc| :: toc[i].(dir := a.files[i].dir) == a.files[i]
    ensures fresh(b) && b.Valid() && b.files == a.files && b.index == a.index && b.root == a.root
    ensures b.dirs.Keys == a.dirs.Keys
    ensures forall dir | dir in b.dirs :: multiset(b.dirs[dir]) == multiset(a.dirs[dir]) && SortedByName(b.dirs[dir])
  {
    hide IndexOf, RootOf, DirsOf, DirOf, SortedByName;
    b := new FS(a.paths);
    b.Decode(toc);
    assert b.files == a.files;
    IndexUnique(a.files, a.index, b.index);
    RootUnique(a.files, a.root, b.root);
    DirsAgree(a.files, a.dirs, b.dirs);
  }

  lemma {:induction false} InDirCount(files: seq<Entry>, dir: string, e: Entry)
    ensures multiset(InDir(files, dir))[e] == if e.dir == dir then multiset(files)[e] else 0
  {
    if files != [] {
      InDirCount(files[..|files| - 1], dir, e);
      assert files == files[..|files| - 1] + [files[|files| - 1]];
    }
  }

  /** The directories partition the entries. */
  lemma DirsPartition(files: seq<Entry>, dirs: map<string, seq<Entry>>, e: Entry, dir: string)
    requires DirsOf(files, dirs) && dir in dirs
    ensures multiset(dirs[dir])[e] == if e.dir == dir then multiset(files)[e] else 0
    ensures e in files ==> e.dir in dirs
  {
    InDirCount(files, dir, e);
  }

  lemma IndexMore(files: seq<Entry>, index: map<string, nat>, e: Entry)
    requires IndexOf(files, index)
    ensures IndexOf(files + [e], index[e.filename := |files|])
  {
  }

  lemma RootMore(files: seq<Entry>, root: Entry, e: Entry)
    requires RootOf(files, root)
    ensures RootOf(files + [e], if e.dir == "" then e else root)
  {
    var files' := files + [e];
    if e.dir == "" {
      assert files'[|files|] == e;
    } else if exists i | 0 <= i < |files| :: files[i] == root && LastRoot(files, i) {
      var i :| 0 <= i < |files| && files[i] == root && LastRoot(files, i);
      assert files'[i] == root;
    }
  }
}
