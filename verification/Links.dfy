/** Opening a name in a tar file system: symbolic links, hard links and linked directories are
    followed, up to a number of hops. */
module Links {
  import opened Canonical

  datatype Kind = Symlink | HardLink | Plain

  /** A tar header: what is used of it, and the base name its FileInfo gives. */
  datatype Header = Header(name: string, kind: Kind, linkname: string, size: nat, base: string)

  datatype Entry = Entry(header: Header, offset: int, filename: string, dir: string)

  /** Library functions on paths. */
  datatype Paths = Paths(dir: string -> string, join: seq<string> -> string)

  /** An entry table with its index by name. */
  datatype Table = Table(paths: Paths, files: seq<Entry>, index: map<string, nat>) {
    ghost predicate Valid() {
      forall name | name in index :: index[name] < |files|
    }

    function Lookup(name: string): Option<Entry>
      requires Valid()
    {
      if name in index then Some(files[index[name]]) else None
    }
  }

  function TrimPrefix(s: string, p: string): string {
    if p <= s then s[|p|..] else s
  }

  function TrimSuffix(s: string, p: string): string {
    if |p| <= |s| && s[|s| - |p|..] == p then s[..|s| - |p|] else s
  }

  function Normalize(s: string): string {
    TrimPrefix(TrimPrefix(TrimSuffix(s, "/"), "/"), "./")
  }

  /** A name as entries are listed under it. */
  predicate Bare(s: string) {
    s != "" && !("/" <= s) && !("./" <= s) && s[|s| - 1] != '/'
  }

  /** The ways to write such a name in a header or as the target of a link. */
  predicate Writes(x: string, s: string) {
    x == s || x == s + "/" || x == "/" + s || x == "/" + s + "/" || x == "./" + s || x == "./" + s + "/"
  }

  lemma SuffixTrimmed(s: string)
    requires s != "" && s[|s| - 1] != '/'
    ensures TrimSuffix(s + "/", "/") == s && TrimSuffix(s, "/") == s
  {
    assert (s + "/")[|s|..] == "/";
    assert s[|s| - 1..][0] != '/';
  }

  lemma PrefixTrimmed(p: string, s: string)
    ensures TrimPrefix(p + s, p) == s
  {
  }

  /** However a name is written, it is listed under the name itself. */
  lemma Normalized(x: string, s: string)
    requires Bare(s) && Writes(x, s)
    ensures Normalize(x) == s
  {
    hide TrimSuffix;
    var y := if x == s || x == s + "/" then s else if x == "/" + s || x == "/" + s + "/" then "/" + s else "./" + s;
    SuffixTrimmed(y);
    assert "/" + s + "/" == "/" + (s + "/") && "./" + s + "/" == "./" + (s + "/");
    PrefixTrimmed("/", s);
    PrefixTrimmed("./", s);
    assert TrimSuffix(x, "/") == y;
  }

  predicate IsAbs(s: string) {
    0 < |s| && s[0] == '/'
  }

  /** The first prefix of name that ends before a slash, from position i on, and is a symbolic link. */
  function LinkedDir(t: Table, name: string, i: nat): (r: Option<nat>)
    requires t.Valid() && i <= |name|
    ensures r.Some? ==> r.value < |name| && t.Lookup(name[..r.value]).Some?
    decreases |name| - i
  {
    if i == |name| then None
    else if name[i] == '/' && t.Lookup(name[..i]).Some? && t.Lookup(name[..i]).value.header.kind.Symlink? then Some(i)
    else LinkedDir(t, name, i + 1)
  }

  const MAX_HOPS: nat := 255

  datatype Opened = Found(e: Entry) | NotExist | TooManyHops

  /** Opens a name after some hops. */
  function Open(t: Table, name: string, hops: nat): Opened
    requires t.Valid()
    decreases if hops <= MAX_HOPS then MAX_HOPS + 1 - hops else 0
  {
    if hops > MAX_HOPS then TooManyHops
    else
      match t.Lookup(name)
      case None =>
        (match LinkedDir(t, name, 0)
         case None => NotExist
         case Some(i) =>
           var e, rest := t.Lookup(name[..i]).value, name[i..];
           var link := e.header.linkname;
           if IsAbs(link) then Open(t, Normalize(t.paths.join([link, rest])), hops + 1)
           else Open(t, t.paths.join([e.dir, link, rest]), hops + 1))
      case Some(e) =>
        var link := e.header.linkname;
        match e.header.kind
        case HardLink => Open(t, Normalize(link), hops + 1)
        case Symlink =>
          if IsAbs(link) then Open(t, Normalize(link), hops + 1)
          else Open(t, t.paths.join([e.dir, link]), hops + 1)
        case Plain => Found(e)
  }

  // The same without a limit: one rewriting step at a time

  datatype Rewritten = Arrived(e: Entry) | Missing | Onward(name: string)

  /** Where a link leads from the directory `dir`, with what follows it in the name. */
  function Target(t: Table, dir: string, e: Header, rest: seq<string>): string {
    var absolute := IsAbs(e.linkname) || e.kind.HardLink?;
    if !absolute then t.paths.join([dir, e.linkname] + rest)
    else if rest == [] then Normalize(e.linkname)
    else Normalize(t.paths.join([e.linkname] + rest))
  }

  function Rewrite(t: Table, name: string): Rewritten
    requires t.Valid()
  {
    match t.Lookup(name)
    case Some(e) => if e.header.kind.Plain? then Arrived(e) else Onward(Target(t, e.dir, e.header, []))
    case None =>
      match LinkedDir(t, name, 0)
      case None => Missing
      case Some(i) =>
        var e := t.Lookup(name[..i]).value;
        Onward(Target(t, e.dir, e.header, [name[i..]]))
  }

  /** What the first k rewriting steps come to. */
  function Chain(t: Table, name: string, k: nat): Rewritten
    requires t.Valid()
  {
    if k == 0 then Rewrite(t, name)
    else
      match Chain(t, name, k - 1)
      case Onward(next) => Rewrite(t, next)
      case r => r
  }

  /** The prefix found is the shortest one that is a symbolic link, and none is found if there is none. */
  lemma LinkedDirFirst(t: Table, name: string, i: nat)
    requires t.Valid() && i <= |name|
    ensures var r := LinkedDir(t, name, i);
            forall k | i <= k < (if r.Some? then r.value else |name|) && name[k] == '/' ::
              t.Lookup(name[..k]).None? || !t.Lookup(name[..k]).value.header.kind.Symlink?
    ensures var r := LinkedDir(t, name, i);
            r.Some? ==> i <= r.value && name[r.value] == '/' && t.Lookup(name[..r.value]).value.header.kind.Symlink?
    decreases |name| - i
  {
    if i < |name| {
      LinkedDirFirst(t, name, i + 1);
    }
  }

  lemma LinkedDirIsLink(t: Table, name: string, i: nat)
    requires t.Valid() && i <= |name|
    ensures var r := LinkedDir(t, name, i);
            r.Some? ==> t.Lookup(name[..r.value]).value.header.kind.Symlink?
    decreases |name| - i
  {
  }

  /** Opening is one rewriting step, and opening what it leads to. */
  lemma OpenStep(t: Table, name: string, hops: nat)
    requires t.Valid() && hops <= MAX_HOPS
    ensures Open(t, name, hops) == match Rewrite(t, name)
                                   case Arrived(e) => Found(e)
                                   case Missing => NotExist
                                   case Onward(next) => Open(t, next, hops + 1)
  {
    LinkedDirIsLink(t, name, 0);
    if t.Lookup(name).Some? {
      assert [t.Lookup(name).value.dir, t.Lookup(name).value.header.linkname] + []
          == [t.Lookup(name).value.dir, t.Lookup(name).value.header.linkname];
    } else if LinkedDir(t, name, 0).Some? {
      var i := LinkedDir(t, name, 0).value;
      var e := t.Lookup(name[..i]).value;
      assert [e.header.linkname] + [name[i..]] == [e.header.linkname, name[i..]];
      assert [e.dir, e.header.linkname] + [name[i..]] == [e.dir, e.header.linkname, name[i..]];
    }
  }

  lemma {:induction false} ChainShift(t: Table, name: string, next: string, k: nat)
    requires t.Valid() && Rewrite(t, name) == Onward(next)
    ensures Chain(t, name, k + 1) == Chain(t, next, k)
  {
    hide Rewrite;
    if k > 0 {
      ChainShift(t, name, next, k - 1);
    }
  }

  lemma {:induction false} ChainStays(t: Table, name: string, k: nat)
    requires t.Valid() && !Rewrite(t, name).Onward?
    ensures Chain(t, name, k) == Rewrite(t, name)
  {
    if k > 0 {
      ChainStays(t, name, k - 1);
    }
  }

  /** Opening a name comes to what the chain of rewriting steps comes to with the hops that are left;
      if it has not arrived anywhere by then, there were too many. Cycles are no exception. */
  lemma {:induction false} OpenIsChain(t: Table, name: string, hops: nat)
    requires t.Valid() && hops <= MAX_HOPS
    ensures Open(t, name, hops) == match Chain(t, name, MAX_HOPS - hops)
                                   case Arrived(e) => Found(e)
                                   case Missing => NotExist
                                   case Onward(_) => TooManyHops
    decreases MAX_HOPS - hops
  {
    hide Open, Rewrite;
    OpenStep(t, name, hops);
    match Rewrite(t, name)
    case Onward(next) =>
      if hops < MAX_HOPS {
        OpenIsChain(t, next, hops + 1);
        ChainShift(t, name, next, MAX_HOPS - hops - 1);
      } else {
        OpenTooFar(t, next);
      }
    case _ =>
      ChainStays(t, name, MAX_HOPS - hops);
  }

  lemma OpenTooFar(t: Table, name: string)
    requires t.Valid()
    ensures Open(t, name, MAX_HOPS + 1) == TooManyHops
  {
  }

  /** A name opens as e exactly if 255 rewriting steps or fewer lead from it to e, which is no link. */
  lemma OpensIff(t: Table, name: string, e: Entry)
    requires t.Valid()
    ensures Open(t, name, 0) == Found(e) <==> exists k :: 0 <= k <= 255 && Chain(t, name, k) == Arrived(e)
  {
    hide Open, Rewrite, Chain;
    OpenIsChain(t, name, 0);
    forall k | 0 <= k <= MAX_HOPS && Chain(t, name, k) == Arrived(e)
      ensures Chain(t, name, MAX_HOPS) == Arrived(e)
    {
      ChainKeeps(t, name, k, MAX_HOPS);
    }
  }

  /** Once it has arrived, the chain stays where it is. */
  lemma {:induction false} ChainKeeps(t: Table, name: string, j: nat, k: nat)
    requires t.Valid() && j <= k && !Chain(t, name, j).Onward?
    ensures Chain(t, name, k) == Chain(t, name, j)
    decreases k
  {
    if j < k {
      ChainKeeps(t, name, j, k - 1);
    }
  }

  /** What is found is an entry of the table, and no link. */
  lemma {:induction false} ArrivesAtFile(t: Table, name: string, k: nat)
    requires t.Valid() && Chain(t, name, k).Arrived?
    ensures Chain(t, name, k).e in t.files && Chain(t, name, k).e.header.kind.Plain?
  {
    hide LinkedDir, Target;
    if k > 0 && !Chain(t, name, k - 1).Onward? {
      ArrivesAtFile(t, name, k - 1);
    }
  }

  // Single links

  /** A name that is listed as a file opens as it. */
  lemma FileOpens(t: Table, name: string, f: Entry, hops: nat)
    requires t.Valid() && hops <= MAX_HOPS && t.Lookup(name) == Some(f) && f.header.kind.Plain?
    ensures Open(t, name, hops) == Found(f)
  {
  }

  /** A relative symbolic link leads on from the directory it is in. */
  lemma RelativeLinkOpens(t: Table, name: string, e: Entry, f: Entry)
    requires t.Valid() && t.Lookup(name) == Some(e) && e.header.kind.Symlink? && !("/" <= e.header.linkname)
    requires t.Lookup(t.paths.join([e.dir, e.header.linkname])) == Some(f) && f.header.kind.Plain?
    ensures Open(t, name, 0) == Found(f)
  {
    hide Normalize, LinkedDir;
    FileOpens(t, t.paths.join([e.dir, e.header.linkname]), f, 1);
  }

  /** An absolute symbolic link leads to the name behind the slash. */
  lemma AbsoluteLinkOpens(t: Table, name: string, e: Entry, s: string, f: Entry)
    requires t.Valid() && t.Lookup(name) == Some(e) && e.header.kind.Symlink?
    requires Bare(s) && e.header.linkname == "/" + s && t.Lookup(s) == Some(f) && f.header.kind.Plain?
    ensures Open(t, name, 0) == Found(f)
  {
    hide Normalize, LinkedDir, Bare;
    Normalized("/" + s, s);
    FileOpens(t, s, f, 1);
  }

  /** A hard link leads to the name it gives, from the root, however that is written. */
  lemma HardLinkOpens(t: Table, name: string, e: Entry, s: string, f: Entry)
    requires t.Valid() && t.Lookup(name) == Some(e) && e.header.kind.HardLink?
    requires Bare(s) && Writes(e.header.linkname, s) && t.Lookup(s) == Some(f) && f.header.kind.Plain?
    ensures Open(t, name, 0) == Found(f)
  {
    hide Normalize, LinkedDir, Bare, Writes, IsAbs;
    Normalized(e.header.linkname, s);
    FileOpens(t, s, f, 1);
  }

  /** A name that is not listed, below a directory that is a relative symbolic link and the first one on the
      way, leads to what follows in the directory linked to. */
  lemma LinkedDirOpens(t: Table, name: string, k: nat, f: Entry)
    requires t.Valid() && t.Lookup(name) == None && k < |name| && name[k] == '/'
    requires t.Lookup(name[..k]).Some? && t.Lookup(name[..k]).value.header.kind.Symlink?
    requires forall j | 0 <= j < k && name[j] == '/' ::
               t.Lookup(name[..j]).None? || !t.Lookup(name[..j]).value.header.kind.Symlink?
    requires var e := t.Lookup(name[..k]).value;
             && !("/" <= e.header.linkname)
             && t.Lookup(t.paths.join([e.dir, e.header.linkname, name[k..]])) == Some(f) && f.header.kind.Plain?
    ensures Open(t, name, 0) == Found(f)
  {
    hide Normalize, LinkedDir;
    LinkedDirFirst(t, name, 0);
    var e := t.Lookup(name[..k]).value;
    FileOpens(t, t.paths.join([e.dir, e.header.linkname, name[k..]]), f, 1);
  }

  /** How many hops have been made does not change what is found. */
  lemma HopsDoNotMatter(t: Table, name: string, i: nat, j: nat)
    requires t.Valid() && i <= j <= MAX_HOPS && Open(t, name, j) != TooManyHops
    ensures Open(t, name, i) == Open(t, name, j)
  {
    hide Open, Rewrite, Chain;
    OpenIsChain(t, name, i);
    OpenIsChain(t, name, j);
    ChainKeeps(t, name, MAX_HOPS - j, MAX_HOPS - i);
  }

  lemma {:induction false} CycleGoesOn(t: Table, name: string, period: nat, k: nat)
    requires t.Valid() && 0 < period && Chain(t, name, period - 1) == Onward(name)
    ensures Chain(t, name, k).Onward?
    decreases k
  {
    hide Rewrite, Chain;
    if k < period {
      if !Chain(t, name, k).Onward? {
        ChainKeeps(t, name, k, period - 1);
      }
    } else {
      CycleGoesOn(t, name, period, k - period);
      ChainAgain(t, name, period, k - period);
    }
  }

  lemma {:induction false} ChainAgain(t: Table, name: string, period: nat, k: nat)
    requires t.Valid() && 0 < period && Chain(t, name, period - 1) == Onward(name)
    ensures Chain(t, name, period + k) == Chain(t, name, k)
  {
    hide Rewrite;
    if k > 0 {
      ChainAgain(t, name, period, k - 1);
    }
  }

  /** A chain that comes back to where it was never arrives: such a name does not open. */
  lemma CyclesNeverOpen(t: Table, name: string, period: nat)
    requires t.Valid() && 0 < period && Chain(t, name, period - 1) == Onward(name)
    ensures Open(t, name, 0) == TooManyHops
  {
    hide Open, Chain;
    CycleGoesOn(t, name, period, MAX_HOPS);
    OpenIsChain(t, name, 0);
  }
}
