/** The icon memo table of the launcher's icon module: a per-key state
    machine (absent, pending, resolved) in front of a worker that looks icons
    up, and the fallback chain that turns an icon request into an icon. The
    worker thread and its channels are not modelled; a send on the command
    channel is recorded as the key it carries. */
module Icon {
  import opened Wrappers
  import opened Text

  /** An RGBA image; the pixel buffer is kept as opaque data. */
  datatype Icon = Icon(width: nat, height: nat, bytes: seq<int>)

  /** What an icon is wanted for: a URL, whose protocol picks the icon, or
      a file path. */
  datatype IconType = Url(url: string) | File(path: string)

  // ------------------------------------------------------ path components

  /** One component of a Unix path, as `Path::components` yields it. */
  datatype Component = RootDir | CurDir | ParentDir | Normal(name: string)

  /** A name that stands for itself as a component: not empty, not `.` or
      `..`, and without a separator. */
  predicate ValidName(n: string) {
    n != "" && n != "." && n != ".." && '/' !in n
  }

  /** The shape `Path::components` always produces: the root or the current
      directory can only come first, and every other component is `..` or a
      valid name. */
  predicate Canonical(cs: seq<Component>) {
    forall i :: 0 <= i < |cs| ==>
      (cs[i].Normal? ==> ValidName(cs[i].name))
      && (i > 0 ==> cs[i].ParentDir? || cs[i].Normal?)
  }

  /** The pieces between separators as components: an empty piece (a run
      of separators, or a trailing one) and a `.` piece vanish, `..` is the
      parent directory, and anything else is a name. */
  function Named(pieces: seq<string>): (r: seq<Component>)
    ensures forall i :: 0 <= i < |r| ==>
              r[i].ParentDir? || (r[i].Normal? && r[i].name != "" && r[i].name != "." && r[i].name != "..")
    decreases |pieces|
  {
    if |pieces| == 0 then []
    else
      var head :=
        if pieces[0] == "" || pieces[0] == "." then []
        else if pieces[0] == ".." then [ParentDir]
        else [Normal(pieces[0])];
      head + Named(pieces[1..])
  }

  /** The components of a path, given whether it starts at the root and
      the pieces between its separators. */
  function Assemble(rooted: bool, pieces: seq<string>): seq<Component>
    requires |pieces| >= 1
  {
    (if rooted then [RootDir] else [])
    + (if !rooted && pieces[0] == "." then [CurDir] else [])
    + Named(pieces)
  }

  /** `Path::components` on a Unix path: a leading separator is the root
      directory; a relative path whose first piece is `.` starts with the
      current directory; the pieces then follow as `Named` reads them. */
  function Components(p: string): (r: seq<Component>)
    ensures Canonical(r)
    ensures (|r| > 0 && r[0].RootDir?) <==> (|p| > 0 && p[0] == '/')
  {
    SplitHasNoSeparator(p);
    NamedHasNoSeparator(Split(p, "/"));
    Assemble(|p| > 0 && p[0] == '/', Split(p, "/"))
  }

  /** No piece of a split at `/` contains `/`. */
  lemma {:induction false} SplitHasNoSeparator(s: string)
    ensures forall j :: 0 <= j < |Split(s, "/")| ==> '/' !in Split(s, "/")[j]
    decreases |s|
  {
    if "/" <= s {
      SplitHasNoSeparator(s[1..]);
    } else if |s| > 0 {
      SplitHasNoSeparator(s[1..]);
      var rest := Split(s[1..], "/");
      assert [s[0]] == s[..1];
      assert Split(s, "/") == [[s[0]] + rest[0]] + rest[1..];
    }
  }

  /** Names read from separator-free pieces hold no separator. */
  lemma {:induction false} NamedHasNoSeparator(pieces: seq<string>)
    requires forall j :: 0 <= j < |pieces| ==> '/' !in pieces[j]
    ensures forall i :: 0 <= i < |Named(pieces)| && Named(pieces)[i].Normal? ==>
              '/' !in Named(pieces)[i].name
    decreases |pieces|
  {
    if |pieces| > 0 {
      NamedHasNoSeparator(pieces[1..]);
    }
  }

  /** Splitting at a separator splits the two sides independently. */
  lemma {:induction false} SplitAround(x: string, y: string)
    ensures Split(x + "/" + y, "/") == Split(x, "/") + Split(y, "/")
    decreases |x|
  {
    var s := x + "/" + y;
    if |x| == 0 {
      assert s[1..] == y;
    } else if x[0] == '/' {
      assert s[1..] == x[1..] + "/" + y;
      SplitAround(x[1..], y);
    } else {
      assert s[1..] == x[1..] + "/" + y;
      assert [s[0]] == s[..1] && [x[0]] == x[..1];
      SplitAround(x[1..], y);
    }
  }

  /** A separator-free string is one piece. */
  lemma OnePiece(x: string)
    requires '/' !in x
    ensures Split(x, "/") == [x]
  {
    NoCharNoContains(x, "/");
    SplitAbsent(x, "/");
  }

  /** Pieces that hold no separator come back from their join. */
  lemma {:induction false} SplitJoin(ps: seq<string>)
    requires |ps| >= 1 && forall j :: 0 <= j < |ps| ==> '/' !in ps[j]
    ensures Split(Join(ps, "/"), "/") == ps
    decreases |ps|
  {
    OnePiece(ps[0]);
    if |ps| > 1 {
      SplitJoin(ps[1..]);
      SplitAround(ps[0], Join(ps[1..], "/"));
      assert ps == [ps[0]] + ps[1..];
    }
  }

  lemma {:induction false} NamedAppend(a: seq<string>, b: seq<string>)
    ensures Named(a + b) == Named(a) + Named(b)
    decreases |a|
  {
    if |a| > 0 {
      assert (a + b)[0] == a[0];
      assert (a + b)[1..] == a[1..] + b;
      NamedAppend(a[1..], b);
    } else {
      assert a + b == b;
    }
  }

  /** An empty or `.` piece contributes no component. */
  lemma NamedSkips(x: string, rest: seq<string>)
    requires x == "" || x == "."
    ensures Named([x] + rest) == Named(rest)
  {
    assert ([x] + rest)[1..] == rest;
  }

  /** Inserting a piece that contributes nothing between the pieces of
      `a` and `b` leaves the components of `a/b` as they were. */
  lemma InsertedPiece(a: string, b: string, x: string, p: string)
    requires x == "" || x == "."
    requires Split(p, "/") == Split(a, "/") + ([x] + Split(b, "/"))
    requires (|p| > 0 && p[0] == '/') <==> (|a + "/" + b| > 0 && (a + "/" + b)[0] == '/')
    ensures Components(p) == Components(a + "/" + b)
  {
    var sa, sb := Split(a, "/"), Split(b, "/");
    SplitAround(a, b);
    NamedAppend(sa, [x] + sb);
    NamedSkips(x, sb);
    NamedAppend(sa, sb);
    assert (sa + ([x] + sb))[0] == sa[0] == (sa + sb)[0];
  }

  /** A run of separators reads as one separator. */
  lemma DoubledSeparator(a: string, b: string)
    ensures Components(a + "//" + b) == Components(a + "/" + b)
  {
    var empty: string := [];
    SplitAround(a, "/" + b);
    SplitAround(empty, b);
    assert empty + "/" + b == "/" + b;
    assert Split(empty, "/") == [empty];
    assert a + "//" + b == a + "/" + ("/" + b);
    if |a| > 0 {
      assert (a + "//" + b)[0] == a[0] == (a + "/" + b)[0];
    }
    InsertedPiece(a, b, empty, a + "//" + b);
  }

  /** A `.` between separators is skipped. */
  lemma CurrentDirInside(a: string, b: string)
    ensures Components(a + "/./" + b) == Components(a + "/" + b)
  {
    var dot: string := ".";
    SplitAround(a, "./" + b);
    SplitAround(dot, b);
    assert dot + "/" + b == "./" + b;
    OnePiece(dot);
    assert a + "/./" + b == a + "/" + ("./" + b);
    if |a| > 0 {
      assert (a + "/./" + b)[0] == a[0] == (a + "/" + b)[0];
    }
    InsertedPiece(a, b, dot, a + "/./" + b);
  }

  /** A trailing separator after a non-empty path is ignored. */
  lemma TrailingSeparator(a: string)
    requires |a| > 0
    ensures Components(a + "/") == Components(a)
  {
    var empty: string := [];
    var sa := Split(a, "/");
    SplitAround(a, empty);
    assert a + "/" + empty == a + "/";
    assert Split(empty, "/") == [empty];
    NamedAppend(sa, [empty]);
    NamedSkips(empty, []);
    assert sa + [empty] == sa + ([empty] + []);
    assert (sa + [empty])[0] == sa[0];
    assert (a + "/")[0] == a[0];
  }

  /** The text of one component when a path is written out. */
  function NameOf(c: Component): string {
    match c
    case RootDir => ""
    case CurDir => "."
    case ParentDir => ".."
    case Normal(n) => n
  }

  function Names(cs: seq<Component>): (r: seq<string>)
    ensures |r| == |cs|
  {
    seq(|cs|, i requires 0 <= i < |cs| => NameOf(cs[i]))
  }

  /** Writing components out as a path: the root as a leading separator,
      the rest joined by separators. */
  function Render(cs: seq<Component>): string {
    if |cs| > 0 && cs[0].RootDir? then "/" + Join(Names(cs[1..]), "/")
    else Join(Names(cs), "/")
  }

  /** Parent directories and valid names, written out, hold no separator
      and read back as themselves. */
  lemma {:induction false} NamedNames(cs: seq<Component>)
    requires forall i :: 0 <= i < |cs| ==>
               cs[i].ParentDir? || (cs[i].Normal? && ValidName(cs[i].name))
    ensures forall j :: 0 <= j < |Names(cs)| ==> '/' !in Names(cs)[j]
    ensures Named(Names(cs)) == cs
    decreases |cs|
  {
    if |cs| > 0 {
      NamedNames(cs[1..]);
      assert Names(cs)[1..] == Names(cs[1..]);
    }
  }

  lemma JoinStartsWithFirst(ps: seq<string>)
    requires |ps| >= 1 && |ps[0]| > 0
    ensures |Join(ps, "/")| > 0 && Join(ps, "/")[0] == ps[0][0]
  {
    if |ps| > 1 {
      JoinCons(ps[0], ps[1..], "/");
      assert ps == [ps[0]] + ps[1..];
    }
  }

  /** A path starting at the root splits into an empty first piece and
      the pieces of the rest. */
  lemma SplitRooted(j: string)
    ensures Split("/" + j, "/") == [[]] + Split(j, "/")
  {
    var empty: string := [];
    SplitAround(empty, j);
    assert empty + "/" + j == "/" + j;
  }

  /** Parent directories and valid names, joined and split again, read
      back as themselves; no components give the empty path. */
  lemma NamesReadBack(cs: seq<Component>)
    requires forall i :: 0 <= i < |cs| ==>
               cs[i].ParentDir? || (cs[i].Normal? && ValidName(cs[i].name))
    ensures Named(Split(Join(Names(cs), "/"), "/")) == cs
  {
    NamedNames(cs);
    if |cs| == 0 {
      var empty: string := [];
      assert Split(empty, "/") == [empty];
    } else {
      SplitJoin(Names(cs));
    }
  }

  /** A path starting at the root: the root, then the components the rest
      names. */
  lemma ComponentsRooted(j: string)
    ensures Components("/" + j) == [RootDir] + Named(Split(j, "/"))
  {
    var p := "/" + j;
    assert |p| > 0 && p[0] == '/';
    SplitRooted(j);
    var x: seq<string> := [[]] + Split(j, "/");
    assert Components(p) == Assemble(true, x);
    AssembleRooted(x);
    NamedSkips([], Split(j, "/"));
  }

  /** A rooted path's components: the root, then its pieces as names. */
  lemma AssembleRooted(x: seq<string>)
    requires |x| >= 1
    ensures Assemble(true, x) == [RootDir] + Named(x)
  {
  }

  /** A rooted canonical list reads back from its written form. */
  lemma RootedRender(cs: seq<Component>)
    requires Canonical(cs) && |cs| > 0 && cs[0].RootDir?
    ensures Components(Render(cs)) == cs
  {
    var rest := cs[1..];
    var j := Join(Names(rest), "/");
    assert forall i :: 0 <= i < |rest| ==> rest[i] == cs[i + 1];
    NamesReadBack(rest);
    ComponentsRooted(j);
    assert Render(cs) == "/" + j;
    assert cs == [RootDir] + rest;
  }

  /** The names of a relative canonical list hold no separator, and the
      first is not empty. */
  lemma RelativeNames(cs: seq<Component>)
    requires Canonical(cs) && |cs| > 0 && !cs[0].RootDir?
    ensures forall j :: 0 <= j < |Names(cs)| ==> '/' !in Names(cs)[j]
    ensures |Names(cs)[0]| > 0
  {
    var tail := cs[1..];
    assert forall i :: 0 <= i < |tail| ==> tail[i] == cs[i + 1];
    NamedNames(tail);
    assert Names(cs) == [NameOf(cs[0])] + Names(tail);
  }

  /** The pieces of a relative list: a leading `.` reads as nothing, so
      `Named` gives back the rest; otherwise it gives back everything. */
  lemma RelativeNamed(cs: seq<Component>)
    requires Canonical(cs) && |cs| > 0 && !cs[0].RootDir?
    ensures Named(Names(cs)) == if cs[0].CurDir? then cs[1..] else cs
  {
    var tail := cs[1..];
    assert forall i :: 0 <= i < |tail| ==> tail[i] == cs[i + 1];
    NamedNames(tail);
    var ns := Names(cs);
    assert ns == [NameOf(cs[0])] + Names(tail);
    if cs[0].CurDir? {
      NamedSkips(".", Names(tail));
    } else {
      assert ns[1..] == Names(tail);
      assert cs == [cs[0]] + tail;
    }
  }

  /** A relative canonical list reads back from its written form. */
  lemma RelativeRender(cs: seq<Component>)
    requires Canonical(cs) && |cs| > 0 && !cs[0].RootDir?
    ensures Components(Render(cs)) == cs
  {
    var ns := Names(cs);
    RelativeNames(cs);
    RelativeNamed(cs);
    SplitJoin(ns);
    JoinStartsWithFirst(ns);
    assert ns[0][0] != '/' by { assert ns[0][0] in ns[0]; }
    assert Render(cs) == Join(ns, "/");
    if cs[0].CurDir? {
      assert cs == [CurDir] + cs[1..];
    }
  }

  /** Canonical components survive being written out and read back: the
      key a path gets loses only its spelling, never a component. */
  lemma ComponentsOfRender(cs: seq<Component>)
    requires Canonical(cs)
    ensures Components(Render(cs)) == cs
  {
    if |cs| == 0 {
      var empty: string := [];
      assert Split(empty, "/") == [empty];
    } else if cs[0].RootDir? {
      RootedRender(cs);
    } else {
      RelativeRender(cs);
    }
  }

  /** Different canonical component lists are written out as paths with
      different components, so the key tells every file apart. */
  lemma RenderSeparates(cs: seq<Component>, ds: seq<Component>)
    requires Canonical(cs) && Canonical(ds) && cs != ds
    ensures Components(Render(cs)) != Components(Render(ds))
  {
    ComponentsOfRender(cs);
    ComponentsOfRender(ds);
  }

  /** What the cache is keyed by. A `Url` is compared as its whole string;
      a `File` holds a `PathBuf`, whose equality and hash go by components,
      so two spellings of one path are one key. */
  datatype Key = UrlKey(url: string) | FileKey(parts: seq<Component>)

  function KeyOf(it: IconType): (k: Key)
    ensures it.Url? <==> k.UrlKey?
    ensures it.Url? ==> k.url == it.url
    ensures it.File? ==> k.parts == Components(it.path)
  {
    match it
    case Url(u) => UrlKey(u)
    case File(p) => FileKey(Components(p))
  }

  /** The operating-system services an icon lookup uses: whether a path
      exists, its canonical form, and the native lookups by file and by URL. */
  datatype Platform = Platform(
    exists_: string -> bool,
    canonicalize: string -> Option<string>,
    iconForFile: string -> Option<Icon>,
    iconForUrl: string -> Option<Icon>)

  // ---------------------------------------------------------- load_icon

  /** `IconType::load_icon`: a URL asks the URL lookup; a file asks the file
      lookup, with its canonical path, only when the path exists and can be
      canonicalised; whatever finds nothing falls back to `defaultIcon`. */
  function LoadIcon(it: IconType, os: Platform, defaultIcon: Icon): (r: Icon)
    ensures r == defaultIcon
            || (it.Url? && os.iconForUrl(it.url) == Some(r))
            || (it.File? && os.exists_(it.path) && os.canonicalize(it.path).Some?
                && os.iconForFile(os.canonicalize(it.path).value) == Some(r))
  {
    var found :=
      match it
      case Url(u) => os.iconForUrl(u)
      case File(p) =>
        if os.exists_(p) then
          match os.canonicalize(p)
          case Some(c) => os.iconForFile(c)
          case None => None
        else None;
    found.GetOr(defaultIcon)
  }

  /** A URL request depends on the URL lookup alone. */
  lemma UrlUsesOnlyUrlLookup(u: string, os1: Platform, os2: Platform, d: Icon)
    requires os1.iconForUrl(u) == os2.iconForUrl(u)
    ensures LoadIcon(Url(u), os1, d) == LoadIcon(Url(u), os2, d)
  {
  }

  /** A file request depends on the file lookup only at the canonical path,
      and on nothing else besides existence and canonicalisation. */
  lemma FileUsesCanonicalPath(p: string, os1: Platform, os2: Platform, d: Icon)
    requires os1.exists_(p) == os2.exists_(p) && os1.canonicalize(p) == os2.canonicalize(p)
    requires os1.canonicalize(p).Some? ==>
               os1.iconForFile(os1.canonicalize(p).value) == os2.iconForFile(os1.canonicalize(p).value)
    ensures LoadIcon(File(p), os1, d) == LoadIcon(File(p), os2, d)
  {
  }

  /** A missing or uncanonicalisable path gets the default icon. */
  lemma UnreachableFileIsDefault(p: string, os: Platform, d: Icon)
    requires !os.exists_(p) || os.canonicalize(p).None?
    ensures LoadIcon(File(p), os, d) == d
  {
  }

  /** A lookup that finds an icon is used as it is. */
  lemma FoundIconIsUsed(it: IconType, os: Platform, d: Icon, i: Icon)
    requires it.Url? ==> os.iconForUrl(it.url) == Some(i)
    requires it.File? ==> os.exists_(it.path) && os.canonicalize(it.path).Some?
                          && os.iconForFile(os.canonicalize(it.path).value) == Some(i)
    ensures LoadIcon(it, os, d) == i
  {
  }

  // ---------------------------------------------------------- IconCache

  /** A command channel to the lookup worker, named by an identity. */
  type Channel = nat

  /** `IconCache`: the optional channel and, per key, `None` while the
      lookup is pending and `Some(icon)` once it has resolved. */
  datatype IconCache = IconCache(cmd: Option<Channel>, cache: map<Key, Option<Icon>>)

  /** `IconCache::new`. */
  function New(): (r: IconCache)
    ensures r.cmd.None? && |r.cache| == 0
  {
    IconCache(None, map[])
  }

  /** What `get` hands back: the updated table, the returned icon, and the
      request sent to the worker, if any. */
  datatype GetResult = GetResult(next: IconCache, icon: Option<Icon>, sent: Option<IconType>)

  /** `IconCache::get`. The request sent is the icon type as asked for;
      the table records it under its key. */
  function Get(c: IconCache, it: IconType): (r: GetResult)
    ensures KeyOf(it) in c.cache ==> r == GetResult(c, c.cache[KeyOf(it)], None)
    ensures KeyOf(it) !in c.cache ==> r.icon == None && r.next.cmd == c.cmd
    ensures KeyOf(it) !in c.cache && c.cmd.None? ==> r.next == c && r.sent == None
    ensures KeyOf(it) !in c.cache && c.cmd.Some? ==>
              r.sent == Some(it) && r.next.cache == c.cache[KeyOf(it) := None]
  {
    var k := KeyOf(it);
    if k in c.cache then GetResult(c, c.cache[k], None)
    else if c.cmd.Some? then GetResult(IconCache(c.cmd, c.cache[k := None]), None, Some(it))
    else GetResult(c, None, None)
  }

  /** `IconCache::add_icon`. */
  function AddIcon(c: IconCache, it: IconType, i: Icon): (r: IconCache)
    ensures r.cmd == c.cmd
    ensures r.cache.Keys == c.cache.Keys + {KeyOf(it)}
    ensures r.cache[KeyOf(it)] == Some(i)
    ensures forall k :: k in c.cache && k != KeyOf(it) ==> r.cache[k] == c.cache[k]
  {
    IconCache(c.cmd, c.cache[KeyOf(it) := Some(i)])
  }

  /** `IconCache::set_cmd`. */
  function SetCmd(c: IconCache, ch: Channel): (r: IconCache)
    ensures r.cmd == Some(ch) && r.cache == c.cache
  {
    IconCache(Some(ch), c.cache)
  }

  /** After `add_icon`, `get` answers with that icon and sends nothing,
      whatever state the key was in. */
  lemma GetAfterAdd(c: IconCache, it: IconType, i: Icon)
    ensures Get(AddIcon(c, it, i), it) == GetResult(AddIcon(c, it, i), Some(i), None)
  {
  }

  /** A miss without a channel leaves the key absent, so a `get` after
      `set_cmd` still requests it. */
  lemma MissWithoutChannelRetries(c: IconCache, it: IconType, ch: Channel)
    requires c.cmd.None? && KeyOf(it) !in c.cache
    ensures Get(c, it).sent == None
    ensures Get(SetCmd(Get(c, it).next, ch), it).sent == Some(it)
  {
  }

  /** A second `get` of the same key, however it is spelt, never sends
      again. */
  lemma SecondGetSendsNothing(c: IconCache, it: IconType, other: IconType)
    requires KeyOf(other) == KeyOf(it)
    ensures Get(Get(c, it).next, other).sent == None || Get(c, it).sent == None
  {
  }

  /** Asking for "a/b" and then for "a//b" once the worker runs: the first
      request is sent, the second finds it pending and sends nothing. */
  lemma SpellingsShareEntry(ch: Channel, a: string, b: string)
    ensures Get(SetCmd(New(), ch), File(a + "/" + b)).sent == Some(File(a + "/" + b))
    ensures Get(Get(SetCmd(New(), ch), File(a + "/" + b)).next, File(a + "//" + b))
            == GetResult(Get(SetCmd(New(), ch), File(a + "/" + b)).next, None, None)
  {
    DoubledSeparator(a, b);
  }

  // ------------------------------------------- sequences of operations

  datatype Op = GetOp(key: IconType) | AddIconOp(key: IconType, icon: Icon) | SetCmdOp(ch: Channel)

  function Step(c: IconCache, op: Op): (IconCache, Option<IconType>) {
    match op
    case GetOp(k) => var g := Get(c, k); (g.next, g.sent)
    case AddIconOp(k, i) => (AddIcon(c, k, i), None)
    case SetCmdOp(ch) => (SetCmd(c, ch), None)
  }

  function Sends(o: Option<IconType>): seq<IconType> {
    match o case None => [] case Some(k) => [k]
  }

  /** Applying the operations in order: the final table and every request
      sent to the worker, in order. */
  function Run(c: IconCache, ops: seq<Op>): (IconCache, seq<IconType>)
    decreases |ops|
  {
    if |ops| == 0 then (c, [])
    else
      var (c1, o) := Step(c, ops[0]);
      var (c2, rest) := Run(c1, ops[1..]);
      (c2, Sends(o) + rest)
  }

  /** No two requests name the same key. */
  predicate DistinctKeys(xs: seq<IconType>) {
    forall p, q :: 0 <= p < q < |xs| ==> KeyOf(xs[p]) != KeyOf(xs[q])
  }

  /** Keys are never removed, and a step sends only a request whose key
      was absent and is present afterwards. */
  lemma StepFacts(c: IconCache, op: Op)
    ensures c.cache.Keys <= Step(c, op).0.cache.Keys
    ensures Step(c, op).1.Some? ==>
              KeyOf(Step(c, op).1.value) !in c.cache && KeyOf(Step(c, op).1.value) in Step(c, op).0.cache
  {
  }

  /** A request whose key is already known goes in front of requests
      whose keys were not. */
  lemma PrependDistinct(x: IconType, rest: seq<IconType>, known: set<Key>)
    requires DistinctKeys(rest) && KeyOf(x) in known
    requires forall k :: k in rest ==> KeyOf(k) !in known
    ensures DistinctKeys([x] + rest)
  {
    var sent := [x] + rest;
    forall p, q | 0 <= p < q < |sent|
      ensures KeyOf(sent[p]) != KeyOf(sent[q])
    {
      assert sent[q] == rest[q - 1];
      if p > 0 {
        assert sent[p] == rest[p - 1];
      }
    }
  }

  /** Over any run, every request sent has a key that was absent at the
      start and is present at the end, no key is requested twice, and no
      key is ever dropped. */
  lemma {:induction false} RunSendsOnce(c: IconCache, ops: seq<Op>)
    ensures c.cache.Keys <= Run(c, ops).0.cache.Keys
    ensures forall k :: k in Run(c, ops).1 ==> KeyOf(k) !in c.cache && KeyOf(k) in Run(c, ops).0.cache
    ensures DistinctKeys(Run(c, ops).1)
    decreases |ops|
  {
    if |ops| > 0 {
      var (c1, o) := Step(c, ops[0]);
      StepFacts(c, ops[0]);
      RunSendsOnce(c1, ops[1..]);
      var (c2, rest) := Run(c1, ops[1..]);
      var sent := Sends(o) + rest;
      assert Run(c, ops) == (c2, sent);
      if o.Some? {
        assert sent == [o.value] + rest;
        PrependDistinct(o.value, rest, c1.cache.Keys);
      } else {
        assert sent == rest;
      }
    }
  }

  /** From a fresh table, each key is requested from the worker at most
      once, whatever spellings of it are asked for. */
  lemma AtMostOneRequestPerKey(ops: seq<Op>)
    ensures DistinctKeys(Run(New(), ops).1)
  {
    RunSendsOnce(New(), ops);
  }
}
