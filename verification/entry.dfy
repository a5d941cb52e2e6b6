/** Launch entries as the current entry module builds, ranks and formats
    them: an entry is parsed from one already-deserialised configuration
    table, scored against the query the user is typing, and turned into the
    text shown and the path or command launched. */
module Entry {
  import opened Wrappers
  import opened Text
  import UrlEncoding

  // Match weights; each is different so that a score tells which rule fired.
  const FULL_KEYWORD_W: nat := 100
  const PARTIAL_NAME_W: nat := 3
  const FULL_NAME_W: nat := 10
  const PARTIAL_TAG_W: nat := 2
  const STARTSWITH_TAG_W: nat := 4
  const FULL_TAG_W: nat := 6

  /** The start value of the running minimum (`u32::MAX`). */
  const U32_MAX: nat := 0xFFFF_FFFF

  datatype Error =
    | IOError
    | ParseError(message: string)
    | BareKeyError(name: string)
    | CustomError(message: string)
    | PlatformError(cause: string)

  /** The optional fields of one configuration table (`desc` is accepted by
      the deserialiser as another spelling of `description`). */
  datatype RawStoreEntry = RawStoreEntry(
    location: Option<string>,
    url: Option<string>,
    system: Option<string>,
    keyword: Option<string>,
    escape: Option<bool>,
    description: Option<string>,
    tags: Option<seq<string>>)

  /** The configuration value found under an entry's name: either not a
      table at all, or a table whose fields did or did not deserialise into
      the optional fields above (the message is the deserialiser's). */
  datatype Value = NonTable | Table(fields: Result<RawStoreEntry, string>)

  datatype Keyword = NoKeyword | RawKeyword(word: string) | EscapedKeyword(word: string)

  datatype EntryType = FileEntry(target: string) | SystemEntry(target: string)

  datatype StoreEntry = StoreEntry(
    name: string,
    description: Option<string>,
    entry: EntryType,
    tags: seq<string>,
    keyword: Keyword)

  // ------------------------------------------------------------ parsing

  /** How many of location, url and system were given. */
  function TargetCount(raw: RawStoreEntry): nat {
    (if raw.location.Some? then 1 else 0)
    + (if raw.url.Some? then 1 else 0)
    + (if raw.system.Some? then 1 else 0)
  }

  function ConflictMessage(name: string): string {
    "Error with " + name + ": Only allow one of location/url/system"
  }

  /** `StoreEntry::from_value`. */
  function FromValue(name: string, val: Value): (r: Result<StoreEntry, Error>)
    ensures val.NonTable? ==> r == Err(BareKeyError(name))
    ensures val.Table? && val.fields.Err? ==> r == Err(ParseError(val.fields.error))
    ensures val.Table? && val.fields.Ok? ==>
              var raw := val.fields.value;
              && (r.Err? <==> TargetCount(raw) >= 2)
              && (r.Err? ==> r.error == CustomError(ConflictMessage(name)))
    ensures r.Ok? ==>
              var raw := val.fields.value;
              && r.value.name == name
              && r.value.description == raw.description
              && (r.value.entry.SystemEntry? <==> raw.system.Some?)
              && (raw.location.Some? ==> r.value.entry.target == raw.location.value)
              && (raw.url.Some? ==> r.value.entry.target == raw.url.value)
              && (raw.system.Some? ==> r.value.entry.target == raw.system.value)
              && (TargetCount(raw) == 0 ==> r.value.entry.target == name)
              && (r.value.keyword.NoKeyword? <==> raw.keyword.None?)
              && (r.value.keyword.EscapedKeyword? <==>
                    raw.keyword.Some? && (raw.url.Some? || raw.escape == Some(true)))
              && (raw.keyword.Some? ==> r.value.keyword.word == raw.keyword.value)
              && r.value.tags == raw.tags.GetOr([])
  {
    if val.NonTable? then Err(BareKeyError(name))
    else if val.fields.Err? then Err(ParseError(val.fields.error))
    else
      var raw := val.fields.value;
      var keyword :=
        match raw.keyword
        case Some(k) =>
          if raw.url.Some? || raw.escape.GetOr(false) then EscapedKeyword(k) else RawKeyword(k)
        case None => NoKeyword;
      var isSystem := raw.system.Some?;
      var location :=
        match (raw.location, raw.url, raw.system)
        case (Some(loc), None, None) => Ok(loc)
        case (None, Some(loc), None) => Ok(loc)
        case (None, None, Some(loc)) => Ok(loc)
        case (None, None, None) => Ok(name)
        case _ => Err(CustomError(ConflictMessage(name)));
      if location.Err? then Err(location.error)
      else
        var entry := if isSystem then SystemEntry(location.value) else FileEntry(location.value);
        var tags := match raw.tags case Some(t) => t case None => [];
        Ok(StoreEntry(name, raw.description, entry, tags, keyword))
  }

  /** The configuration table that describes an entry: its target under
      `location` or `system`, and `escape = true` for an escaped keyword. */
  function ToRaw(e: StoreEntry): RawStoreEntry {
    RawStoreEntry(
      location := if e.entry.FileEntry? then Some(e.entry.target) else None,
      url := None,
      system := if e.entry.SystemEntry? then Some(e.entry.target) else None,
      keyword := if e.keyword.NoKeyword? then None else Some(e.keyword.word),
      escape := if e.keyword.EscapedKeyword? then Some(true) else None,
      description := e.description,
      tags := Some(e.tags))
  }

  /** Every entry can be written as a table that parses back to it. */
  lemma ParseToRaw(e: StoreEntry)
    ensures FromValue(e.name, Table(Ok(ToRaw(e)))) == Ok(e)
  {
  }

  /** A URL entry opens like a file and always escapes its keyword
      parameter. */
  lemma UrlEntryIsEscapedFile(name: string, raw: RawStoreEntry)
    requires raw.url.Some? && raw.location.None? && raw.system.None? && raw.keyword.Some?
    ensures FromValue(name, Table(Ok(raw))).Ok?
    ensures FromValue(name, Table(Ok(raw))).value.entry == FileEntry(raw.url.value)
    ensures FromValue(name, Table(Ok(raw))).value.keyword == EscapedKeyword(raw.keyword.value)
  {
  }

  // ------------------------------------------------------------ scoring

  function Weight(fired: bool, w: nat): nat {
    if fired then w else 0
  }

  function Max(a: nat, b: nat): nat {
    if a >= b then a else b
  }

  function Min(a: nat, b: nat): nat {
    if a <= b then a else b
  }

  predicate AnyTagContains(tags: seq<string>, q: string) {
    exists i :: 0 <= i < |tags| && Contains(tags[i], q)
  }

  predicate AnyTagStartsWith(tags: seq<string>, q: string) {
    exists i :: 0 <= i < |tags| && q <= tags[i]
  }

  /** The best match of one query token against the name and the tags. */
  function TokenScore(name: string, tags: seq<string>, q: string): (r: nat)
    ensures r in {0, PARTIAL_TAG_W, PARTIAL_NAME_W, STARTSWITH_TAG_W, FULL_TAG_W, FULL_NAME_W}
  {
    Max(Max(Max(Max(
      Weight(name == q, FULL_NAME_W),
      Weight(Contains(name, q), PARTIAL_NAME_W)),
      Weight(q in tags, FULL_TAG_W)),
      Weight(AnyTagContains(tags, q), PARTIAL_TAG_W)),
      Weight(AnyTagStartsWith(tags, q), STARTSWITH_TAG_W))
  }

  /** A token is matched somewhere when it occurs in the name or in a tag. */
  predicate TokenMatches(name: string, tags: seq<string>, q: string) {
    Contains(name, q) || AnyTagContains(tags, q)
  }

  lemma TokenScorePositiveIff(name: string, tags: seq<string>, q: string)
    ensures TokenScore(name, tags, q) > 0 <==> TokenMatches(name, tags, q)
  {
    if name == q {
      ContainsSelf(name);
    }
    if q in tags {
      var i :| 0 <= i < |tags| && tags[i] == q;
      ContainsSelf(tags[i]);
    }
    if AnyTagStartsWith(tags, q) {
      var i :| 0 <= i < |tags| && q <= tags[i];
      PrefixContained(tags[i], q);
    }
  }

  /** The running minimum over the tokens, as the scoring loop keeps it. */
  function MinScore(name: string, tags: seq<string>, qs: seq<string>, running: nat): (r: nat)
    ensures r <= running
    ensures forall k :: 0 <= k < |qs| ==> r <= TokenScore(name, tags, qs[k])
    ensures r == running || exists k :: 0 <= k < |qs| && r == TokenScore(name, tags, qs[k])
    decreases |qs|
  {
    if |qs| == 0 then running
    else
      var r := MinScore(name, tags, qs[1..], Min(running, TokenScore(name, tags, qs[0])));
      assert forall k :: 1 <= k < |qs| ==> qs[k] == qs[1..][k - 1];
      r
  }

  /** The entry and the query with the case policy applied: a query with no
      upper-case letter compares everything upper-cased, any other query
      compares literally. */
  datatype Prepared = Prepared(name: string, tags: seq<string>, query: seq<string>, fold: bool)

  function ChangeCase(fold: bool, s: string): string {
    if fold then Upper(s) else s
  }

  function Prepare(e: StoreEntry, searchtext: string): (p: Prepared)
    ensures |p.query| == |Words(searchtext)| && |p.tags| == |e.tags|
  {
    var fold := searchtext == Lower(searchtext);
    var ws := Words(searchtext);
    Prepared(
      ChangeCase(fold, e.name),
      seq(|e.tags|, i requires 0 <= i < |e.tags| => ChangeCase(fold, e.tags[i])),
      seq(|ws|, i requires 0 <= i < |ws| => ChangeCase(fold, ws[i])),
      fold)
  }

  /** The first token is the entry's keyword. */
  predicate KeywordHit(e: StoreEntry, searchtext: string) {
    var p := Prepare(e, searchtext);
    && |p.query| > 0
    && match e.keyword
       case NoKeyword => false
       case RawKeyword(k) => ChangeCase(p.fold, k) == p.query[0]
       case EscapedKeyword(k) => ChangeCase(p.fold, k) == p.query[0]
  }

  /** `StoreEntry::score` (entry module version). */
  function Score(e: StoreEntry, searchtext: string): (r: nat)
    ensures r in {0, PARTIAL_TAG_W, PARTIAL_NAME_W, STARTSWITH_TAG_W, FULL_TAG_W, FULL_NAME_W, FULL_KEYWORD_W}
    ensures e.keyword.NoKeyword? ==> r <= FULL_NAME_W
    ensures AllWhitespace(searchtext) ==> r == 0
    ensures r == FULL_KEYWORD_W <==> KeywordHit(e, searchtext)
  {
    var p := Prepare(e, searchtext);
    if |p.query| == 0 || |p.query[0]| == 0 then 0
    else
      var fullKeyword := FULL_KEYWORD_W * (
        match e.keyword
        case NoKeyword => 0
        case RawKeyword(k) => if ChangeCase(p.fold, k) == p.query[0] then 1 else 0
        case EscapedKeyword(k) => if ChangeCase(p.fold, k) == p.query[0] then 1 else 0);
      var running := MinScore(p.name, p.tags, p.query, U32_MAX);
      assert running <= TokenScore(p.name, p.tags, p.query[0]);
      Max(running, fullKeyword)
  }

  /** Without a keyword hit the score is that of the weakest token: every
      token must match something for the entry to score at all. */
  lemma ScoreIsWeakestToken(e: StoreEntry, searchtext: string)
    requires !AllWhitespace(searchtext) && !KeywordHit(e, searchtext)
    ensures var p := Prepare(e, searchtext);
            && (forall k :: 0 <= k < |p.query| ==> Score(e, searchtext) <= TokenScore(p.name, p.tags, p.query[k]))
            && (exists k :: 0 <= k < |p.query| && Score(e, searchtext) == TokenScore(p.name, p.tags, p.query[k]))
  {
    var p := Prepare(e, searchtext);
    var ws := Words(searchtext);
    assert |ws[0]| > 0;
    assert |p.query[0]| > 0;
    var running := MinScore(p.name, p.tags, p.query, U32_MAX);
    assert running <= TokenScore(p.name, p.tags, p.query[0]);
  }

  /** An entry scores above zero exactly when the keyword is hit or every
      token occurs in the name or in some tag. */
  lemma ScorePositiveIff(e: StoreEntry, searchtext: string)
    ensures var p := Prepare(e, searchtext);
            Score(e, searchtext) > 0 <==>
              (|p.query| > 0 &&
               (KeywordHit(e, searchtext) || forall k :: 0 <= k < |p.query| ==> TokenMatches(p.name, p.tags, p.query[k])))
  {
    var p := Prepare(e, searchtext);
    if |p.query| > 0 && !KeywordHit(e, searchtext) {
      assert !AllWhitespace(searchtext);
      ScoreIsWeakestToken(e, searchtext);
      forall k | 0 <= k < |p.query|
        ensures TokenScore(p.name, p.tags, p.query[k]) > 0 <==> TokenMatches(p.name, p.tags, p.query[k])
      {
        TokenScorePositiveIff(p.name, p.tags, p.query[k]);
      }
    }
  }

  // ------------------------------------------------ the score, step by step

  /** Every string of `ss` upper-cased. */
  function UpperAll(ss: seq<string>): seq<string> {
    seq(|ss|, i requires 0 <= i < |ss| => Upper(ss[i]))
  }

  /** A query with no upper-case letter compares everything upper-cased. */
  lemma PrepareFolded(e: StoreEntry, q: string, ws: seq<string>)
    requires Lower(q) == q && Words(q) == ws
    ensures Prepare(e, q) == Prepared(Upper(e.name), UpperAll(e.tags), UpperAll(ws), true)
  {
  }

  /** Any other query compares literally. */
  lemma PrepareLiteral(e: StoreEntry, q: string, ws: seq<string>)
    requires Lower(q) != q && Words(q) == ws
    ensures Prepare(e, q) == Prepared(e.name, e.tags, ws, false)
  {
    var p := Prepare(e, q);
    assert forall i :: 0 <= i < |e.tags| ==> p.tags[i] == e.tags[i];
    assert forall i :: 0 <= i < |ws| ==> p.query[i] == ws[i];
  }

  /** When the keyword does not decide, a query whose first token is not
      empty scores the running minimum over its tokens. */
  lemma ScoreWithoutHit(e: StoreEntry, q: string, p: Prepared)
    requires Prepare(e, q) == p && !KeywordHit(e, q)
    requires |p.query| > 0 && |p.query[0]| > 0
    ensures Score(e, q) == MinScore(p.name, p.tags, p.query, U32_MAX)
  {
  }

  lemma MinOfOne(name: string, tags: seq<string>, x: string)
    ensures MinScore(name, tags, [x], U32_MAX) == TokenScore(name, tags, x)
  {
    assert [x][1..] == [];
  }

  lemma MinOfTwo(name: string, tags: seq<string>, x: string, y: string)
    ensures MinScore(name, tags, [x, y], U32_MAX) == Min(TokenScore(name, tags, x), TokenScore(name, tags, y))
  {
    assert [x, y][1..] == [y];
    assert [y][1..] == [];
  }

  /** A lower-case single word, on an entry whose upper-cased name and
      tags are `name` and `tags` and whose keyword does not match it. */
  lemma FoldedOne(e: StoreEntry, q: string, name: string, tags: seq<string>)
    requires |q| > 0 && Lower(q) == q && NoWhitespace(q) && !KeywordHit(e, q)
    requires Upper(e.name) == name && UpperAll(e.tags) == tags
    ensures Score(e, q) == TokenScore(name, tags, Upper(q))
  {
    WordsOfWord(q);
    PrepareFolded(e, q, [q]);
    assert UpperAll([q]) == [Upper(q)];
    ScoreWithoutHit(e, q, Prepared(name, tags, [Upper(q)], true));
    MinOfOne(name, tags, Upper(q));
  }

  /** Lower-case text of two words, on such an entry. */
  lemma FoldedTwo(e: StoreEntry, q: string, a: string, b: string, name: string, tags: seq<string>)
    requires Lower(q) == q && Words(q) == [a, b] && |a| > 0 && !KeywordHit(e, q)
    requires Upper(e.name) == name && UpperAll(e.tags) == tags
    ensures Score(e, q) == Min(TokenScore(name, tags, Upper(a)), TokenScore(name, tags, Upper(b)))
  {
    PrepareFolded(e, q, [a, b]);
    assert UpperAll([a, b]) == [Upper(a), Upper(b)];
    ScoreWithoutHit(e, q, Prepared(name, tags, [Upper(a), Upper(b)], true));
    MinOfTwo(name, tags, Upper(a), Upper(b));
  }

  // One lemma per rule that decides a token's score.

  lemma TokenFullName(name: string, tags: seq<string>, q: string)
    requires name == q
    ensures TokenScore(name, tags, q) == FULL_NAME_W
  {
  }

  lemma TokenFullTag(name: string, tags: seq<string>, q: string)
    requires name != q && q in tags
    ensures TokenScore(name, tags, q) == FULL_TAG_W
  {
  }

  lemma TokenStartsWith(name: string, tags: seq<string>, q: string)
    requires name != q && q !in tags && AnyTagStartsWith(tags, q)
    ensures TokenScore(name, tags, q) == STARTSWITH_TAG_W
  {
  }

  lemma TokenPartialName(name: string, tags: seq<string>, q: string)
    requires name != q && q !in tags && !AnyTagStartsWith(tags, q) && Contains(name, q)
    ensures TokenScore(name, tags, q) == PARTIAL_NAME_W
  {
  }

  lemma TokenPartialTag(name: string, tags: seq<string>, q: string)
    requires name != q && q !in tags && !AnyTagStartsWith(tags, q) && !Contains(name, q)
    requires AnyTagContains(tags, q)
    ensures TokenScore(name, tags, q) == PARTIAL_TAG_W
  {
  }

  // ---------------------------------------------------------- formatting

  /** `StoreEntry::format`: with a keyword, split on "%%", substitute `param`
      for every "%s" in each piece and join the pieces with "%". */
  function Format(e: StoreEntry, fmt: string, param: string): (r: string)
    ensures e.keyword.NoKeyword? ==> r == fmt
    ensures !e.keyword.NoKeyword? ==> r == Expand(fmt, param)
  {
    if e.keyword.NoKeyword? then fmt
    else
      PiecesExpand(fmt, param);
      Join(Substituted(Split(fmt, "%%"), param), "%")
  }

  /** Every piece with `param` substituted for each "%s". */
  function Substituted(pieces: seq<string>, param: string): (r: seq<string>)
    ensures |r| == |pieces|
  {
    seq(|pieces|, i requires 0 <= i < |pieces| => Replace(pieces[i], "%s", param))
  }

  /** A reference reading of the template, left to right: "%%" is a
      literal "%", "%s" is the parameter, and any other character is kept. */
  function Expand(fmt: string, param: string): string
    decreases |fmt|
  {
    if |fmt| < 2 then fmt
    else if fmt[..2] == "%%" then "%" + Expand(fmt[2..], param)
    else if fmt[..2] == "%s" then param + Expand(fmt[2..], param)
    else [fmt[0]] + Expand(fmt[1..], param)
  }

  /** What follows the first piece in a join: nothing, or "%" and the join
      of the other pieces. */
  function JoinedTail(pieces: seq<string>, param: string): string {
    if |pieces| == 0 then [] else "%" + Join(Substituted(pieces, param), "%")
  }

  /** The join of substituted pieces is the first piece substituted, then
      the rest. */
  lemma JoinedHead(h: string, t: seq<string>, param: string)
    ensures Join(Substituted([h] + t, param), "%") == Replace(h, "%s", param) + JoinedTail(t, param)
  {
    var s := Substituted([h] + t, param);
    var rh := Replace(h, "%s", param);
    if |t| == 0 {
      assert s == [rh];
    } else {
      var st := Substituted(t, param);
      forall i | 0 <= i < |s|
        ensures s[i] == ([rh] + st)[i]
      {
        if i > 0 {
          assert ([h] + t)[i] == t[i - 1];
        }
      }
      assert s == [rh] + st;
      JoinCons(rh, st, "%");
    }
  }

  /** A template that does not start with "%": its first character opens
      the first piece. */
  lemma SplitKeepsFirst(fmt: string)
    requires |fmt| > 0 && !("%%" <= fmt)
    ensures var rest := Split(fmt[1..], "%%");
            Split(fmt, "%%") == [[fmt[0]] + rest[0]] + rest[1..]
  {
  }

  /** The step at an escape: an empty piece, then the rest. */
  lemma ExpandAtEscape(fmt: string, param: string)
    requires "%%" <= fmt
    requires Join(Substituted(Split(fmt[2..], "%%"), param), "%") == Expand(fmt[2..], param)
    ensures Join(Substituted(Split(fmt, "%%"), param), "%") == Expand(fmt, param)
  {
    var empty: string := [];
    var rest := Split(fmt[2..], "%%");
    assert Split(fmt, "%%") == [empty] + rest;
    JoinedHead(empty, rest, param);
    assert Replace(empty, "%s", param) == [];
    assert fmt[..2] == "%%";
  }

  /** A template starting with "%s": its first piece starts with "%s". */
  lemma SplitAtPlaceholder(fmt: string)
    requires "%s" <= fmt
    ensures var rest := Split(fmt[2..], "%%");
            Split(fmt, "%%") == ["%s" + rest[0]] + rest[1..]
  {
    var rest := Split(fmt[2..], "%%");
    var r1 := Split(fmt[1..], "%%");
    assert fmt[1..][1..] == fmt[2..];
    assert fmt[1..][0] == fmt[1] == 's';
    SplitKeepsFirst(fmt[1..]);
    SplitKeepsFirst(fmt);
    assert r1[0] == ['s'] + rest[0] && r1[1..] == rest[1..];
    assert [fmt[0]] + r1[0] == "%s" + rest[0];
  }

  /** A leading "%s" is replaced by the parameter. */
  lemma ReplaceAtPlaceholder(x: string, param: string)
    ensures Replace("%s" + x, "%s", param) == param + Replace(x, "%s", param)
  {
    assert ("%s" + x)[2..] == x;
  }

  /** A leading character that does not start "%s" is kept. */
  lemma ReplaceKeeps(c: char, x: string, param: string)
    requires !("%s" <= [c] + x)
    ensures Replace([c] + x, "%s", param) == [c] + Replace(x, "%s", param)
  {
    assert ([c] + x)[1..] == x;
  }

  /** Pieces whose first one starts with "%s": the join starts with the
      parameter. */
  lemma JoinedAtPlaceholder(ps: seq<string>, rest: seq<string>, param: string)
    requires |rest| > 0 && ps == ["%s" + rest[0]] + rest[1..]
    ensures Join(Substituted(ps, param), "%") == param + Join(Substituted(rest, param), "%")
  {
    var later := JoinedTail(rest[1..], param);
    assert rest == [rest[0]] + rest[1..];
    JoinedHead("%s" + rest[0], rest[1..], param);
    JoinedHead(rest[0], rest[1..], param);
    ReplaceAtPlaceholder(rest[0], param);
  }

  /** The step at a placeholder: the parameter, then the rest. */
  lemma ExpandAtPlaceholder(fmt: string, param: string)
    requires "%s" <= fmt
    requires Join(Substituted(Split(fmt[2..], "%%"), param), "%") == Expand(fmt[2..], param)
    ensures Join(Substituted(Split(fmt, "%%"), param), "%") == Expand(fmt, param)
  {
    SplitAtPlaceholder(fmt);
    JoinedAtPlaceholder(Split(fmt, "%%"), Split(fmt[2..], "%%"), param);
    ExpandPlaceholder(fmt, param);
  }

  /** `Expand` replaces a leading "%s" by the parameter. */
  lemma ExpandPlaceholder(fmt: string, param: string)
    requires "%s" <= fmt
    ensures Expand(fmt, param) == param + Expand(fmt[2..], param)
  {
    assert fmt[..2] == "%s";
  }

  /** The first piece of a template not starting with "%" starts with the
      template's first character. */
  lemma FirstPieceStart(fmt: string)
    requires |fmt| > 0 && fmt[0] != '%'
    ensures |Split(fmt, "%%")[0]| > 0 && Split(fmt, "%%")[0][0] == fmt[0]
  {
    SplitKeepsFirst(fmt);
  }

  /** A template starting with neither "%%" nor "%s": its first piece does
      not start with "%s" either. */
  lemma FirstPieceNoPlaceholder(fmt: string)
    requires |fmt| > 0 && !("%%" <= fmt) && !("%s" <= fmt)
    ensures !("%s" <= [fmt[0]] + Split(fmt[1..], "%%")[0])
  {
    if |fmt| >= 2 && fmt[0] == '%' {
      assert fmt[..2] == [fmt[0], fmt[1]];
      assert fmt[1..][0] == fmt[1];
      FirstPieceStart(fmt[1..]);
    }
  }

  /** `Expand` keeps a character that starts neither "%%" nor "%s". */
  lemma ExpandKeeps(fmt: string, param: string)
    requires |fmt| > 0 && !("%%" <= fmt) && !("%s" <= fmt)
    ensures Expand(fmt, param) == [fmt[0]] + Expand(fmt[1..], param)
  {
    if |fmt| >= 2 {
      assert fmt[..2] != "%%" && fmt[..2] != "%s";
    }
  }

  /** Pieces whose first one starts with a kept character: the join
      starts with it. */
  lemma JoinedAtChar(ps: seq<string>, rest: seq<string>, c: char, param: string)
    requires |rest| > 0 && ps == [[c] + rest[0]] + rest[1..] && !("%s" <= [c] + rest[0])
    ensures Join(Substituted(ps, param), "%") == [c] + Join(Substituted(rest, param), "%")
  {
    assert rest == [rest[0]] + rest[1..];
    JoinedHead([c] + rest[0], rest[1..], param);
    JoinedHead(rest[0], rest[1..], param);
    ReplaceKeeps(c, rest[0], param);
  }

  /** The step at any other character: it is kept in front of the rest. */
  lemma ExpandAtChar(fmt: string, param: string)
    requires |fmt| > 0 && !("%%" <= fmt) && !("%s" <= fmt)
    requires Join(Substituted(Split(fmt[1..], "%%"), param), "%") == Expand(fmt[1..], param)
    ensures Join(Substituted(Split(fmt, "%%"), param), "%") == Expand(fmt, param)
  {
    SplitKeepsFirst(fmt);
    FirstPieceNoPlaceholder(fmt);
    JoinedAtChar(Split(fmt, "%%"), Split(fmt[1..], "%%"), fmt[0], param);
    ExpandKeeps(fmt, param);
  }

  /** Splitting on "%%", substituting and joining with "%" reads the
      template as `Expand` does. */
  lemma {:induction false} PiecesExpand(fmt: string, param: string)
    ensures Join(Substituted(Split(fmt, "%%"), param), "%") == Expand(fmt, param)
    decreases |fmt|
  {
    if "%%" <= fmt {
      PiecesExpand(fmt[2..], param);
      ExpandAtEscape(fmt, param);
    } else if "%s" <= fmt {
      PiecesExpand(fmt[2..], param);
      ExpandAtPlaceholder(fmt, param);
    } else if |fmt| > 0 {
      PiecesExpand(fmt[1..], param);
      ExpandAtChar(fmt, param);
    } else {
      var empty: string := [];
      assert Split(fmt, "%%") == [empty];
      JoinedHead(empty, [], param);
      assert Replace(empty, "%s", param) == [];
    }
  }

  /** No "%" in the format string: nothing to substitute, nothing to unescape. */
  lemma FormatWithoutPercent(e: StoreEntry, fmt: string, param: string)
    requires forall i :: 0 <= i < |fmt| ==> fmt[i] != '%'
    ensures Format(e, fmt, param) == fmt
  {
    if !e.keyword.NoKeyword? {
      NoCharNoContains(fmt, "%%");
      NoCharNoContains(fmt, "%s");
      SplitAbsent(fmt, "%%");
      ReplaceAbsent(fmt, "%s", param);
    }
  }

  /** With "%s" itself as the parameter, formatting only turns each "%%"
      into "%": the substitution is the identity on every piece. */
  lemma FormatPlaceholderOnlyUnescapes(e: StoreEntry, fmt: string)
    requires !e.keyword.NoKeyword?
    ensures Format(e, fmt, "%s") == Join(Split(fmt, "%%"), "%")
  {
    var pieces := Split(fmt, "%%");
    var replaced := seq(|pieces|, i requires 0 <= i < |pieces| => Replace(pieces[i], "%s", "%s"));
    forall i | 0 <= i < |pieces|
      ensures replaced[i] == pieces[i]
    {
      ReplaceBySelf(pieces[i], "%s");
    }
    assert replaced == pieces;
  }

  /** ... so a format string without "%%" comes back unchanged. */
  lemma FormatPlaceholderIdentity(e: StoreEntry, fmt: string)
    requires !Contains(fmt, "%%")
    ensures Format(e, fmt, "%s") == fmt
  {
    if !e.keyword.NoKeyword? {
      FormatPlaceholderOnlyUnescapes(e, fmt);
      SplitAbsent(fmt, "%%");
    }
  }

  /** The format parameter: the query after its first blank (the keyword
      token is dropped), or the literal "%s" when the query has no blank. */
  function Param(searchtext: string): (r: string)
    ensures NoWhitespace(searchtext) ==> r == "%s"
    ensures !NoWhitespace(searchtext) ==>
              exists i :: 0 <= i < |searchtext| && IsWhitespace(searchtext[i])
                          && NoWhitespace(searchtext[..i]) && r == searchtext[i + 1..]
  {
    match SplitOnceSpace(searchtext)
    case Some((_, back)) =>
      var i := |SplitOnceSpace(searchtext).value.0|;
      assert searchtext[..i] == SplitOnceSpace(searchtext).value.0;
      assert searchtext[i + 1..] == back;
      back
    case None => "%s"
  }

  /** `StoreEntry::format_name`. */
  function FormatName(e: StoreEntry, searchtext: string): string {
    Format(e, e.name, Param(searchtext))
  }

  /** The parameter as it is substituted into the target: percent-encoded
      for an escaped keyword, verbatim otherwise. */
  function SelectionParam(e: StoreEntry, searchtext: string): (r: string)
    ensures e.keyword.EscapedKeyword? ==> r == UrlEncoding.Encode(Param(searchtext))
    ensures !e.keyword.EscapedKeyword? ==> r == Param(searchtext)
  {
    match e.keyword
    case EscapedKeyword(_) => UrlEncoding.Encode(Param(searchtext))
    case _ => Param(searchtext)
  }

  /** `StoreEntry::format_selection`. */
  function FormatSelection(e: StoreEntry, searchtext: string): string {
    Format(e, e.entry.target, SelectionParam(e, searchtext))
  }

  /** For a query whose parameter needs no escaping, escaped and raw
      keywords select the same target. */
  lemma EscapingInvisibleOnSafeParam(e: StoreEntry, searchtext: string)
    requires e.keyword.EscapedKeyword?
    requires forall i :: 0 <= i < |Param(searchtext)| ==> UrlEncoding.IsUnreserved(Param(searchtext)[i])
    ensures FormatSelection(e, searchtext) == FormatSelection(e.(keyword := RawKeyword(e.keyword.word)), searchtext)
  {
    UrlEncoding.EncodeUnreserved(Param(searchtext));
  }

  /** What a selection asks the platform to do. */
  datatype Launch = OpenFile(path: string) | RunSystem(command: string)

  function SelectionRequest(e: StoreEntry, searchtext: string): (r: Launch)
    ensures r.OpenFile? <==> e.entry.FileEntry?
    ensures r.OpenFile? ==> r.path == FormatSelection(e, searchtext)
    ensures r.RunSystem? ==> r.command == FormatSelection(e, searchtext)
  {
    match e.entry
    case FileEntry(_) => OpenFile(FormatSelection(e, searchtext))
    case SystemEntry(_) => RunSystem(FormatSelection(e, searchtext))
  }

  /** `StoreEntry::handle_selection`; `platform` stands for opening a file or
      running a shell command, and its failure is passed on as a
      `PlatformError`. */
  function HandleSelection(e: StoreEntry, searchtext: string, platform: Launch -> Option<string>): (r: Result<(), Error>)
    ensures r.Ok? <==> platform(SelectionRequest(e, searchtext)).None?
    ensures r.Err? ==> r.error == PlatformError(platform(SelectionRequest(e, searchtext)).value)
  {
    match platform(SelectionRequest(e, searchtext))
    case None => Ok(())
    case Some(cause) => Err(PlatformError(cause))
  }
}
