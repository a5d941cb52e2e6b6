/** The expected outputs stated by the entry module's own unit tests,
    proved about the model: scores for a plain entry, for a mixed-case entry
    and for an entry with a keyword, and the substitution results of the
    formatter. Each concrete string reaches a lemma through a parameter
    equal to it, and general lemmas below do the reasoning. */
module EntryExamples {
  import opened Wrappers
  import opened Text
  import opened Entry

  // ------------------------------------------------------- text steps

  /** Two lower-case words joined by a space stay lower-case. */
  lemma LowerSpaced(a: string, b: string)
    requires Lower(a) == a && Lower(b) == b
    ensures Lower(a + " " + b) == a + " " + b
  {
    var s := a + " " + b;
    forall i | 0 <= i < |s|
      ensures LowerChar(s[i]) == s[i]
    {
      if i < |a| {
        assert s[i] == a[i] && Lower(a)[i] == LowerChar(a[i]);
      } else if i > |a| {
        assert s[i] == b[i - |a| - 1] && Lower(b)[i - |a| - 1] == LowerChar(b[i - |a| - 1]);
      }
    }
  }

  /** The words of two blank-free words joined by a space. */
  lemma WordsSpaced(a: string, b: string)
    requires |a| > 0 && NoWhitespace(a) && |b| > 0 && NoWhitespace(b)
    ensures Words(a + " " + b) == [a, b]
  {
    WordsCons(a, ' ', b);
    WordsOfWord(b);
    assert a + " " + b == a + [' '] + b;
  }

  // ---------------------------------------------- the entry "foo.txt"

  /** The entry "foo.txt" tagged foo, bar and baz. */
  function FooTxt(k: Keyword): StoreEntry {
    StoreEntry("foo.txt", None, FileEntry("test/location/foo.txt"), ["foo", "bar", "baz"], k)
  }

  /** The name and tags of `FooTxt`, upper-cased. */
  lemma FooTxtUpper(k: Keyword, name: string, tags: seq<string>)
    requires name == "FOO.TXT" && tags == ["FOO", "BAR", "BAZ"]
    ensures Upper(FooTxt(k).name) == name && UpperAll(FooTxt(k).tags) == tags
  {
    assert Upper("foo") == "FOO" && Upper("bar") == "BAR" && Upper("baz") == "BAZ";
  }

  /** A single lower-case token scores as its best match. */
  lemma SingleToken(q: string, expected: nat)
    requires |q| > 0 && Lower(q) == q && NoWhitespace(q)
    requires TokenScore("FOO.TXT", ["FOO", "BAR", "BAZ"], Upper(q)) == expected
    ensures Score(FooTxt(NoKeyword), q) == expected
  {
    var name, tags := "FOO.TXT", ["FOO", "BAR", "BAZ"];
    FooTxtUpper(NoKeyword, name, tags);
    FoldedOne(FooTxt(NoKeyword), q, name, tags);
  }

  /** A lower-case query of two words: the score is the weaker of the two
      matches. */
  lemma TwoWords(q: string, a: string, b: string, sa: nat, sb: nat)
    requires Lower(q) == q && Words(q) == [a, b] && |a| > 0
    requires TokenScore("FOO.TXT", ["FOO", "BAR", "BAZ"], Upper(a)) == sa
    requires TokenScore("FOO.TXT", ["FOO", "BAR", "BAZ"], Upper(b)) == sb
    ensures Score(FooTxt(NoKeyword), q) == Min(sa, sb)
  {
    var name, tags := "FOO.TXT", ["FOO", "BAR", "BAZ"];
    FooTxtUpper(NoKeyword, name, tags);
    FoldedTwo(FooTxt(NoKeyword), q, a, b, name, tags);
  }

  /** Two lower-case words joined by a space. */
  lemma TwoTokens(a: string, b: string, sa: nat, sb: nat)
    requires |a| > 0 && Lower(a) == a && NoWhitespace(a)
    requires |b| > 0 && Lower(b) == b && NoWhitespace(b)
    requires TokenScore("FOO.TXT", ["FOO", "BAR", "BAZ"], Upper(a)) == sa
    requires TokenScore("FOO.TXT", ["FOO", "BAR", "BAZ"], Upper(b)) == sb
    ensures Score(FooTxt(NoKeyword), a + " " + b) == Min(sa, sb)
  {
    LowerSpaced(a, b);
    WordsSpaced(a, b);
    TwoWords(a + " " + b, a, b, sa, sb);
  }

  /** The word "bar" is the whole tag "BAR". */
  lemma TokenBar(a: string)
    requires a == "bar"
    ensures |a| > 0 && Lower(a) == a && NoWhitespace(a)
    ensures TokenScore("FOO.TXT", ["FOO", "BAR", "BAZ"], Upper(a)) == FULL_TAG_W
  {
    var name, tags, u := "FOO.TXT", ["FOO", "BAR", "BAZ"], Upper(a);
    assert Lower(a) == a && u == "BAR";
    assert u == tags[1];
    TokenFullTag(name, tags, u);
  }

  lemma ScoreTx(q: string)
    requires q == "tx"
    ensures Score(FooTxt(NoKeyword), q) == PARTIAL_NAME_W
  {
    var name, tags, u := "FOO.TXT", ["FOO", "BAR", "BAZ"], Upper(q);
    assert Lower(q) == q && u == "TX";
    ContainsIffOccurs(name, u);
    assert u <= name[4..];
    assert !AnyTagStartsWith(tags, u) by {
      assert forall i :: 0 <= i < 3 ==> tags[i][0] != 'T';
    }
    TokenPartialName(name, tags, u);
    SingleToken(q, PARTIAL_NAME_W);
  }

  lemma ScoreFullTagFoo(q: string)
    requires q == "foo"
    ensures Score(FooTxt(NoKeyword), q) == FULL_TAG_W
  {
    var name, tags, u := "FOO.TXT", ["FOO", "BAR", "BAZ"], Upper(q);
    assert Lower(q) == q && u == "FOO";
    TokenFullTag(name, tags, u);
    SingleToken(q, FULL_TAG_W);
  }

  lemma ScoreFullTagBaz(q: string)
    requires q == "baz"
    ensures Score(FooTxt(NoKeyword), q) == FULL_TAG_W
  {
    var name, tags, u := "FOO.TXT", ["FOO", "BAR", "BAZ"], Upper(q);
    assert Lower(q) == q && u == "BAZ";
    assert u == tags[2];
    TokenFullTag(name, tags, u);
    SingleToken(q, FULL_TAG_W);
  }

  lemma ScoreFullName(q: string)
    requires q == "foo.txt"
    ensures Score(FooTxt(NoKeyword), q) == FULL_NAME_W
  {
    var name, tags, u := "FOO.TXT", ["FOO", "BAR", "BAZ"], Upper(q);
    assert Lower(q) == q && u == name;
    TokenFullName(name, tags, u);
    SingleToken(q, FULL_NAME_W);
  }

  lemma ScoreStartsWithTag(q: string)
    requires q == "ba"
    ensures Score(FooTxt(NoKeyword), q) == STARTSWITH_TAG_W
  {
    var name, tags, u := "FOO.TXT", ["FOO", "BAR", "BAZ"], Upper(q);
    assert Lower(q) == q && u == "BA";
    assert u <= tags[1];
    assert u !in tags by {
      assert forall i :: 0 <= i < 3 ==> |tags[i]| == 3;
    }
    TokenStartsWith(name, tags, u);
    SingleToken(q, STARTSWITH_TAG_W);
  }

  /** "AZ" is inside the tag "BAZ" and nowhere else. */
  lemma TokenAz(name: string, tags: seq<string>, u: string)
    requires name == "FOO.TXT" && tags == ["FOO", "BAR", "BAZ"] && u == "AZ"
    ensures TokenScore(name, tags, u) == PARTIAL_TAG_W
  {
    NoCharNoContains(name, u);
    assert u <= tags[2][1..];
    ContainsIffOccurs(tags[2], u);
    assert Contains(tags[2], u);
    assert !AnyTagStartsWith(tags, u) by {
      assert forall i :: 0 <= i < 3 ==> tags[i][0] != 'A';
    }
    assert u !in tags by {
      assert forall i :: 0 <= i < 3 ==> |tags[i]| == 3;
    }
    TokenPartialTag(name, tags, u);
  }

  /** "FO" starts the tag "FOO". */
  lemma TokenFo(name: string, tags: seq<string>, u: string)
    requires name == "FOO.TXT" && tags == ["FOO", "BAR", "BAZ"] && u == "FO"
    ensures TokenScore(name, tags, u) == STARTSWITH_TAG_W
  {
    assert u <= tags[0];
    assert u !in tags by {
      assert forall i :: 0 <= i < 3 ==> |tags[i]| == 3;
    }
    TokenStartsWith(name, tags, u);
  }

  /** The word "az" scores as part of a tag. */
  lemma WordAz(b: string)
    requires b == "az"
    ensures |b| > 0 && Lower(b) == b && NoWhitespace(b)
    ensures TokenScore("FOO.TXT", ["FOO", "BAR", "BAZ"], Upper(b)) == PARTIAL_TAG_W
  {
    var u := Upper(b);
    assert Lower(b) == b && u == "AZ";
    TokenAz("FOO.TXT", ["FOO", "BAR", "BAZ"], u);
  }

  /** The word "fo" scores as the start of a tag. */
  lemma WordFo(b: string)
    requires b == "fo"
    ensures |b| > 0 && Lower(b) == b && NoWhitespace(b)
    ensures TokenScore("FOO.TXT", ["FOO", "BAR", "BAZ"], Upper(b)) == STARTSWITH_TAG_W
  {
    var u := Upper(b);
    assert Lower(b) == b && u == "FO";
    TokenFo("FOO.TXT", ["FOO", "BAR", "BAZ"], u);
  }

  lemma ScorePartialTag(q: string)
    requires q == "az"
    ensures Score(FooTxt(NoKeyword), q) == PARTIAL_TAG_W
  {
    WordAz(q);
    SingleToken(q, PARTIAL_TAG_W);
  }

  /** The query "bar fo": the weaker token "fo" decides. */
  lemma ScoreBarFo(a: string, b: string)
    requires a == "bar" && b == "fo"
    ensures Score(FooTxt(NoKeyword), a + " " + b) == STARTSWITH_TAG_W
  {
    TokenBar(a);
    WordFo(b);
    TwoTokens(a, b, FULL_TAG_W, STARTSWITH_TAG_W);
  }

  /** The query "bar az". */
  lemma ScoreBarAz(a: string, b: string)
    requires a == "bar" && b == "az"
    ensures Score(FooTxt(NoKeyword), a + " " + b) == PARTIAL_TAG_W
  {
    TokenBar(a);
    WordAz(b);
    TwoTokens(a, b, FULL_TAG_W, PARTIAL_TAG_W);
  }

  lemma ScoreEmptyQuery()
    ensures Score(FooTxt(NoKeyword), "") == 0
  {
  }

  // ------------------------------------------------ case policy examples

  /** The entry "fOO.txt" tagged FOO. */
  function MixedCase(): StoreEntry {
    StoreEntry("fOO.txt", None, FileEntry("test/location/asdf.txt"), ["FOO"], NoKeyword)
  }

  /** A query with an upper-case letter compares literally. */
  lemma MixedLiteral(q: string, expected: nat)
    requires |q| > 0 && Lower(q) != q && NoWhitespace(q)
    requires TokenScore("fOO.txt", ["FOO"], q) == expected
    ensures Score(MixedCase(), q) == expected
  {
    var e := MixedCase();
    WordsOfWord(q);
    PrepareLiteral(e, q, [q]);
    ScoreWithoutHit(e, q, Prepared(e.name, e.tags, [q], false));
    MinOfOne(e.name, e.tags, q);
  }

  /** The name and tags of `MixedCase`, upper-cased. */
  lemma MixedUpper(name: string, tags: seq<string>)
    requires name == "FOO.TXT" && tags == ["FOO"]
    ensures Upper(MixedCase().name) == name && UpperAll(MixedCase().tags) == tags
  {
    assert Upper("FOO") == "FOO";
  }

  /** A lower-case query compares upper-cased. */
  lemma MixedFolded(q: string, expected: nat)
    requires |q| > 0 && Lower(q) == q && NoWhitespace(q)
    requires TokenScore("FOO.TXT", ["FOO"], Upper(q)) == expected
    ensures Score(MixedCase(), q) == expected
  {
    var name, tags := "FOO.TXT", ["FOO"];
    MixedUpper(name, tags);
    FoldedOne(MixedCase(), q, name, tags);
  }

  lemma MixedFo(q: string)
    requires q == "fo"
    ensures Score(MixedCase(), q) == STARTSWITH_TAG_W
  {
    var name, tags, u := "FOO.TXT", ["FOO"], Upper(q);
    assert Lower(q) == q && u == "FO";
    assert u <= tags[0] && u != tags[0];
    TokenStartsWith(name, tags, u);
    MixedFolded(q, STARTSWITH_TAG_W);
  }

  /** The upper-case queries of the mixed-case tests are single words that
      are not lower-case. */
  lemma MixedUpperWord(q: string)
    requires q == "FO" || q == "FOO"
    ensures |q| > 0 && Lower(q) != q && NoWhitespace(q)
  {
    assert Lower(q)[0] == LowerChar(q[0]) == 'f';
  }

  lemma MixedUpperFo(q: string)
    requires q == "FO"
    ensures Score(MixedCase(), q) == STARTSWITH_TAG_W
  {
    var name, tags := "fOO.txt", ["FOO"];
    MixedUpperWord(q);
    assert q <= tags[0] && q != tags[0];
    TokenStartsWith(name, tags, q);
    MixedLiteral(q, STARTSWITH_TAG_W);
  }

  lemma MixedUpperFoo(q: string)
    requires q == "FOO"
    ensures Score(MixedCase(), q) == FULL_TAG_W
  {
    var name, tags := "fOO.txt", ["FOO"];
    MixedUpperWord(q);
    assert q == tags[0] && q != name;
    TokenFullTag(name, tags, q);
    MixedLiteral(q, FULL_TAG_W);
  }

  lemma MixedfO(q: string)
    requires q == "fO"
    ensures Score(MixedCase(), q) == PARTIAL_NAME_W
  {
    var name, tags := "fOO.txt", ["FOO"];
    assert Lower(q)[1] == 'o';
    PrefixContained(name, q);
    assert !AnyTagStartsWith(tags, q) by {
      assert tags[0][0] != 'f';
    }
    assert q != tags[0] && q != name;
    TokenPartialName(name, tags, q);
    MixedLiteral(q, PARTIAL_NAME_W);
  }

  // --------------------------------------------------- keyword examples

  /** Without the keyword the entry scores as usual. */
  lemma KeywordUnused(q: string)
    requires q == "fo"
    ensures Score(FooTxt(RawKeyword("y")), q) == STARTSWITH_TAG_W
  {
    var name, tags, u := "FOO.TXT", ["FOO", "BAR", "BAZ"], Upper(q);
    var e := FooTxt(RawKeyword("y"));
    assert Lower(q) == q && u == "FO";
    WordsOfWord(q);
    PrepareFolded(e, q, [q]);
    FooTxtUpper(RawKeyword("y"), name, tags);
    assert UpperAll([q]) == [u];
    assert Upper("y") != u;
    ScoreWithoutHit(e, q, Prepared(name, tags, [u], true));
    MinOfOne(name, tags, u);
    TokenFo(name, tags, u);
  }

  /** The keyword as first word earns the keyword weight. */
  lemma KeywordUsed(a: string, b: string)
    requires a == "y" && b == "foo"
    ensures Score(FooTxt(RawKeyword("y")), a + " " + b) == FULL_KEYWORD_W
  {
    var e := FooTxt(RawKeyword("y"));
    var q := a + " " + b;
    assert Lower(a) == a && Lower(b) == b;
    LowerSpaced(a, b);
    WordsSpaced(a, b);
    PrepareFolded(e, q, [a, b]);
    assert UpperAll([a, b])[0] == Upper(a) == Upper("y");
    assert KeywordHit(e, q);
  }

  // --------------------------------------------------- format examples

  /** An entry with an empty raw keyword: its strings are formatted. */
  function Formatting(): StoreEntry {
    StoreEntry([], None, FileEntry([]), [], RawKeyword([]))
  }

  /** A format string with no "%%" is only substituted. */
  lemma FormatUnescaped(fmt: string, param: string)
    requires !Contains(fmt, "%%")
    ensures Format(Formatting(), fmt, param) == Replace(fmt, "%s", param)
  {
    FormatUnescapedFor(Formatting(), fmt, param);
  }

  lemma FormatUnescapedFor(e: StoreEntry, fmt: string, param: string)
    requires !e.keyword.NoKeyword? && !Contains(fmt, "%%")
    ensures Format(e, fmt, param) == Replace(fmt, "%s", param)
  {
    SplitAbsent(fmt, "%%");
  }

  /** "%" + [c] does not contain "%%" unless `c` is '%'. */
  lemma PercentThen(c: char)
    requires c != '%'
    ensures !Contains("%" + [c], "%%")
  {
    var s := "%" + [c];
    assert s[1] == c;
    assert s[1..] == [c];
    assert !Contains([c], "%%") by {
      assert [c][1..] == [];
    }
  }

  /** Splitting "%%" + rest, where the rest holds no "%%". */
  lemma SplitAfterEscape(rest: string)
    requires !Contains(rest, "%%")
    ensures Split("%%" + rest, "%%") == ["", rest]
  {
    var s := "%%" + rest;
    assert "%%" <= s && s[2..] == rest;
    SplitAbsent(rest, "%%");
  }

  /** A format string that splits into two pieces around one escape. */
  lemma FormatTwoPieces(e: StoreEntry, fmt: string, param: string, a: string, b: string)
    requires !e.keyword.NoKeyword? && Split(fmt, "%%") == [a, b]
    ensures Format(e, fmt, param) == Replace(a, "%s", param) + "%" + Replace(b, "%s", param)
  {
    var pieces := Split(fmt, "%%");
    var replaced := seq(|pieces|, i requires 0 <= i < |pieces| => Replace(pieces[i], "%s", param));
    var ra, rb := Replace(a, "%s", param), Replace(b, "%s", param);
    assert replaced == [ra] + [rb];
    JoinCons(ra, [rb], "%");
  }

  /** An escape at the front becomes a literal "%" before the rest. */
  lemma FormatAfterEscape(rest: string, param: string)
    requires !Contains(rest, "%%")
    ensures Format(Formatting(), "%%" + rest, param) == "%" + Replace(rest, "%s", param)
  {
    var empty: string := [];
    SplitAfterEscape(rest);
    FormatTwoPieces(Formatting(), "%%" + rest, param, empty, rest);
    var r := Replace(rest, "%s", param);
    assert Replace(empty, "%s", param) == [];
    assert empty + "%" + r == "%" + r;
  }

  /** "%s" alone is replaced by the whole parameter. */
  lemma FormatPlaceholderExample(fmt: string, param: string)
    requires fmt == "%s"
    ensures Format(Formatting(), fmt, param) == param
  {
    PercentThen('s');
    assert "%" + ['s'] == fmt;
    FormatUnescaped(fmt, param);
    assert Replace(fmt, "%s", param) == param by {
      assert fmt[2..] == [];
    }
  }

  /** The parameter "a" and the parameter "a a" replace "%s" whole. */
  lemma FormatPlainExamples(fmt: string, param: string, spaced: string)
    requires fmt == "%s" && param == "a" && spaced == "a a"
    ensures Format(Formatting(), fmt, param) == param
    ensures Format(Formatting(), fmt, spaced) == spaced
  {
    FormatPlaceholderExample(fmt, param);
    FormatPlaceholderExample(fmt, spaced);
  }

  /** Text before the placeholder is kept. */
  lemma FormatTestExample(t: string, fmt: string, param: string)
    requires t == "test " && fmt == "test %s" && param == "a"
    ensures Format(Formatting(), fmt, param) == t + param
  {
    assert NoPercent(t);
    assert t + "%s" == fmt;
    FormatSuffix(Formatting(), t, param);
  }

  /** "%%s" is an escaped "%" followed by "s", not a placeholder. */
  lemma FormatEscapedExample(rest: string, fmt: string, param: string)
    requires rest == "s" && fmt == "%%s" && param == "a"
    ensures Format(Formatting(), fmt, param) == "%s"
  {
    assert !Contains(rest, "%%") by {
      NoCharNoContains(rest, "%%");
    }
    FormatAfterEscape(rest, param);
    assert "%%" + rest == fmt;
    assert Replace(rest, "%s", param) == rest by {
      NoCharNoContains(rest, "%s");
      ReplaceAbsent(rest, "%s", param);
    }
    assert "%" + rest == "%s";
  }

  /** "%%%s" is an escaped "%" followed by the placeholder. */
  lemma FormatEscapeThenParam(rest: string, fmt: string, param: string)
    requires rest == "%s" && fmt == "%%%s" && param == "a"
    ensures Format(Formatting(), fmt, param) == "%" + param
  {
    PercentThen('s');
    assert "%" + ['s'] == rest;
    FormatAfterEscape(rest, param);
    assert "%%" + rest == fmt;
    assert Replace(rest, "%s", param) == param by {
      assert rest[2..] == [];
    }
  }

  // ------------------------------------------- keyword search examples

  /** An entry whose name is `n` + "%s" and whose file is `f` + "%s". */
  function Templated(n: string, f: string, k: Keyword): StoreEntry {
    StoreEntry(n + "%s", None, FileEntry(f + "%s"), [], k)
  }

  /** The parameter is what follows the first word and its blank. */
  lemma ParamAfterWord(w: string, rest: string)
    requires NoWhitespace(w)
    ensures Param(w + " " + rest) == rest
  {
    SplitOnceSpaceAfterWord(w, ' ', rest);
    assert w + " " + rest == w + [' '] + rest;
  }

  predicate NoPercent(t: string) {
    forall i :: 0 <= i < |t| ==> t[i] != '%'
  }

  /** A template `t` + "%s" with no other "%" in `t` becomes `t` + the
      parameter. */
  lemma FormatSuffix(e: StoreEntry, t: string, param: string)
    requires !e.keyword.NoKeyword? && NoPercent(t)
    ensures Format(e, t + "%s", param) == t + param
  {
    PercentThen('s');
    assert "%" + ['s'] == "%s";
    ContainsAfterNoChar(t, "%s", "%%");
    FormatUnescapedFor(e, t + "%s", param);
    ReplaceAfterNoChar(t, "%s", "%s", param);
    assert Replace("%s", "%s", param) == param by {
      assert "%s"[2..] == [];
    }
  }

  /** With a keyword, the words after the first go into the name verbatim,
      and into the target verbatim for a raw keyword and percent-encoded for
      an escaped one. */
  lemma KeywordSearch(n: string, f: string, k: Keyword, w: string, rest: string)
    requires !k.NoKeyword?
    requires NoPercent(n) && NoPercent(f)
    requires NoWhitespace(w)
    ensures FormatName(Templated(n, f, k), w + " " + rest) == n + rest
    ensures k.RawKeyword? ==> FormatSelection(Templated(n, f, k), w + " " + rest) == f + rest
    ensures k.EscapedKeyword? ==>
              FormatSelection(Templated(n, f, k), w + " " + rest) == f + UrlEncoding.Encode(rest)
  {
    var e := Templated(n, f, k);
    ParamAfterWord(w, rest);
    FormatSuffix(e, n, rest);
    FormatSuffix(e, f, SelectionParam(e, w + " " + rest));
  }

  /** A raw keyword puts everything after the first word into both the
      name and the target, unescaped: "a b" shows "name:b" and opens
      "file/b". */
  lemma RawKeywordPlain(n: string, f: string, a: string, b: string)
    requires n == "name:" && f == "file/" && a == "a" && b == "b"
    ensures FormatName(Templated(n, f, RawKeyword([])), a + " " + b) == "name:b"
    ensures FormatSelection(Templated(n, f, RawKeyword([])), a + " " + b) == "file/b"
  {
    TemplateFacts(n, f, a);
    KeywordSearch(n, f, RawKeyword([]), a, b);
    assert n + b == "name:b" && f + b == "file/b";
  }

  /** With "a b c" the parameter "b c" keeps its blank in both places. */
  lemma RawKeywordSpaced(n: string, f: string, a: string, bc: string)
    requires n == "name:" && f == "file/" && a == "a" && bc == "b c"
    ensures FormatName(Templated(n, f, RawKeyword([])), a + " " + bc) == "name:b c"
    ensures FormatSelection(Templated(n, f, RawKeyword([])), a + " " + bc) == "file/b c"
  {
    TemplateFacts(n, f, a);
    KeywordSearch(n, f, RawKeyword([]), a, bc);
    assert n + bc == "name:b c" && f + bc == "file/b c";
  }

  /** An upper-case parameter is kept as it is. */
  lemma RawKeywordUpper(n: string, f: string, a: string, b: string)
    requires n == "name:" && f == "file/" && a == "a" && b == "B"
    ensures FormatName(Templated(n, f, RawKeyword([])), a + " " + b) == "name:B"
    ensures FormatSelection(Templated(n, f, RawKeyword([])), a + " " + b) == "file/B"
  {
    TemplateFacts(n, f, a);
    KeywordSearch(n, f, RawKeyword([]), a, b);
    assert n + b == "name:B" && f + b == "file/B";
  }

  /** The templates "name:" and "file/" hold no "%" and the word "a" no
      blank. */
  lemma TemplateFacts(n: string, f: string, a: string)
    requires n == "name:" && f == "file/" && a == "a"
    ensures NoWhitespace(a) && NoPercent(n) && NoPercent(f)
  {
  }

  /** The launcher's table for an escaped keyword: a parameter that needs
      no escape is unchanged... */
  lemma EscapedPlainExample(n: string, f: string, a: string, b: string)
    requires n == "name:" && f == "file/" && a == "a" && b == "b"
    ensures FormatSelection(Templated(n, f, EscapedKeyword([])), a + " " + b) == "file/b"
  {
    TemplateFacts(n, f, a);
    UrlEncoding.EncodeUnreserved(b);
    KeywordSearch(n, f, EscapedKeyword([]), a, b);
    assert f + b == "file/b";
  }

  /** ... while "a b c" opens "file/" + "b%20c"... */
  lemma EscapedSpaceExample(n: string, f: string, a: string, bc: string)
    requires n == "name:" && f == "file/" && a == "a" && bc == "b c"
    ensures FormatSelection(Templated(n, f, EscapedKeyword([])), a + " " + bc) == f + "b%20c"
  {
    TemplateFacts(n, f, a);
    KeywordSearch(n, f, EscapedKeyword([]), a, bc);
    UrlEncoding.EncodeSpaceExample();
  }

  /** ... and the name still shows "b c". */
  lemma EscapedSpaceName(n: string, f: string, a: string, bc: string)
    requires n == "name:" && f == "file/" && a == "a" && bc == "b c"
    ensures FormatName(Templated(n, f, EscapedKeyword([])), a + " " + bc) == n + "b c"
  {
    TemplateFacts(n, f, a);
    KeywordSearch(n, f, EscapedKeyword([]), a, bc);
  }
}
