/** The expected outputs stated by the store module's own unit tests, proved
    about the model: the additive score of one entry, and the ranked search
    over a store of two entries. */
module StoreExamples {
  import opened Wrappers
  import opened Text
  import opened Store

  // ------------------------------------------------------ two-entry search

  /** Three values below 2 cannot be pairwise distinct. */
  lemma BelowTwo(r: seq<nat>)
    requires forall k :: 0 <= k < |r| ==> r[k] < 2
    ensures |r| > 2 ==> r[0] == r[1] || r[0] == r[2] || r[1] == r[2]
  {
  }

  /** The expected ranking of two entries scoring `a` and `b`: nothing, the
      one that matches, or both with the better (on a tie, the later)
      first. */
  function RankTwo(a: nat, b: nat): seq<nat> {
    if a == 0 && b == 0 then []
    else if b == 0 then [0]
    else if a == 0 then [1]
    else if a > b then [0, 1]
    else [1, 0]
  }

  /** The only ranking of two scores. */
  lemma RankOfTwo(r: seq<nat>, sc: seq<nat>)
    requires |sc| == 2 && IsRankingOf(sc, r)
    ensures r == RankTwo(sc[0], sc[1])
  {
    BelowTwo(r);
    assert |r| <= 2;
    if |r| == 2 {
      assert r == [r[0], r[1]];
    } else if |r| == 1 {
      assert r == [r[0]];
    }
  }

  /** The search over a store of two entries is decided by their two
      scores alone. */
  lemma FindMatchesOfTwo(s: Store, query: string)
    requires |s.entries| == 2
    ensures FindMatches(s, query) == RankTwo(Score(s.entries[0], query), Score(s.entries[1], query))
  {
    var sc := [Score(s.entries[0], query), Score(s.entries[1], query)];
    FindMatchesSpec(s, query, sc);
    RankOfTwo(FindMatches(s, query), sc);
  }

  /** The entries "foo" (tags foo, bar, quu) and "asdf" (tags bar, quux), in
      that order. */
  function FooEntry(): StoreEntry {
    StoreEntry("foo", FileEntry("test/location"), ["foo", "bar", "quu"])
  }

  function AsdfEntry(): StoreEntry {
    StoreEntry("asdf", FileEntry("test/location"), ["bar", "quux"])
  }

  function TwoEntries(): Store {
    Store([FooEntry(), AsdfEntry()])
  }

  /** The table under "foo" and the one under "asdf". */
  function TwoTables(): seq<(string, Value)> {
    [("foo", Converts(RawStoreEntry(Some("test/location"), None, Some(["foo", "bar", "quu"])))),
     ("asdf", Converts(RawStoreEntry(Some("test/location"), None, Some(["bar", "quux"]))))]
  }

  /** The two entries load from their tables in declaration order. */
  lemma TwoEntriesLoad()
    ensures ParseStore(TableDoc(TwoTables())) == Ok(TwoEntries())
  {
    var items := TwoTables();
    assert BuildEntries(items).Ok?;
    var entries := BuildEntries(items).value;
    assert Ok(entries[0]) == FromValue(items[0].0, items[0].1);
    assert Ok(entries[1]) == FromValue(items[1].0, items[1].1);
    assert entries == [entries[0], entries[1]];
  }

  /** "bar" is a full tag of both: on the tie the later "asdf" comes first. */
  lemma FindBar(q: string)
    requires q == "bar"
    ensures FindMatches(TwoEntries(), q) == [1, 0]
  {
    NoCharNoContains("foo", q);
    NoCharNoContains("asdf", q);
    assert Score(FooEntry(), q) == FULL_TAG_W;
    assert Score(AsdfEntry(), q) == FULL_TAG_W;
    FindMatchesOfTwo(TwoEntries(), q);
  }

  /** "quu" is a full tag of "foo" but only part of a tag of "asdf", so
      "foo" ranks first. */
  lemma FindQuu(q: string)
    requires q == "quu"
    ensures FindMatches(TwoEntries(), q) == [0, 1]
  {
    NoCharNoContains("foo", q);
    NoCharNoContains("asdf", q);
    PrefixContained("quux", q);
    assert q !in AsdfEntry().tags;
    assert AnyTagContains(AsdfEntry().tags, q) by {
      assert Contains(AsdfEntry().tags[1], q);
    }
    assert Score(FooEntry(), q) == FULL_TAG_W;
    assert Score(AsdfEntry(), q) == PARTIAL_TAG_W;
    FindMatchesOfTwo(TwoEntries(), q);
  }

  /** The empty query matches nothing. */
  lemma FindEmpty()
    ensures FindMatches(TwoEntries(), "") == []
  {
    FindMatchesOfTwo(TwoEntries(), "");
  }

  // --------------------------------------------------------- entry score

  /** The entry "foo.txt" tagged foo, bar and baz. */
  function FooTxt(): StoreEntry {
    StoreEntry("foo.txt", FileEntry("test/location/foo.txt"), ["foo", "bar", "baz"])
  }

  /** "fo" is part of the name and part of a tag. */
  lemma ScoreFo(q: string)
    requires q == "fo"
    ensures Score(FooTxt(), q) == PARTIAL_NAME_W + PARTIAL_TAG_W
  {
    PrefixContained("foo.txt", q);
    PrefixContained("foo", q);
    assert Contains(FooTxt().tags[0], q);
    assert q !in FooTxt().tags;
  }

  /** "foo" is part of the name and a whole tag. */
  lemma ScoreFoo(q: string)
    requires q == "foo"
    ensures Score(FooTxt(), q) == PARTIAL_NAME_W + FULL_TAG_W
  {
    PrefixContained("foo.txt", q);
    assert FooTxt().tags[0] == q;
  }

  /** "foo.txt" is the whole name and longer than every tag. */
  lemma ScoreFooTxt(q: string)
    requires q == "foo.txt"
    ensures Score(FooTxt(), q) == FULL_NAME_W
  {
    var tags := FooTxt().tags;
    forall i | 0 <= i < |tags|
      ensures !Contains(tags[i], q)
    {
      LongerNotContained(tags[i], q);
    }
  }

  /** "ba" is only the start of a tag. */
  lemma ScoreBa(q: string)
    requires q == "ba"
    ensures Score(FooTxt(), q) == PARTIAL_TAG_W
  {
    NoCharNoContains("foo.txt", q);
    PrefixContained("bar", q);
    assert Contains(FooTxt().tags[1], q);
    assert q !in FooTxt().tags;
  }

  /** "baz" is only a whole tag. */
  lemma ScoreBaz(q: string)
    requires q == "baz"
    ensures Score(FooTxt(), q) == FULL_TAG_W
  {
    NoCharNoContains("foo.txt", q);
    assert FooTxt().tags[2] == q;
  }
}
