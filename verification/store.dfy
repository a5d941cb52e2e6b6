/** The older store module: its own entry type with an additive score, the
    loading of a whole store from a parsed configuration table, and the
    ranked search `find_matches`. It differs from the entry module (other
    weights, no keywords, no case folding, no conflict check) and is modelled
    as it stands. */
module Store {
  import opened Wrappers
  import opened Text

  const PARTIAL_NAME_W: nat := 2
  const FULL_NAME_W: nat := 4
  const PARTIAL_TAG_W: nat := 1
  const FULL_TAG_W: nat := 2

  datatype Error = IOError | ParseError(message: string) | CustomError(message: string)

  datatype RawStoreEntry = RawStoreEntry(location: Option<string>, system: Option<string>, tags: Option<seq<string>>)

  /** A configuration value under an entry's name, as the deserialiser sees
      it: it either converts into the optional fields above or it does not
      (a non-table value never converts). */
  datatype Value = Converts(raw: RawStoreEntry) | Mistyped(message: string)

  datatype EntryType = FileEntry(target: string) | SystemEntry(target: string)

  datatype StoreEntry = StoreEntry(name: string, entry: EntryType, tags: seq<string>)

  datatype Store = Store(entries: seq<StoreEntry>)

  // ------------------------------------------------------------ parsing

  /** `StoreEntry::from_value` (store module version). */
  function FromValue(name: string, val: Value): (r: Result<StoreEntry, Error>)
    ensures val.Mistyped? ==> r == Err(ParseError(val.message))
    ensures val.Converts? ==>
              var raw := val.raw;
              && r.Ok?
              && r.value.name == name
              && r.value.tags == raw.tags.GetOr([])
              && (raw.system.Some? ==> r.value.entry == SystemEntry(raw.system.value))
              && (raw.system.None? && raw.location.Some? ==> r.value.entry == FileEntry(raw.location.value))
              && (raw.system.None? && raw.location.None? ==> r.value.entry == FileEntry(name))
  {
    match val
    case Mistyped(m) => Err(ParseError(m))
    case Converts(raw) =>
      var location := match raw.location case Some(loc) => loc case None => name;
      var entry := if raw.system.Some? then SystemEntry(raw.system.value) else FileEntry(location);
      var tags := match raw.tags case Some(t) => t case None => [];
      Ok(StoreEntry(name, entry, tags))
  }

  /** The table that describes an entry. */
  function ToRaw(e: StoreEntry): RawStoreEntry {
    match e.entry
    case FileEntry(t) => RawStoreEntry(Some(t), None, Some(e.tags))
    case SystemEntry(c) => RawStoreEntry(None, Some(c), Some(e.tags))
  }

  /** Every entry can be written as a table that loads back to it. */
  lemma LoadToRaw(e: StoreEntry)
    ensures FromValue(e.name, Converts(ToRaw(e))) == Ok(e)
  {
  }

  // ------------------------------------------------------------ scoring

  function Weight(fired: bool, w: nat): nat {
    if fired then w else 0
  }

  predicate AnyTagContains(tags: seq<string>, q: string) {
    exists i :: 0 <= i < |tags| && Contains(tags[i], q)
  }

  /** `StoreEntry::score` (store module version): the sum of the weights that
      fire, where a full match on the name (or on a tag) excludes a partial
      one. Matching is case-sensitive. */
  function Score(e: StoreEntry, query: string): (r: nat)
    ensures query == [] ==> r == 0
    ensures r <= FULL_NAME_W + FULL_TAG_W
  {
    if |query| == 0 then 0
    else
      var fullName := e.name == query;
      var partialName := !fullName && Contains(e.name, query);
      var fullTag := query in e.tags;
      var partialTag := !fullTag && AnyTagContains(e.tags, query);
      Weight(partialName, PARTIAL_NAME_W) + Weight(fullName, FULL_NAME_W)
      + Weight(partialTag, PARTIAL_TAG_W) + Weight(fullTag, FULL_TAG_W)
  }

  /** An entry matches when the query occurs in its name or in one of its
      tags. */
  lemma ScorePositiveIff(e: StoreEntry, query: string)
    ensures Score(e, query) > 0 <==> |query| > 0 && (Contains(e.name, query) || AnyTagContains(e.tags, query))
  {
    if e.name == query {
      ContainsSelf(query);
    }
    if query in e.tags {
      var i :| 0 <= i < |e.tags| && e.tags[i] == query;
      ContainsSelf(e.tags[i]);
    }
  }

  // ------------------------------------------------------- find_matches

  /** Every entry's score, in declaration order. */
  function ScoreAll(entries: seq<StoreEntry>, query: string): (r: seq<nat>)
    ensures |r| == |entries|
    ensures forall i :: 0 <= i < |entries| ==> r[i] == Score(entries[i], query)
    decreases |entries|
  {
    if |entries| == 0 then [] else [Score(entries[0], query)] + ScoreAll(entries[1..], query)
  }

  /** An (entry index, score) pair, as the search keeps them. */
  type Match = (nat, nat)

  /** Rank order of the result: higher score first, and among equal scores
      the entry declared later first. */
  predicate Before(a: Match, b: Match) {
    a.1 > b.1 || (a.1 == b.1 && a.0 > b.0)
  }

  predicate Ranked(xs: seq<Match>) {
    forall p, q :: 0 <= p < q < |xs| ==> Before(xs[p], xs[q])
  }

  /** Indices strictly decreasing along the sequence. */
  predicate DescendingIndex(xs: seq<Match>) {
    forall p, q :: 0 <= p < q < |xs| ==> xs[p].0 > xs[q].0
  }

  /** An element of the ranking: an entry index with its positive score. */
  predicate Scored(sc: seq<nat>, x: Match) {
    x.0 < |sc| && x.1 == sc[x.0] > 0
  }

  /** The positions from `from` on with a positive score, paired with it,
      in declaration order. */
  function Positive(sc: seq<nat>, from: nat): (r: seq<Match>)
    requires from <= |sc|
    ensures forall k :: 0 <= k < |r| ==> from <= r[k].0 && Scored(sc, r[k])
    ensures forall p, q :: 0 <= p < q < |r| ==> r[p].0 < r[q].0
    ensures forall i :: from <= i < |sc| && sc[i] > 0 ==> (i, sc[i]) in r
    decreases |sc| - from
  {
    if from == |sc| then []
    else
      var rest := Positive(sc, from + 1);
      if sc[from] > 0 then
        var r := [(from, sc[from])] + rest;
        assert forall k :: 1 <= k < |r| ==> r[k] == rest[k - 1];
        r
      else rest
  }

  function Reverse<T>(xs: seq<T>): (r: seq<T>)
    ensures |r| == |xs|
    ensures forall k :: 0 <= k < |xs| ==> r[k] == xs[|xs| - 1 - k]
    decreases |xs|
  {
    if |xs| == 0 then [] else Reverse(xs[1..]) + [xs[0]]
  }

  /** One step of a stable sort by descending score: `x` goes after every
      element whose score is at least its own. */
  function Insert(x: Match, sorted: seq<Match>): (r: seq<Match>)
    ensures multiset(r) == multiset(sorted) + multiset{x}
    decreases |sorted|
  {
    if |sorted| == 0 then [x]
    else if sorted[0].1 >= x.1 then
      assert sorted == [sorted[0]] + sorted[1..];
      [sorted[0]] + Insert(x, sorted[1..])
    else [x] + sorted
  }

  /** Stable sort by descending score (insertion sort; every stable sort
      gives the same sequence, see `RankedUnique`). */
  function SortByScore(xs: seq<Match>): (r: seq<Match>)
    ensures multiset(r) == multiset(xs)
    decreases |xs|
  {
    if |xs| == 0 then []
    else
      assert xs == xs[..|xs| - 1] + [xs[|xs| - 1]];
      Insert(xs[|xs| - 1], SortByScore(xs[..|xs| - 1]))
  }

  /** What an insertion holds: the new element or one already there. */
  lemma InsertMember(x: Match, sorted: seq<Match>, y: Match)
    requires y in Insert(x, sorted)
    ensures y == x || y in sorted
  {
    assert y in multiset(Insert(x, sorted));
  }

  /** A ranked sequence stays ranked behind a head that comes before all
      of it. */
  lemma ConsRanked(h: Match, t: seq<Match>)
    requires Ranked(t)
    requires forall k :: 0 <= k < |t| ==> Before(h, t[k])
    ensures Ranked([h] + t)
  {
    var r := [h] + t;
    forall p, q | 0 <= p < q < |r|
      ensures Before(r[p], r[q])
    {
      assert r[q] == t[q - 1];
      if p > 0 {
        assert r[p] == t[p - 1];
      }
    }
  }

  lemma {:induction false} InsertRanked(x: Match, sorted: seq<Match>)
    requires Ranked(sorted)
    requires forall k :: 0 <= k < |sorted| ==> sorted[k].0 > x.0
    ensures Ranked(Insert(x, sorted))
    decreases |sorted|
  {
    if |sorted| == 0 {
      assert Insert(x, sorted) == [x];
    } else if sorted[0].1 >= x.1 {
      var tail := sorted[1..];
      assert forall k :: 0 <= k < |tail| ==> tail[k] == sorted[k + 1];
      InsertRanked(x, tail);
      var ins := Insert(x, tail);
      forall k | 0 <= k < |ins|
        ensures Before(sorted[0], ins[k])
      {
        InsertMember(x, tail, ins[k]);
        if ins[k] != x {
          var j :| 0 <= j < |tail| && tail[j] == ins[k];
          assert sorted[j + 1] == ins[k];
        }
      }
      ConsRanked(sorted[0], ins);
    } else {
      forall k | 0 <= k < |sorted|
        ensures Before(x, sorted[k])
      {
        if k > 0 {
          assert Before(sorted[0], sorted[k]);
        }
      }
      ConsRanked(x, sorted);
    }
  }

  /** A stable sort by score of a sequence listed latest-first is ranked. */
  lemma {:induction false} SortRanked(xs: seq<Match>)
    requires DescendingIndex(xs)
    ensures Ranked(SortByScore(xs))
    decreases |xs|
  {
    if |xs| > 0 {
      var init := xs[..|xs| - 1];
      var last := xs[|xs| - 1];
      SortRanked(init);
      var sorted := SortByScore(init);
      forall k | 0 <= k < |sorted|
        ensures sorted[k].0 > last.0
      {
        assert sorted[k] in multiset(init);
        var j :| 0 <= j < |init| && init[j] == sorted[k];
      }
      InsertRanked(last, sorted);
    }
  }

  /** The ranking of a sequence of scores: the positive ones, latest
      first, stably sorted by descending score. */
  function Ranking(sc: seq<nat>): seq<Match> {
    SortByScore(Reverse(Positive(sc, 0)))
  }

  function Indices(m: seq<Match>): (r: seq<nat>)
    ensures |r| == |m|
    ensures forall k :: 0 <= k < |m| ==> r[k] == m[k].0
    decreases |m|
  {
    if |m| == 0 then [] else [m[0].0] + Indices(m[1..])
  }

  /** `Store::find_matches`, on indices. */
  function FindMatches(s: Store, query: string): seq<nat> {
    Indices(Ranking(ScoreAll(s.entries, query)))
  }

  lemma RankingIsRanked(sc: seq<nat>)
    ensures Ranked(Ranking(sc))
  {
    var rev := Reverse(Positive(sc, 0));
    assert DescendingIndex(rev);
    SortRanked(rev);
  }

  /** An element of a permutation is an element of the original. */
  lemma PermutationHas(xs: seq<Match>, ys: seq<Match>, y: Match)
    requires multiset(xs) == multiset(ys) && y in ys
    ensures y in xs
  {
    assert y in multiset(ys);
  }

  /** The ranking is a permutation of the positive scores. */
  lemma RankingPermutes(sc: seq<nat>)
    ensures multiset(Ranking(sc)) == multiset(Reverse(Positive(sc, 0)))
  {
  }

  lemma PermutedKeeps(sc: seq<nat>, xs: seq<Match>, ys: seq<Match>)
    requires multiset(xs) == multiset(ys)
    requires forall k :: 0 <= k < |xs| ==> Scored(sc, xs[k])
    ensures forall k :: 0 <= k < |ys| ==> Scored(sc, ys[k])
  {
    forall k | 0 <= k < |ys|
      ensures Scored(sc, ys[k])
    {
      PermutationHas(xs, ys, ys[k]);
      var j :| 0 <= j < |xs| && xs[j] == ys[k];
    }
  }

  /** Reversal keeps every element scored. */
  lemma ReverseScored(sc: seq<nat>, xs: seq<Match>)
    requires forall k :: 0 <= k < |xs| ==> Scored(sc, xs[k])
    ensures var rev := Reverse(xs);
            forall k :: 0 <= k < |rev| ==> Scored(sc, rev[k])
  {
    var rev := Reverse(xs);
    forall k | 0 <= k < |rev|
      ensures Scored(sc, rev[k])
    {
      assert rev[k] == xs[|xs| - 1 - k];
    }
  }

  /** Every element of the reversed positive list is scored. */
  lemma ReversedScored(sc: seq<nat>)
    ensures var rev := Reverse(Positive(sc, 0));
            forall k :: 0 <= k < |rev| ==> Scored(sc, rev[k])
  {
    ReverseScored(sc, Positive(sc, 0));
  }

  lemma RankingSound(sc: seq<nat>)
    ensures var m := Ranking(sc);
            forall k :: 0 <= k < |m| ==> Scored(sc, m[k])
  {
    ReversedScored(sc);
    RankingPermutes(sc);
    PermutedKeeps(sc, Reverse(Positive(sc, 0)), Ranking(sc));
  }

  /** A positive score is in the list of positive scores, and so in its
      reversal. */
  lemma ReversedHas(sc: seq<nat>, i: nat)
    requires i < |sc| && sc[i] > 0
    ensures (i, sc[i]) in Reverse(Positive(sc, 0))
  {
    var pos := Positive(sc, 0);
    var j :| 0 <= j < |pos| && pos[j] == (i, sc[i]);
    assert Reverse(pos)[|pos| - 1 - j] == pos[j];
  }

  /** Every position with a positive score is in its ranking. */
  lemma RankedHas(sc: seq<nat>, i: nat)
    requires i < |sc| && sc[i] > 0
    ensures i in Indices(Ranking(sc))
  {
    var m := Ranking(sc);
    var x := (i, sc[i]);
    ReversedHas(sc, i);
    RankingPermutes(sc);
    PermutationHas(m, Reverse(Positive(sc, 0)), x);
    var k :| 0 <= k < |m| && m[k] == x;
    assert Indices(m)[k] == i;
  }

  lemma RankingComplete(sc: seq<nat>)
    ensures forall i :: 0 <= i < |sc| && sc[i] > 0 ==> i in Indices(Ranking(sc))
  {
    forall i | 0 <= i < |sc| && sc[i] > 0
      ensures i in Indices(Ranking(sc))
    {
      RankedHas(sc, i);
    }
  }

  /** `r` ranks the scores `sc`: it holds exactly the positions with a
      positive score, each once, by non-increasing score, and among equal
      scores the later position first. */
  predicate IsRankingOf(sc: seq<nat>, r: seq<nat>) {
    && (forall k :: 0 <= k < |r| ==> r[k] < |sc| && sc[r[k]] > 0)
    && (forall i :: 0 <= i < |sc| && sc[i] > 0 ==> i in r)
    && (forall p, q :: 0 <= p < q < |r| ==> r[p] != r[q])
    && (forall p, q :: 0 <= p < q < |r| ==> sc[r[p]] >= sc[r[q]])
    && (forall p, q :: 0 <= p < q < |r| && sc[r[p]] == sc[r[q]] ==> r[p] > r[q])
  }

  /** The ranking of any scores meets that description. */
  lemma RankSpec(sc: seq<nat>)
    ensures IsRankingOf(sc, Indices(Ranking(sc)))
  {
    RankingIsRanked(sc);
    RankingSound(sc);
    RankingComplete(sc);
    var m := Ranking(sc);
    var r := Indices(m);
    forall p, q | 0 <= p < q < |r|
      ensures r[p] != r[q] && sc[r[p]] >= sc[r[q]]
      ensures sc[r[p]] == sc[r[q]] ==> r[p] > r[q]
    {
      assert Before(m[p], m[q]);
      assert Scored(sc, m[p]) && Scored(sc, m[q]);
    }
  }

  /** `find_matches`: with `sc` the score of every entry, the result ranks
      `sc` — exactly the entries scoring above zero, each once, by
      non-increasing score, the later-declared first on a tie. */
  lemma FindMatchesSpec(s: Store, query: string, sc: seq<nat>)
    requires |sc| == |s.entries|
    requires forall i :: 0 <= i < |sc| ==> sc[i] == Score(s.entries[i], query)
    ensures IsRankingOf(sc, FindMatches(s, query))
  {
    assert ScoreAll(s.entries, query) == sc;
    RankSpec(sc);
  }

  /** Removing the head of a sequence removes one copy of it from its
      multiset. */
  lemma MultisetTail(a: seq<Match>)
    requires |a| > 0
    ensures multiset(a[1..]) == multiset(a) - multiset{a[0]}
  {
    assert a == [a[0]] + a[1..];
  }

  /** In a ranked sequence the head comes before every other element. */
  lemma RankedHeadFirst(a: seq<Match>, y: Match)
    requires Ranked(a) && |a| > 0 && y in multiset(a) && y != a[0]
    ensures Before(a[0], y)
  {
    var j :| 0 <= j < |a| && a[j] == y;
  }

  /** Two rankings of the same elements have the same length and start
      with the same element. */
  lemma RankedSameHead(a: seq<Match>, b: seq<Match>)
    requires Ranked(a) && Ranked(b) && multiset(a) == multiset(b)
    ensures |a| == |b|
    ensures |a| > 0 ==> a[0] == b[0]
  {
    assert |a| == |multiset(a)| == |b|;
    if |a| > 0 && a[0] != b[0] {
      assert b[0] in multiset(b);
      assert a[0] in multiset(a);
      RankedHeadFirst(a, b[0]);
      RankedHeadFirst(b, a[0]);
      assert false;
    }
  }

  /** Dropping a shared head from two rankings of the same elements leaves
      two rankings of the same elements. */
  lemma RankedTails(a: seq<Match>, b: seq<Match>)
    requires Ranked(a) && Ranked(b) && multiset(a) == multiset(b)
    requires |a| > 0 && |b| > 0 && a[0] == b[0]
    ensures Ranked(a[1..]) && Ranked(b[1..]) && multiset(a[1..]) == multiset(b[1..])
  {
    MultisetTail(a);
    MultisetTail(b);
    assert forall k :: 0 <= k < |a| - 1 ==> a[1..][k] == a[k + 1];
    assert forall k :: 0 <= k < |b| - 1 ==> b[1..][k] == b[k + 1];
  }

  /** A ranked sequence is determined by its elements: any stable sort of
      the latest-first list yields the same ranking. */
  lemma {:induction false} RankedUnique(a: seq<Match>, b: seq<Match>)
    requires Ranked(a) && Ranked(b) && multiset(a) == multiset(b)
    ensures a == b
    decreases |a|
  {
    RankedSameHead(a, b);
    if |a| > 0 {
      RankedTails(a, b);
      RankedUnique(a[1..], b[1..]);
      assert a == [a[0]] + a[1..] && b == [b[0]] + b[1..];
    }
  }

  // ------------------------------------------------------------ loading

  /** A parsed configuration document: the text either was not valid TOML,
      or parsed to something other than a table, or to a table of
      (entry name, value) pairs in document order. */
  datatype Document = Malformed(message: string) | NonTableDoc | TableDoc(items: seq<(string, Value)>)

  const NOT_A_TABLE: string := "Toml is not a Table"

  /** Converting every item, stopping at the first failure. */
  function BuildEntries(items: seq<(string, Value)>): (r: Result<seq<StoreEntry>, Error>)
    ensures r.Ok? <==> forall k :: 0 <= k < |items| ==> items[k].1.Converts?
    ensures r.Ok? ==> |r.value| == |items|
                      && forall k :: 0 <= k < |items| ==> Ok(r.value[k]) == FromValue(items[k].0, items[k].1)
    ensures r.Err? ==> exists k :: 0 <= k < |items| && items[k].1.Mistyped?
                                   && (forall j :: 0 <= j < k ==> items[j].1.Converts?)
                                   && r.error == FromValue(items[k].0, items[k].1).error
    decreases |items|
  {
    if |items| == 0 then Ok([])
    else
      match FromValue(items[0].0, items[0].1)
      case Err(e) => Err(e)
      case Ok(entry) =>
        match BuildEntries(items[1..])
        case Err(e) =>
          ghost var k :| 0 <= k < |items[1..]| && items[1..][k].1.Mistyped?
                         && (forall j :: 0 <= j < k ==> items[1..][j].1.Converts?)
                         && e == FromValue(items[1..][k].0, items[1..][k].1).error;
          assert items[k + 1] == items[1..][k];
          assert forall j :: 1 <= j < k + 1 ==> items[j] == items[1..][j - 1];
          Err(e)
        case Ok(rest) =>
          assert forall k :: 1 <= k < |items| ==> items[k] == items[1..][k - 1];
          var r := [entry] + rest;
          assert forall k :: 1 <= k < |items| ==> r[k] == rest[k - 1];
          Ok(r)
  }

  /** `parse_store`, starting from the parsed document. */
  function ParseStore(doc: Document): (r: Result<Store, Error>)
    ensures doc.Malformed? ==> r == Err(ParseError(doc.message))
    ensures doc.NonTableDoc? ==> r == Err(CustomError(NOT_A_TABLE))
    ensures doc.TableDoc? ==> (r.Ok? <==> BuildEntries(doc.items).Ok?)
    ensures doc.TableDoc? && r.Ok? ==> r.value.entries == BuildEntries(doc.items).value
    ensures doc.TableDoc? && r.Err? ==> r.error == BuildEntries(doc.items).error
  {
    match doc
    case Malformed(m) => Err(ParseError(m))
    case NonTableDoc => Err(CustomError(NOT_A_TABLE))
    case TableDoc(items) =>
      match BuildEntries(items)
      case Ok(entries) => Ok(Store(entries))
      case Err(e) => Err(e)
  }

  /** An empty document loads as a store with no entries. */
  lemma ParseEmpty()
    ensures ParseStore(TableDoc([])) == Ok(Store([]))
  {
  }
}
