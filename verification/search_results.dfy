/** The result list under the search box: the entry ids found for the
    current query, cut to the configured maximum, and a cursor moved with
    the Up and Down keys. */
module SearchResults {

  /** An entry id: the index of an entry in the store. */
  type EntryId = nat

  /** The keys the list reacts to; every other key is `OtherKey`. */
  datatype KeyCode = Up | Down | OtherKey(code: nat)

  /** A keyboard event; releases and modifier changes are `OtherEvent`. */
  datatype KeyboardEvent = KeyPressed(code: KeyCode) | OtherEvent(kind: nat)

  datatype SearchResults = SearchResults(entries: seq<EntryId>, selected: nat)

  /** The cursor points into the list, or the list is empty and the cursor
      is at 0. */
  predicate Valid(s: SearchResults) {
    if |s.entries| == 0 then s.selected == 0 else s.selected < |s.entries|
  }

  /** `SearchResults::new`: the first `maxResults` ids, in order, with the
      cursor on the first. */
  function New(results: seq<EntryId>, maxResults: nat): (r: SearchResults)
    ensures |r.entries| == if |results| < maxResults then |results| else maxResults
    ensures r.entries <= results
    ensures r.selected == 0
    ensures Valid(r)
  {
    var n := if |results| < maxResults then |results| else maxResults;
    SearchResults(results[..n], 0)
  }

  /** `SearchResults::selected`: the id under the cursor. The source indexes
      the list directly, so the list must not be empty. */
  function Selected(s: SearchResults): (r: EntryId)
    requires Valid(s) && |s.entries| > 0
    ensures r in s.entries
    ensures s.selected == 0 ==> r == s.entries[0]
  {
    s.entries[s.selected]
  }

  /** `SearchResults::entries`. */
  function Entries(s: SearchResults): seq<EntryId> {
    s.entries
  }

  /** `SearchResults::handle_kb`. */
  function HandleKb(s: SearchResults, ev: KeyboardEvent): (r: SearchResults)
    ensures r.entries == s.entries
    ensures Valid(s) ==> Valid(r)
    ensures !ev.KeyPressed? ==> r == s
    ensures ev.KeyPressed? && ev.code.OtherKey? ==> r == s
    ensures r.selected <= s.selected + 1 && r.selected + 1 >= s.selected
  {
    match ev
    case OtherEvent(_) => s
    case KeyPressed(code) =>
      if code == Up then
        if s.selected > 0 then s.(selected := s.selected - 1) else s
      else if code == Down then
        if s.selected + 1 < |s.entries| then s.(selected := s.selected + 1) else s
      else s
  }

  /** Up moves the cursor one place towards the top unless it is there. */
  lemma UpMovesTowardsTop(s: SearchResults)
    ensures HandleKb(s, KeyPressed(Up)).selected == if s.selected > 0 then s.selected - 1 else 0
  {
  }

  /** Down moves the cursor one place towards the bottom unless it is on
      the last entry. */
  lemma DownMovesTowardsBottom(s: SearchResults)
    requires Valid(s)
    ensures HandleKb(s, KeyPressed(Down)).selected ==
              if s.selected + 1 < |s.entries| then s.selected + 1 else s.selected
  {
  }

  /** Down then Up returns to the same entry unless Down was blocked at the
      bottom. */
  lemma DownThenUp(s: SearchResults)
    requires Valid(s) && s.selected + 1 < |s.entries|
    ensures HandleKb(HandleKb(s, KeyPressed(Down)), KeyPressed(Up)) == s
  {
  }

  /** Up then Down returns to the same entry unless Up was blocked at the
      top. */
  lemma UpThenDown(s: SearchResults)
    requires Valid(s) && s.selected > 0
    ensures HandleKb(HandleKb(s, KeyPressed(Up)), KeyPressed(Down)) == s
  {
  }

  function PressMany(s: SearchResults, code: KeyCode, n: nat): SearchResults
    decreases n
  {
    if n == 0 then s else PressMany(HandleKb(s, KeyPressed(code)), code, n - 1)
  }

  /** Pressing Down `n` times lands `n` places lower, stopping at the last
      entry; pressing Up `n` times lands `n` places higher, stopping at the
      first. */
  lemma {:induction false} PressManyClamps(s: SearchResults, n: nat)
    requires Valid(s) && |s.entries| > 0
    ensures PressMany(s, Down, n).selected ==
              if s.selected + n < |s.entries| then s.selected + n else |s.entries| - 1
    ensures PressMany(s, Up, n).selected == if s.selected >= n then s.selected - n else 0
    ensures PressMany(s, Down, n).entries == s.entries && PressMany(s, Up, n).entries == s.entries
    decreases n
  {
    if n > 0 {
      PressManyClamps(HandleKb(s, KeyPressed(Down)), n - 1);
      PressManyClamps(HandleKb(s, KeyPressed(Up)), n - 1);
    }
  }

  /** From a fresh list, one Down selects the second result when there is
      one. */
  lemma NewThenDown(results: seq<EntryId>, maxResults: nat)
    requires |results| >= 2 && maxResults >= 2
    ensures Selected(HandleKb(New(results, maxResults), KeyPressed(Down))) == results[1]
  {
  }
}
