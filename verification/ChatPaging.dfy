/** Chat history paging: the two limit + 1 queries (src/Database/DatabaseManager.cpp) and
    the client's "before the oldest loaded row" cursor (src/UI/DiscordBackend.cpp). */
module ChatPaging {
  import opened Basics

  datatype ChatMessage = ChatMessage(
    id: int, channelId: int, uuid: string, username: string, message: string, timestamp: int)

  datatype Cursor = Newest | Before(timestamp: int)

  // ---- The queries ------------------------------------------------------------

  function Candidates(table: set<ChatMessage>, channelId: int, cursor: Cursor): set<ChatMessage> {
    set m | m in table && m.channelId == channelId && (cursor.Before? ==> m.timestamp < cursor.timestamp)
  }

  predicate NoDuplicates(rows: seq<ChatMessage>) {
    forall i, j :: 0 <= i < j < |rows| ==> rows[i] != rows[j]
  }

  predicate Ascending(rows: seq<ChatMessage>) {
    forall i, j :: 0 <= i < j < |rows| ==> rows[i].timestamp <= rows[j].timestamp
  }

  function Rows(rows: seq<ChatMessage>): set<ChatMessage> { set m | m in rows }

  /** Nothing outside the rows is newer than anything in them. */
  predicate NewestOf(candidates: set<ChatMessage>, rows: seq<ChatMessage>) {
    && Rows(rows) <= candidates
    && (forall m <- candidates, r <- rows :: m !in rows ==> m.timestamp <= r.timestamp)
  }

  /** ORDER BY timestamp DESC LIMIT n, listed ascending; rows with equal timestamps may be
      ordered and cut in any way. */
  ghost predicate Selects(candidates: set<ChatMessage>, n: nat, rows: seq<ChatMessage>) {
    && NoDuplicates(rows) && Ascending(rows) && NewestOf(candidates, rows)
    && |rows| <= n && (|rows| < n ==> Rows(rows) == candidates)
  }

  datatype Page = Page(rows: seq<ChatMessage>, hasMore: bool)

  /** One page: at most `limit` newest candidates, and hasMore exactly when any is left. */
  ghost predicate IsPage(candidates: set<ChatMessage>, limit: nat, page: Page) {
    && NoDuplicates(page.rows) && Ascending(page.rows) && NewestOf(candidates, page.rows)
    && |page.rows| <= limit
    && (page.hasMore <==> Rows(page.rows) != candidates)
    && (page.hasMore ==> |page.rows| == limit)
  }

  /** Both fetches: copy the limit + 1 selected rows out, then drop the extra oldest one. */
  method FetchPage(ghost candidates: set<ChatMessage>, selected: seq<ChatMessage>, limit: nat)
    returns (history: seq<ChatMessage>, hasMore: bool)
    requires Selects(candidates, limit + 1, selected)
    ensures IsPage(candidates, limit, Page(history, hasMore))
  {
    history := [];
    hasMore := false;
    for i := 0 to |selected|
      invariant history == selected[..i]
    {
      history := history + [selected[i]];
    }
    if |history| > limit {
      hasMore := true;
      history := history[1..];
    }
    assert selected[..|selected|] == selected;
    assert Page(history, hasMore) == PageOf(selected, limit);
    DropOldestIsPage(candidates, selected, limit);
  }

  function PageOf(selected: seq<ChatMessage>, limit: nat): Page {
    if |selected| > limit then Page(selected[1..], true) else Page(selected, false)
  }

  lemma DropOldestIsPage(candidates: set<ChatMessage>, selected: seq<ChatMessage>, limit: nat)
    requires Selects(candidates, limit + 1, selected)
    ensures IsPage(candidates, limit, PageOf(selected, limit))
  {
    if |selected| > limit {
      var rest := selected[1..];
      assert selected == [selected[0]] + rest;
      assert selected[0] in candidates && selected[0] !in rest by {
        assert selected[0] in Rows(selected);
      }
      forall m <- candidates, r <- rest | m !in rest ensures m.timestamp <= r.timestamp {
        assert r in selected;
      }
      assert Rows(rest) <= Rows(selected);
    }
  }

  // ---- A client that keeps asking for older pages ------------------------------

  /** The cursor of the next request: the oldest loaded row. */
  function Oldest(page: Page): int {
    if page.rows == [] then 0 else page.rows[0].timestamp
  }

  /** The client asks again while the server reported more and its cursor is positive. */
  predicate AsksAgain(page: Page) {
    page.hasMore && Oldest(page) > 0
  }

  function CursorFor(pages: seq<Page>): Cursor {
    if pages == [] then Newest else Before(Oldest(pages[|pages| - 1]))
  }

  /** The pages of one channel in the order they were fetched, newest page first. */
  ghost predicate IsPaging(table: set<ChatMessage>, channelId: int, limit: nat, pages: seq<Page>) {
    pages != [] ==>
      var before, last := pages[..|pages| - 1], pages[|pages| - 1];
      && IsPaging(table, channelId, limit, before)
      && (before != [] ==> AsksAgain(before[|before| - 1]))
      && IsPage(Candidates(table, channelId, CursorFor(before)), limit, last)
  }

  /** Every older page goes in front of what is loaded. */
  function Loaded(pages: seq<Page>): seq<ChatMessage> {
    if pages == [] then [] else pages[|pages| - 1].rows + Loaded(pages[..|pages| - 1])
  }

  ghost predicate Finished(pages: seq<Page>) {
    pages != [] && !AsksAgain(pages[|pages| - 1])
  }

  predicate DistinctTimes(messages: set<ChatMessage>) {
    forall m <- messages, n <- messages :: m.timestamp == n.timestamp ==> m == n
  }

  predicate PositiveTimes(messages: set<ChatMessage>) {
    forall m <- messages :: m.timestamp > 0
  }

  ghost function Channel(table: set<ChatMessage>, channelId: int): set<ChatMessage> {
    Candidates(table, channelId, Newest)
  }

  // ---- What holds whatever the ties --------------------------------------------

  /** What the next page may contain is older than everything loaded, and hasMore of the
      latest page still tells whether the channel has anything at or below its cursor. */
  ghost predicate PagingInv(table: set<ChatMessage>, channelId: int, limit: nat, pages: seq<Page>) {
    && NoDuplicates(Loaded(pages)) && Ascending(Loaded(pages))
    && Rows(Loaded(pages)) <= Channel(table, channelId)
    && (pages != [] ==>
          && Rows(pages[|pages| - 1].rows) <= Rows(Loaded(pages))
          && (pages[|pages| - 1].rows != [] ==> forall m <- Loaded(pages) :: Oldest(pages[|pages| - 1]) <= m.timestamp))
  }

  lemma PrependPage(older: seq<ChatMessage>, loaded: seq<ChatMessage>)
    requires NoDuplicates(older) && NoDuplicates(loaded) && Ascending(older) && Ascending(loaded)
    requires forall m <- older, n <- loaded :: m.timestamp < n.timestamp
    ensures NoDuplicates(older + loaded) && Ascending(older + loaded)
    ensures Rows(older + loaded) == Rows(older) + Rows(loaded)
    ensures older != [] ==> forall m <- older + loaded :: older[0].timestamp <= m.timestamp
  {
    forall i, j | 0 <= i < j < |older + loaded|
      ensures (older + loaded)[i] != (older + loaded)[j]
      ensures (older + loaded)[i].timestamp <= (older + loaded)[j].timestamp
    {
      if i < |older| <= j {
        assert older[i] in older && loaded[j - |older|] in loaded;
      }
    }
    if older != [] {
      assert older[0] in older;
    }
  }

  lemma {:induction false} PagingNeverRepeats(table: set<ChatMessage>, channelId: int, limit: nat, pages: seq<Page>)
    requires limit >= 1 && IsPaging(table, channelId, limit, pages)
    ensures PagingInv(table, channelId, limit, pages)
  {
    if pages != [] {
      var before, last := pages[..|pages| - 1], pages[|pages| - 1];
      PagingNeverRepeats(table, channelId, limit, before);
      forall m <- last.rows, n <- Loaded(before) ensures m.timestamp < n.timestamp {
        assert m in Rows(last.rows) && before != [];
        assert before[|before| - 1].rows != [];
      }
      PrependPage(last.rows, Loaded(before));
    }
  }

  /** Paging comes to an end: every page that promises more holds exactly `limit` rows
      that no other page holds. */
  lemma {:induction false} PagingIsBounded(table: set<ChatMessage>, channelId: int, limit: nat, pages: seq<Page>)
    requires limit >= 1 && IsPaging(table, channelId, limit, pages)
    ensures limit * (|pages| - 1) <= |Channel(table, channelId)|
  {
    PagingNeverRepeats(table, channelId, limit, pages);
    LoadedSize(table, channelId, limit, pages);
    SizeOfRows(Loaded(pages));
    SubsetSize(Rows(Loaded(pages)), Channel(table, channelId));
  }

  lemma OneMore(limit: nat, n: int)
    ensures limit * (n + 1) == limit * n + limit
  {}

  lemma {:induction false} LoadedSize(table: set<ChatMessage>, channelId: int, limit: nat, pages: seq<Page>)
    requires limit >= 1 && IsPaging(table, channelId, limit, pages)
    ensures |Loaded(pages)| >= limit * (|pages| - 1)
    ensures pages != [] && pages[|pages| - 1].hasMore ==> |Loaded(pages)| >= limit * |pages|
  {
    if pages != [] {
      var before, last := pages[..|pages| - 1], pages[|pages| - 1];
      LoadedSize(table, channelId, limit, before);
      OneMore(limit, |before|);
      assert |Loaded(pages)| == |last.rows| + |Loaded(before)|;
      assert before != [] ==> |Loaded(before)| >= limit * |before|;
    }
  }

  lemma {:induction false} SizeOfRows(rows: seq<ChatMessage>)
    requires NoDuplicates(rows)
    ensures |Rows(rows)| == |rows|
  {
    if rows != [] {
      SizeOfRows(rows[1..]);
      assert rows == [rows[0]] + rows[1..];
      assert Rows(rows) == {rows[0]} + Rows(rows[1..]);
    }
  }

  // ---- Completeness -----------------------------------------------------------

  /** Distinct times leave nothing to cut. */
  lemma DistinctTimesAreNotCut(channel: set<ChatMessage>, limit: nat)
    requires DistinctTimes(channel)
    ensures !SomeTieIsCut(channel, limit)
  {
    forall t, k ensures !Cuts(channel, limit, t, k) {
      var newer, tied := Newer(channel, t), NotOlder(channel, t) - Newer(channel, t);
      assert forall m <- tied, n <- tied :: m.timestamp == n.timestamp;
      AtMostOne(tied);
      assert NotOlder(channel, t) == newer + tied;
    }
  }

  lemma AtMostOne(s: set<ChatMessage>)
    requires forall m <- s, n <- s :: m == n
    ensures |s| <= 1
  {
    if s != {} {
      var m :| m in s;
      assert s == {m};
    }
  }

  /** With distinct times, what is not loaded is exactly what the next page may show. */
  lemma NothingIsSkipped(table: set<ChatMessage>, channelId: int, limit: nat, pages: seq<Page>)
    requires limit >= 1 && IsPaging(table, channelId, limit, pages)
    requires DistinctTimes(Channel(table, channelId))
    ensures pages != [] && pages[|pages| - 1].hasMore ==> RestIsNext(table, channelId, pages)
    ensures pages != [] && !pages[|pages| - 1].hasMore ==> Rows(Loaded(pages)) == Channel(table, channelId)
  {
    DistinctTimesAreNotCut(Channel(table, channelId), limit);
    NothingIsCutOff(table, channelId, limit, pages);
  }

  /** With distinct positive timestamps, for any limit, paging until it stops loads the
      whole channel, each message once, oldest first. */
  lemma PagingIsComplete(table: set<ChatMessage>, channelId: int, limit: nat, pages: seq<Page>)
    requires limit >= 1 && IsPaging(table, channelId, limit, pages) && Finished(pages)
    requires DistinctTimes(Channel(table, channelId)) && PositiveTimes(Channel(table, channelId))
    ensures Rows(Loaded(pages)) == Channel(table, channelId)
    ensures NoDuplicates(Loaded(pages)) && Ascending(Loaded(pages))
  {
    PagingNeverRepeats(table, channelId, limit, pages);
    NothingIsSkipped(table, channelId, limit, pages);
    var last := pages[|pages| - 1];
    assert last.rows != [] ==> last.rows[0] in Rows(last.rows);
  }

  // ---- Exactly when -----------------------------------------------------------

  lemma OldestOf(s: set<ChatMessage>) returns (m: ChatMessage)
    requires s != {}
    ensures m in s && forall n <- s :: m.timestamp <= n.timestamp
    decreases s
  {
    m :| m in s;
    if s != {m} {
      var n := OldestOf(s - {m});
      if n.timestamp < m.timestamp {
        m := n;
      }
    }
  }

  /** Any set of messages can be listed in ascending order. */
  lemma {:induction false} Listing(s: set<ChatMessage>) returns (rows: seq<ChatMessage>)
    ensures NoDuplicates(rows) && Ascending(rows) && Rows(rows) == s
    decreases s
  {
    rows := [];
    if s != {} {
      var m := OldestOf(s);
      var rest := Listing(s - {m});
      assert m !in rest && forall r <- rest :: r in s by {
        assert forall r <- rest :: r in Rows(rest);
      }
      rows := [m] + rest;
      assert Rows(rows) == {m} + Rows(rest);
    }
  }

  /** Some selection always exists, so the paging theorems are about something. */
  lemma PageExists(candidates: set<ChatMessage>, limit: nat) returns (page: Page)
    ensures IsPage(candidates, limit, page)
  {
    var all := Listing(candidates);
    var selected := if |all| <= limit + 1 then all else all[|all| - (limit + 1)..];
    assert Selects(candidates, limit + 1, selected) by {
      SuffixIsNewest(candidates, all, |all| - |selected|);
    }
    DropOldestIsPage(candidates, selected, limit);
    page := PageOf(selected, limit);
  }

  lemma SuffixIsNewest(candidates: set<ChatMessage>, all: seq<ChatMessage>, from: nat)
    requires NoDuplicates(all) && Ascending(all) && Rows(all) == candidates && from <= |all|
    ensures NoDuplicates(all[from..]) && Ascending(all[from..]) && NewestOf(candidates, all[from..])
  {
    var rows := all[from..];
    assert forall j :: 0 <= j < |rows| ==> rows[j] == all[from + j];
    forall m <- rows ensures m in candidates {
      assert m in all;
    }
    forall m <- candidates, r <- rows | m !in rows ensures m.timestamp <= r.timestamp {
      assert m in Rows(all);
      NotInSuffix(all, from, m, r);
    }
  }

  lemma NotInSuffix(all: seq<ChatMessage>, from: nat, m: ChatMessage, r: ChatMessage)
    requires Ascending(all) && from <= |all| && m in all && m !in all[from..] && r in all[from..]
    ensures m.timestamp <= r.timestamp
  {
    var i :| 0 <= i < |all| && all[i] == m;
    var j :| 0 <= j < |all[from..]| && all[from..][j] == r;
    assert forall k :: from <= k < |all| ==> all[from..][k - from] == all[k];
    assert all[from + j] == r;
  }

  lemma NextPage(table: set<ChatMessage>, channelId: int, limit: nat, pages: seq<Page>) returns (page: Page)
    requires IsPaging(table, channelId, limit, pages) && (pages != [] ==> AsksAgain(pages[|pages| - 1]))
    ensures IsPaging(table, channelId, limit, pages + [page])
  {
    page := PageExists(Candidates(table, channelId, CursorFor(pages)), limit);
    assert (pages + [page])[..|pages|] == pages;
  }

  lemma FewPages(table: set<ChatMessage>, channelId: int, limit: nat, pages: seq<Page>)
    requires limit >= 1 && IsPaging(table, channelId, limit, pages)
    ensures |pages| <= |Channel(table, channelId)| + 1
  {
    PagingIsBounded(table, channelId, limit, pages);
    AtMost(limit, |pages| - 1, |Channel(table, channelId)|);
  }

  lemma AtMost(limit: nat, n: int, bound: nat)
    requires limit >= 1 && limit * n <= bound
    ensures n <= bound
  {
    assert n >= 0 ==> limit * n == n + (limit - 1) * n >= n;
  }

  /** Every paging can be carried on until it stops, keeping the pages it has. */
  lemma {:induction false} CarryOn(table: set<ChatMessage>, channelId: int, limit: nat, pages: seq<Page>, fuel: nat)
    returns (more: seq<Page>)
    requires limit >= 1 && pages != [] && IsPaging(table, channelId, limit, pages)
    requires fuel == |Channel(table, channelId)| + 1 - |pages|
    ensures IsPaging(table, channelId, limit, more) && Finished(more) && pages <= more
    decreases fuel
  {
    more := pages;
    if AsksAgain(pages[|pages| - 1]) {
      var page := NextPage(table, channelId, limit, pages);
      FewPages(table, channelId, limit, pages + [page]);
      more := CarryOn(table, channelId, limit, pages + [page], fuel - 1);
    }
  }

  /** What a page cut out of a tie is out of reach for the pages after it. */
  lemma {:induction false} LaterPagesAreOlder(table: set<ChatMessage>, channelId: int, limit: nat, pages: seq<Page>,
                                              n: nat, m: ChatMessage)
    requires limit >= 1 && IsPaging(table, channelId, limit, pages) && 1 <= n <= |pages|
    requires m !in Loaded(pages[..n]) && pages[n - 1].rows != [] && m.timestamp >= Oldest(pages[n - 1])
    ensures m !in Loaded(pages)
    ensures pages[|pages| - 1].rows != [] ==> m.timestamp >= Oldest(pages[|pages| - 1])
  {
    if n < |pages| {
      var before, last := pages[..|pages| - 1], pages[|pages| - 1];
      assert before[..n] == pages[..n];
      LaterPagesAreOlder(table, channelId, limit, before, n, m);
      assert before[|before| - 1].rows != [];
      forall r <- last.rows ensures r.timestamp < m.timestamp {
        assert r in Rows(last.rows);
      }
    } else {
      assert pages[..n] == pages;
    }
  }

  /** A page that ends inside a tie: everything newer than the tied pair, and one of it. */
  lemma TieIsCut(table: set<ChatMessage>, channelId: int, a: ChatMessage, b: ChatMessage)
    returns (limit: nat, page: Page)
    requires a in Channel(table, channelId) && b in Channel(table, channelId)
    requires a != b && a.timestamp == b.timestamp
    ensures limit >= 1 && IsPaging(table, channelId, limit, [page])
    ensures b !in page.rows && page.rows != [] && Oldest(page) == b.timestamp
  {
    var all := Channel(table, channelId);
    var newer := set m | m in all && m.timestamp > a.timestamp;
    var rows := Listing(newer);
    assert forall r <- rows :: r in Rows(rows);
    PrependPage([a], rows);
    page := Page([a] + rows, true);
    limit := |rows| + 1;
    assert Rows(page.rows) == {a} + newer;
    assert b !in Rows(page.rows) && b in all;
    forall m <- all, r <- page.rows | m !in page.rows ensures m.timestamp <= r.timestamp {
      assert m !in Rows(page.rows) && r in Rows(page.rows);
    }
    assert [page][..0] == [];
    assert IsPage(Candidates(table, channelId, CursorFor([])), limit, page);
  }

  ghost predicate CompleteForEveryLimit(table: set<ChatMessage>, channelId: int) {
    forall limit: nat, pages ::
      limit >= 1 && IsPaging(table, channelId, limit, pages) && Finished(pages) ==>
        Rows(Loaded(pages)) == Channel(table, channelId)
  }

  /** A tie is loaded in part by a paging that begins with the page that cuts it. */
  lemma TieIsIncomplete(table: set<ChatMessage>, channelId: int, a: ChatMessage, b: ChatMessage)
    returns (limit: nat, pages: seq<Page>)
    requires a in Channel(table, channelId) && b in Channel(table, channelId)
    requires a != b && a.timestamp == b.timestamp
    ensures limit >= 1 && IsPaging(table, channelId, limit, pages) && Finished(pages)
    ensures b !in Rows(Loaded(pages))
  {
    var page;
    limit, page := TieIsCut(table, channelId, a, b);
    FewPages(table, channelId, limit, [page]);
    pages := CarryOn(table, channelId, limit, [page], |Channel(table, channelId)|);
    assert pages[..1] == [page] && Loaded([page]) == page.rows;
    LaterPagesAreOlder(table, channelId, limit, pages, 1, b);
  }

  lemma TiesAreIncomplete(table: set<ChatMessage>, channelId: int)
    requires !DistinctTimes(Channel(table, channelId))
    ensures !CompleteForEveryLimit(table, channelId)
  {
    var channel := Channel(table, channelId);
    var a, b :| a in channel && b in channel && a.timestamp == b.timestamp && a != b;
    var limit, pages := TieIsIncomplete(table, channelId, a, b);
    assert Rows(Loaded(pages)) != channel;
  }

  /** Paging is complete, for every page size and every way ties may be cut, exactly when
      the channel's timestamps are distinct. */
  lemma CompleteExactlyWhenTimesAreDistinct(table: set<ChatMessage>, channelId: int)
    requires PositiveTimes(Channel(table, channelId))
    ensures CompleteForEveryLimit(table, channelId) <==> DistinctTimes(Channel(table, channelId))
  {
    if DistinctTimes(Channel(table, channelId)) {
      forall limit: nat, pages | limit >= 1 && IsPaging(table, channelId, limit, pages) && Finished(pages)
        ensures Rows(Loaded(pages)) == Channel(table, channelId)
      {
        PagingIsComplete(table, channelId, limit, pages);
      }
    } else {
      TiesAreIncomplete(table, channelId);
    }
  }

  // ---- One page size ------------------------------------------------------------

  ghost function Newer(s: set<ChatMessage>, t: int): set<ChatMessage> { set m | m in s && m.timestamp > t }
  ghost function NotOlder(s: set<ChatMessage>, t: int): set<ChatMessage> { set m | m in s && m.timestamp >= t }

  /** The k-th page ends between messages that share the time t. */
  ghost predicate Cuts(s: set<ChatMessage>, limit: nat, t: int, k: nat) {
    k >= 1 && |Newer(s, t)| < k * limit < |NotOlder(s, t)|
  }

  ghost predicate SomeTieIsCut(s: set<ChatMessage>, limit: nat) {
    exists t, k :: Cuts(s, limit, t, k)
  }

  lemma {:induction false} LoadedAtMost(table: set<ChatMessage>, channelId: int, limit: nat, pages: seq<Page>)
    requires IsPaging(table, channelId, limit, pages)
    ensures |Loaded(pages)| <= limit * |pages|
  {
    if pages != [] {
      var before := pages[..|pages| - 1];
      LoadedAtMost(table, channelId, limit, before);
      OneMore(limit, |before|);
    }
  }

  lemma {:induction false} PrefixIsPaging(table: set<ChatMessage>, channelId: int, limit: nat, pages: seq<Page>, n: nat)
    requires IsPaging(table, channelId, limit, pages) && n <= |pages|
    ensures IsPaging(table, channelId, limit, pages[..n])
    ensures 0 < n < |pages| ==> AsksAgain(pages[n - 1])
  {
    if n < |pages| {
      var before := pages[..|pages| - 1];
      PrefixIsPaging(table, channelId, limit, before, n);
      assert before[..n] == pages[..n];
    } else {
      assert pages[..n] == pages;
    }
  }

  /** After pages that all promise more, exactly a page's worth each is loaded. */
  lemma FullPages(table: set<ChatMessage>, channelId: int, limit: nat, pages: seq<Page>)
    requires limit >= 1 && IsPaging(table, channelId, limit, pages) && pages != []
    requires pages[|pages| - 1].hasMore
    ensures |Rows(Loaded(pages))| == |pages| * limit
  {
    PagingNeverRepeats(table, channelId, limit, pages);
    SizeOfRows(Loaded(pages));
    LoadedSize(table, channelId, limit, pages);
    LoadedAtMost(table, channelId, limit, pages);
  }

  lemma SameSize(s: set<ChatMessage>, t: set<ChatMessage>)
    requires s <= t && |t| <= |s|
    ensures s == t
  {
    SubsetSize(t - s, t);
    assert t == s + (t - s);
  }

  /** Everything newer than the oldest row is loaded, and nothing older than it. */
  lemma LoadedLiesBetween(channel: set<ChatMessage>, loaded: set<ChatMessage>, limit: nat, k: nat, oldest: ChatMessage)
    requires loaded <= NotOlder(channel, oldest.timestamp) && Newer(channel, oldest.timestamp) <= loaded
    requires oldest in loaded && |loaded| == k * limit && k >= 1
    requires !Cuts(channel, limit, oldest.timestamp, k)
    ensures loaded == NotOlder(channel, oldest.timestamp)
  {
    var newer := Newer(channel, oldest.timestamp);
    SubsetSize(newer, loaded - {oldest});
    assert |loaded - {oldest}| < |loaded|;
    SameSize(loaded, NotOlder(channel, oldest.timestamp));
  }

  /** What is not loaded is exactly what the next page may show. */
  ghost predicate RestIsNext(table: set<ChatMessage>, channelId: int, pages: seq<Page>) {
    Channel(table, channelId) - Rows(Loaded(pages)) == Candidates(table, channelId, CursorFor(pages))
  }

  lemma NewerIsShown(channel: set<ChatMessage>, loaded: set<ChatMessage>, shown: set<ChatMessage>,
                     rows: seq<ChatMessage>)
    requires NewestOf(shown, rows) && rows != [] && channel - shown <= loaded && Rows(rows) <= loaded
    ensures Newer(channel, rows[0].timestamp) <= loaded
  {
    forall m <- Newer(channel, rows[0].timestamp) ensures m in loaded {
      assert rows[0] in rows;
      assert m in shown ==> m in rows;
      assert m in rows ==> m in Rows(rows);
    }
  }

  lemma LoadedIsNotOlder(table: set<ChatMessage>, channelId: int, limit: nat, pages: seq<Page>, oldest: ChatMessage)
    requires limit >= 1 && IsPaging(table, channelId, limit, pages) && pages != []
    requires pages[|pages| - 1].rows != [] && pages[|pages| - 1].rows[0] == oldest
    ensures Rows(Loaded(pages)) <= NotOlder(Channel(table, channelId), oldest.timestamp)
    ensures oldest in Rows(Loaded(pages))
  {
    PagingNeverRepeats(table, channelId, limit, pages);
    assert oldest in Rows(pages[|pages| - 1].rows);
  }

  lemma FullPageEndsOutsideTies(table: set<ChatMessage>, channelId: int, limit: nat, pages: seq<Page>,
                                before: seq<Page>, shown: set<ChatMessage>)
    requires limit >= 1 && IsPaging(table, channelId, limit, pages) && pages != []
    requires !SomeTieIsCut(Channel(table, channelId), limit)
    requires pages[|pages| - 1].hasMore && NewestOf(shown, pages[|pages| - 1].rows)
    requires Rows(Loaded(pages)) == Rows(pages[|pages| - 1].rows) + Rows(Loaded(before))
    requires shown == Channel(table, channelId) - Rows(Loaded(before))
    ensures RestIsNext(table, channelId, pages)
  {
    var rows := pages[|pages| - 1].rows;
    var channel, loaded := Channel(table, channelId), Rows(Loaded(pages));
    FullPages(table, channelId, limit, pages);
    NewerIsShown(channel, loaded, shown, rows);
    LoadedIsNotOlder(table, channelId, limit, pages, rows[0]);
    assert !Cuts(channel, limit, rows[0].timestamp, |pages|);
    LoadedLiesBetween(channel, loaded, limit, |pages|, rows[0]);
    RestIsOlderThan(table, channelId, loaded, rows[0].timestamp);
  }

  lemma RestIsOlderThan(table: set<ChatMessage>, channelId: int, loaded: set<ChatMessage>, t: int)
    requires loaded == NotOlder(Channel(table, channelId), t)
    ensures Channel(table, channelId) - loaded == Candidates(table, channelId, Before(t))
  {}

  lemma RowsOfLoaded(pages: seq<Page>)
    requires pages != []
    ensures Rows(Loaded(pages)) == Rows(pages[|pages| - 1].rows) + Rows(Loaded(pages[..|pages| - 1]))
  {}

  lemma PageAfterRest(table: set<ChatMessage>, channelId: int, limit: nat, pages: seq<Page>, before: seq<Page>)
    requires limit >= 1 && IsPaging(table, channelId, limit, pages) && pages != []
    requires before == pages[..|pages| - 1] && RestIsNext(table, channelId, before)
    requires !SomeTieIsCut(Channel(table, channelId), limit)
    ensures if pages[|pages| - 1].hasMore then RestIsNext(table, channelId, pages)
            else Rows(Loaded(pages)) == Channel(table, channelId)
  {
    RowsOfLoaded(pages);
    if pages[|pages| - 1].hasMore {
      FullPageEndsOutsideTies(table, channelId, limit, pages, before,
                              Candidates(table, channelId, CursorFor(before)));
    } else {
      PagingNeverRepeats(table, channelId, limit, pages);
    }
  }

  /** When no page ends inside a tie, paging skips nothing. */
  lemma {:induction false} NothingIsCutOff(table: set<ChatMessage>, channelId: int, limit: nat, pages: seq<Page>)
    requires limit >= 1 && IsPaging(table, channelId, limit, pages)
    requires !SomeTieIsCut(Channel(table, channelId), limit)
    ensures pages == [] || pages[|pages| - 1].hasMore ==> RestIsNext(table, channelId, pages)
    ensures pages != [] && !pages[|pages| - 1].hasMore ==> Rows(Loaded(pages)) == Channel(table, channelId)
  {
    if pages == [] {
      assert Rows(Loaded(pages)) == {};
    } else {
      NothingIsCutOff(table, channelId, limit, pages[..|pages| - 1]);
      PageAfterRest(table, channelId, limit, pages, pages[..|pages| - 1]);
    }
  }

  /** A paging that loads everything has more than k pages when k pages are too few. */
  lemma MorePages(table: set<ChatMessage>, channelId: int, limit: nat, pages: seq<Page>, k: nat)
    requires limit >= 1 && IsPaging(table, channelId, limit, pages)
    requires Rows(Loaded(pages)) == Channel(table, channelId) && k * limit < |Channel(table, channelId)|
    ensures k < |pages|
  {
    PagingNeverRepeats(table, channelId, limit, pages);
    SizeOfRows(Loaded(pages));
    LoadedAtMost(table, channelId, limit, pages);
    Fewer(limit, k, |pages|);
  }

  /** The first k pages of a paging that loads everything hold all messages from their
      oldest on. */
  lemma BoundaryOfPage(table: set<ChatMessage>, channelId: int, limit: nat, pages: seq<Page>, k: nat)
    requires limit >= 1 && IsPaging(table, channelId, limit, pages) && 1 <= k < |pages|
    requires Rows(Loaded(pages)) == Channel(table, channelId)
    ensures IsPaging(table, channelId, limit, pages[..k]) && AsksAgain(pages[k - 1]) && pages[k - 1].rows != []
    ensures Rows(Loaded(pages[..k])) == NotOlder(Channel(table, channelId), Oldest(pages[k - 1]))
  {
    PrefixIsPaging(table, channelId, limit, pages, k);
    assert pages[..k][..k - 1] == pages[..k - 1];
    LoadedIsNotOlder(table, channelId, limit, pages[..k], pages[k - 1].rows[0]);
    forall m <- NotOlder(Channel(table, channelId), Oldest(pages[k - 1])) ensures m in Rows(Loaded(pages[..k])) {
      assert m in Rows(Loaded(pages));
      if m !in Loaded(pages[..k]) {
        LaterPagesAreOlder(table, channelId, limit, pages, k, m);
      }
    }
  }

  /** When the k-th page ends inside a tie, no paging has loaded everything. */
  lemma CutTieIsNotLoaded(table: set<ChatMessage>, channelId: int, limit: nat, pages: seq<Page>, t: int, k: nat)
    requires limit >= 1 && IsPaging(table, channelId, limit, pages)
    requires Cuts(Channel(table, channelId), limit, t, k)
    ensures Rows(Loaded(pages)) != Channel(table, channelId)
  {
    var channel := Channel(table, channelId);
    if Rows(Loaded(pages)) == channel {
      SubsetSize(NotOlder(channel, t), channel);
      MorePages(table, channelId, limit, pages, k);
      BoundaryOfPage(table, channelId, limit, pages, k);
      FullPages(table, channelId, limit, pages[..k]);
      BoundaryIsNoTie(channel, Rows(Loaded(pages[..k])), limit, t, k, Oldest(pages[k - 1]));
    }
  }

  lemma Fewer(limit: nat, k: nat, n: nat)
    ensures k >= n ==> k * limit >= limit * n
  {
    assert k >= n ==> k * limit == n * limit + (k - n) * limit;
  }

  lemma BoundaryIsNoTie(channel: set<ChatMessage>, loaded: set<ChatMessage>, limit: nat, t: int, k: nat, oldest: int)
    requires loaded == NotOlder(channel, oldest) && |loaded| == k * limit
    ensures !Cuts(channel, limit, t, k)
  {
    if t >= oldest {
      SubsetSize(NotOlder(channel, t), loaded);
    } else {
      SubsetSize(loaded, Newer(channel, t));
    }
  }

  /** For each page size by itself: a paging that stops has loaded the whole channel exactly
      when no page boundary falls between messages that share a time. */
  lemma CompleteExactlyWhenNoTieIsCut(table: set<ChatMessage>, channelId: int, limit: nat, pages: seq<Page>)
    requires limit >= 1 && IsPaging(table, channelId, limit, pages) && Finished(pages)
    requires PositiveTimes(Channel(table, channelId))
    ensures Rows(Loaded(pages)) == Channel(table, channelId) <==> !SomeTieIsCut(Channel(table, channelId), limit)
  {
    var channel := Channel(table, channelId);
    if SomeTieIsCut(channel, limit) {
      var t, k :| Cuts(channel, limit, t, k);
      CutTieIsNotLoaded(table, channelId, limit, pages, t, k);
    } else {
      NothingIsCutOff(table, channelId, limit, pages);
      PagingNeverRepeats(table, channelId, limit, pages);
      var last := pages[|pages| - 1];
      assert last.rows != [] ==> last.rows[0] in Rows(last.rows);
    }
  }

  // ---- Messages that arrive between the pages -------------------------------------

  /** The pages of a channel whose table may have changed before each of them. */
  ghost predicate IsLivePaging(tables: seq<set<ChatMessage>>, channelId: int, limit: nat, pages: seq<Page>) {
    && |tables| == |pages|
    && (pages != [] ==>
          var before, last := pages[..|pages| - 1], pages[|pages| - 1];
          && IsLivePaging(tables[..|pages| - 1], channelId, limit, before)
          && (before != [] ==> AsksAgain(before[|before| - 1]))
          && IsPage(Candidates(tables[|pages| - 1], channelId, CursorFor(before)), limit, last))
  }

  /** The channel gained messages no older than those it had. */
  ghost predicate Gained(first: set<ChatMessage>, table: set<ChatMessage>, channelId: int) {
    && Channel(first, channelId) <= Channel(table, channelId)
    && (forall m <- Channel(table, channelId), n <- Channel(first, channelId) ::
          m !in Channel(first, channelId) ==> m.timestamp >= n.timestamp)
  }

  lemma GainedOutOfReach(first: set<ChatMessage>, table: set<ChatMessage>, channelId: int, n: ChatMessage)
    requires Gained(first, table, channelId) && n in Channel(first, channelId)
    ensures Candidates(table, channelId, Before(n.timestamp)) == Candidates(first, channelId, Before(n.timestamp))
  {
    forall m <- Candidates(table, channelId, Before(n.timestamp)) ensures m in Channel(first, channelId) {
      assert m in Channel(table, channelId);
    }
  }

  /** Messages that arrive while the client pages do not disturb it: its pages are a paging
      of the channel as it was at the first of them. */
  lemma {:induction false} LivePagingIsPaging(first: set<ChatMessage>, tables: seq<set<ChatMessage>>, channelId: int,
                                              limit: nat, pages: seq<Page>)
    requires limit >= 1 && IsLivePaging(tables, channelId, limit, pages)
    requires forall table <- tables :: Gained(first, table, channelId)
    requires tables != [] ==> Channel(tables[0], channelId) == Channel(first, channelId)
    ensures IsPaging(first, channelId, limit, pages)
  {
    if pages != [] {
      var before := pages[..|pages| - 1];
      LivePagingIsPaging(first, tables[..|pages| - 1], channelId, limit, before);
      if before != [] {
        PagingNeverRepeats(first, channelId, limit, before);
        var oldest := before[|before| - 1].rows[0];
        assert oldest in Rows(before[|before| - 1].rows);
        GainedOutOfReach(first, tables[|pages| - 1], channelId, oldest);
      }
    }
  }

  /** So a client that pages until it stops, while the channel goes on, has loaded all that
      was there at the first page exactly when no page boundary falls inside a tie. */
  lemma CompleteDespiteNewMessages(tables: seq<set<ChatMessage>>, channelId: int, limit: nat, pages: seq<Page>)
    requires limit >= 1 && IsLivePaging(tables, channelId, limit, pages) && Finished(pages)
    requires forall table <- tables :: Gained(tables[0], table, channelId)
    requires PositiveTimes(Channel(tables[0], channelId))
    ensures Rows(Loaded(pages)) == Channel(tables[0], channelId) <==>
            !SomeTieIsCut(Channel(tables[0], channelId), limit)
  {
    LivePagingIsPaging(tables[0], tables, channelId, limit, pages);
    CompleteExactlyWhenNoTieIsCut(tables[0], channelId, limit, pages);
  }
}
