/** When the chat view shows an unbroken end of the channel's history: the client's slots
    (src/UI/DiscordBackend.cpp) against a server that answers every request truthfully
    (src/Core/Application.cpp). */
module ChatContinuity {
  import opened ChatModel

  const PAGE_SIZE := 50

  /** Each channel's history at the start of the run, oldest row first. */
  type Logs = int -> seq<Row>

  /** A channel's history: what it began with and every message broadcast since. */
  function Log(base: Logs, es: seq<Event>, c: int): seq<Row> {
    if es == [] then base(c)
    else
      var before := Log(base, es[..|es| - 1], c);
      match es[|es| - 1]
      case MessageArrives(d, row) => if d == c then before + [row] else before
      case _ => before
  }

  /** Requests are sent as they are dequeued and answered in that order. */
  function NextOutstanding(b: Backend, outstanding: seq<Request>, e: Event): seq<Request> {
    match e
    case DequeueRequest => if b.pending == [] then outstanding else outstanding + [b.pending[0]]
    case OlderArrives(_, _, _) => if outstanding == [] then outstanding else outstanding[1..]
    case _ => outstanding
  }

  /** The page requests sent and not yet answered, oldest first. */
  function Outstanding(es: seq<Event>): seq<Request> {
    if es == [] then []
    else NextOutstanding(Run(es[..|es| - 1]), Outstanding(es[..|es| - 1]), es[|es| - 1])
  }

  /** No two messages of a channel share a time. */
  predicate Sorted(log: seq<Row>) {
    forall i, j :: 0 <= i < j < |log| ==> log[i].timestampMs < log[j].timestampMs
  }

  /** The rows in front of the first one that is not older than t. */
  function OlderThan(log: seq<Row>, t: int): (older: seq<Row>)
    ensures older <= log
  {
    if log == [] || log[0].timestampMs >= t then []
    else [log[0]] + OlderThan(log[1..], t)
  }

  /** Pages are cut from the history as it is, older pages answer the oldest outstanding
      request, and new messages are newer than all before. */
  predicate Truthful(log: seq<Row>, outstanding: seq<Request>, e: Event) {
    match e
    case HistoryArrives(_, hasMore, page) => page == Trimmed(log, PAGE_SIZE) && (hasMore <==> |log| > PAGE_SIZE)
    case OlderArrives(c, hasMore, page) =>
      && outstanding != [] && outstanding[0].channelId == c
      && var older := OlderThan(log, outstanding[0].beforeTimestampMs);
         page == Trimmed(older, PAGE_SIZE) && (hasMore <==> |older| > PAGE_SIZE)
    case MessageArrives(_, row) => forall m <- log :: m.timestampMs < row.timestampMs
    case _ => true
  }

  predicate Arrives(e: Event) { e.HistoryArrives? || e.OlderArrives? || e.MessageArrives? }

  ghost predicate Honest(base: Logs, es: seq<Event>) {
    if es == [] then forall c :: Sorted(base(c))
    else
      var before, e := es[..|es| - 1], es[|es| - 1];
      Honest(base, before) && (Arrives(e) ==> Truthful(Log(base, before, e.channelId), Outstanding(before), e))
  }

  // ---- What an honest server makes true --------------------------------------------

  lemma {:induction false} LogIsSorted(base: Logs, es: seq<Event>, c: int)
    requires Honest(base, es)
    ensures Sorted(Log(base, es, c))
  {
    if es != [] {
      LogIsSorted(base, es[..|es| - 1], c);
    }
  }

  lemma {:induction false} OlderIsPart(log: seq<Row>, t: int)
    ensures forall m <- OlderThan(log, t) :: m in log
  {
    assert forall m <- OlderThan(log, t) :: m in log;
  }

  /** Whatever was delivered for a channel is in its history. */
  lemma {:induction false} DeliveredIsLogged(base: Logs, es: seq<Event>, c: int)
    requires Honest(base, es)
    ensures forall r <- Delivered(es, c) :: r in Log(base, es, c)
  {
    if es != [] {
      var before, e := es[..|es| - 1], es[|es| - 1];
      DeliveredIsLogged(base, before, c);
      if e.OlderArrives? && e.channelId == c {
        OlderIsPart(Log(base, before, c), Outstanding(before)[0].beforeTimestampMs);
      }
    }
  }

  lemma {:induction false} RequestsAreAnchored(es: seq<Event>)
    ensures forall q <- Outstanding(es) :: Anchored(es, q)
  {
    if es != [] {
      var before := es[..|es| - 1];
      RequestsAreAnchored(before);
      RowsBelongToLoadedChannel(before);
      forall q <- Outstanding(es) ensures Anchored(es, q) {
        assert q in Outstanding(before) || q in Run(before).pending;
        StaysAnchored(es, q);
      }
    }
  }

  // ---- Joining a page to the rows shown ----------------------------------------------

  predicate IsSuffix(rows: seq<Row>, log: seq<Row>) {
    |rows| <= |log| && rows == log[|log| - |rows|..]
  }

  /** The cursor of a row splits the history at that row. */
  lemma {:induction false} OlderThanCursor(log: seq<Row>, t: int, k: nat)
    requires Sorted(log) && k < |log| && log[k].timestampMs == t
    ensures OlderThan(log, t) == log[..k]
  {
    if k > 0 {
      assert log[0].timestampMs < t;
      OlderThanCursor(log[1..], t, k - 1);
      assert log[..k] == [log[0]] + log[1..][..k - 1];
    }
  }

  lemma TrimmedIsSuffix(rows: seq<Row>, limit: nat)
    ensures IsSuffix(Trimmed(rows, limit), rows)
  {}

  lemma SuffixOfSuffix(a: seq<Row>, b: seq<Row>, c: seq<Row>)
    requires IsSuffix(a, b) && IsSuffix(b, c)
    ensures IsSuffix(a, c)
  {}

  lemma SeamOfSuffix(log: seq<Row>, page: seq<Row>, i: nat)
    requires i <= |log| && page != [] && IsSuffix(page + log[i..], log)
    ensures i >= 1 && page[|page| - 1] == log[i - 1]
  {
    var joined := page + log[i..];
    assert joined[|page| - 1] == log[|log| - |joined|..][|page| - 1];
  }

  /** A page that ends right before row k, put in front of the history from row i on, is an
      unbroken end of the history exactly when i is k. */
  lemma JoinsExactly(log: seq<Row>, page: seq<Row>, k: nat, i: nat)
    requires Sorted(log) && k <= |log| && i <= |log| && page != [] && IsSuffix(page, log[..k])
    ensures IsSuffix(page + log[i..], log) <==> i == k
  {
    assert page[|page| - 1] == log[k - 1];
    assert log == log[..k] + log[k..];
    if IsSuffix(page + log[i..], log) {
      SeamOfSuffix(log, page, i);
    }
  }

  // ---- Stale pages -------------------------------------------------------------------

  /** The older page was requested for a row that is no longer the first one shown. */
  predicate Stale(b: Backend, e: Event, cursor: int) {
    && e.OlderArrives? && e.channelId == b.loaded && e.page != []
    && (b.rows == [] || Oldest(b.rows) != cursor)
  }

  lemma SameTimeExactly(log: seq<Row>, rows: seq<Row>, k: nat)
    requires Sorted(log) && IsSuffix(rows, log) && k < |log|
    ensures |log| - |rows| == k <==> rows != [] && Oldest(rows) == log[k].timestampMs
  {
    var i := |log| - |rows|;
    assert rows != [] ==> rows[0] == log[i];
  }

  /** An older page answers a request for the time of row k. */
  lemma OlderPageJoins(rows: seq<Row>, log: seq<Row>, page: seq<Row>, k: nat)
    requires Sorted(log) && IsSuffix(rows, log) && k < |log| && IsSuffix(page, log[..k])
    ensures IsSuffix(page + rows, log) <==> page == [] || (rows != [] && Oldest(rows) == log[k].timestampMs)
  {
    if page == [] {
      assert page + rows == rows;
    } else {
      SameTimeExactly(log, rows, k);
      JoinsExactly(log, page, k, |log| - |rows|);
    }
  }

  lemma MessageJoins(rows: seq<Row>, log: seq<Row>, row: Row)
    requires IsSuffix(rows, log)
    ensures IsSuffix(Trimmed(rows + [row], HISTORY_MEMORY_LIMIT), log + [row])
  {
    assert IsSuffix(rows + [row], log + [row]);
    TrimmedIsSuffix(rows + [row], HISTORY_MEMORY_LIMIT);
    SuffixOfSuffix(Trimmed(rows + [row], HISTORY_MEMORY_LIMIT), rows + [row], log + [row]);
  }

  /** The view is an unbroken end of the loaded channel's history. */
  ghost predicate ViewIsSuffix(base: Logs, es: seq<Event>) {
    IsSuffix(Run(es).rows, Log(base, es, Run(es).loaded))
  }

  /** After this run the event brings a stale page. */
  predicate BringsStale(es: seq<Event>, e: Event) {
    Outstanding(es) != [] && Stale(Run(es), e, Outstanding(es)[0].beforeTimestampMs)
  }

  lemma LogSnoc(base: Logs, es: seq<Event>, e: Event, c: int)
    ensures Log(base, es + [e], c) ==
            if e.MessageArrives? && e.channelId == c then Log(base, es, c) + [e.row] else Log(base, es, c)
  {
    assert (es + [e])[..|es|] == es;
  }

  lemma OlderJoins(b: Backend, e: Event, log: seq<Row>, q: Request, r: Row)
    requires e.OlderArrives? && e.channelId == b.loaded && Truthful(log, [q], e)
    requires Sorted(log) && IsSuffix(b.rows, log) && r in log && r.timestampMs == q.beforeTimestampMs
    ensures IsSuffix(Next(b, e).rows, log) <==> !Stale(b, e, q.beforeTimestampMs)
  {
    var k :| 0 <= k < |log| && log[k] == r;
    OlderThanCursor(log, q.beforeTimestampMs, k);
    TrimmedIsSuffix(log[..k], PAGE_SIZE);
    OlderPageJoins(b.rows, log, e.page, k);
  }

  /** The request an older page answers carries the time of a row of the history. */
  lemma CursorIsLogged(base: Logs, es: seq<Event>, q: Request) returns (r: Row)
    requires Honest(base, es) && q in Outstanding(es)
    ensures r in Log(base, es, q.channelId) && r.timestampMs == q.beforeTimestampMs
  {
    RequestsAreAnchored(es);
    DeliveredIsLogged(base, es, q.channelId);
    r :| r in Delivered(es, q.channelId) && r.timestampMs == q.beforeTimestampMs;
  }

  lemma OlderStep(base: Logs, es: seq<Event>, e: Event)
    requires Honest(base, es) && ViewIsSuffix(base, es)
    requires e.OlderArrives? && e.channelId == Run(es).loaded
    requires Truthful(Log(base, es, e.channelId), Outstanding(es), e)
    ensures IsSuffix(Next(Run(es), e).rows, Log(base, es, e.channelId)) <==> !BringsStale(es, e)
  {
    var q := Outstanding(es)[0];
    var r := CursorIsLogged(base, es, q);
    LogIsSorted(base, es, e.channelId);
    OlderJoins(Run(es), e, Log(base, es, e.channelId), q, r);
  }

  lemma ViewStep(base: Logs, es: seq<Event>, e: Event)
    requires Honest(base, es) && ViewIsSuffix(base, es)
    requires Arrives(e) ==> Truthful(Log(base, es, e.channelId), Outstanding(es), e)
    ensures ViewIsSuffix(base, es + [e]) <==> !BringsStale(es, e)
  {
    var b := Run(es);
    RunSnoc(es, e);
    LogSnoc(base, es, e, Next(b, e).loaded);
    if e.OlderArrives? && e.channelId == b.loaded {
      OlderStep(base, es, e);
    } else if e.HistoryArrives? && e.channelId == b.selected {
      TrimmedIsSuffix(Log(base, es, e.channelId), PAGE_SIZE);
    } else if e.MessageArrives? && e.channelId == b.loaded {
      MessageJoins(b.rows, Log(base, es, b.loaded), e.row);
    }
  }

  ghost predicate AlwaysSuffix(base: Logs, es: seq<Event>) {
    ViewIsSuffix(base, es) && (es != [] ==> AlwaysSuffix(base, es[..|es| - 1]))
  }

  predicate NeverStale(es: seq<Event>) {
    es == [] || (NeverStale(es[..|es| - 1]) && !BringsStale(es[..|es| - 1], es[|es| - 1]))
  }

  /** With an honest server the view is always an unbroken end of the loaded channel's history
      exactly when no older page arrives whose cursor is not the time of the first row shown,
      a test onPrependHistory could make and does not. */
  lemma {:induction false} UnbrokenExactly(base: Logs, es: seq<Event>)
    requires Honest(base, es)
    ensures AlwaysSuffix(base, es) <==> NeverStale(es)
  {
    if es != [] {
      var before, e := es[..|es| - 1], es[|es| - 1];
      UnbrokenExactly(base, before);
      assert es == before + [e];
      if AlwaysSuffix(base, before) {
        ViewStep(base, before, e);
      }
    }
  }

  // ---- When there is more to load -----------------------------------------------------------

  /** Since the last history page nothing was cleared or trimmed, and every older page, empty or
      not, answered a request for the first row shown. */
  predicate Tracked(es: seq<Event>) {
    es != [] &&
    var before, e := es[..|es| - 1], es[|es| - 1];
    var b := Run(before);
    match e
    case HistoryArrives(c, _, _) => c == b.selected || Tracked(before)
    case OlderArrives(c, _, _) =>
      Tracked(before) && (c == b.loaded ==> AnswersFirstRow(b.rows, Outstanding(before)))
    case MessageArrives(c, _) => Tracked(before) && (c == b.loaded ==> |b.rows| < HISTORY_MEMORY_LIMIT)
    case _ => Tracked(before) && !Clears(b, e)
  }

  predicate AnswersFirstRow(rows: seq<Row>, outstanding: seq<Request>) {
    outstanding != [] && rows != [] && Oldest(rows) == outstanding[0].beforeTimestampMs
  }

  /** The view is an end of the log, and the flag says whether it is all of it. */
  predicate FlagTells(b: Backend, log: seq<Row>) {
    IsSuffix(b.rows, log) && (b.hasMore <==> |b.rows| < |log|)
  }

  lemma OlderFlagTells(b: Backend, e: Event, log: seq<Row>, outstanding: seq<Request>)
    requires Sorted(log) && FlagTells(b, log) && e.OlderArrives? && e.channelId == b.loaded
    requires Truthful(log, outstanding, e) && AnswersFirstRow(b.rows, outstanding)
    ensures FlagTells(Next(b, e), log)
  {
    var i := |log| - |b.rows|;
    assert b.rows[0] == log[i];
    OlderThanCursor(log, outstanding[0].beforeTimestampMs, i);
    TrimmedIsSuffix(log[..i], PAGE_SIZE);
    OlderPageJoins(b.rows, log, e.page, i);
  }

  lemma MessageFlagTells(b: Backend, e: Event, log: seq<Row>)
    requires FlagTells(b, log) && e.MessageArrives? && e.channelId == b.loaded && |b.rows| < HISTORY_MEMORY_LIMIT
    ensures FlagTells(Next(b, e), log + [e.row])
  {
    MessageJoins(b.rows, log, e.row);
  }

  lemma HistoryFlagTells(b: Backend, e: Event, log: seq<Row>, outstanding: seq<Request>)
    requires e.HistoryArrives? && e.channelId == b.selected && Truthful(log, outstanding, e)
    ensures FlagTells(Next(b, e), log)
  {
    TrimmedIsSuffix(log, PAGE_SIZE);
  }

  lemma FlagStep(base: Logs, es: seq<Event>, e: Event)
    requires Tracked(es) ==> FlagTells(Run(es), Log(base, es, Run(es).loaded))
    ensures Honest(base, es + [e]) && Tracked(es + [e]) ==>
              FlagTells(Run(es + [e]), Log(base, es + [e], Run(es + [e]).loaded))
  {
    var b := Run(es);
    assert (es + [e])[..|es|] == es;
    if Honest(base, es + [e]) && Tracked(es + [e]) {
      RunSnoc(es, e);
      LogSnoc(base, es, e, Next(b, e).loaded);
      if Accepts(b, e) {
        LogIsSorted(base, es, e.channelId);
        if e.HistoryArrives? {
          HistoryFlagTells(b, e, Log(base, es, e.channelId), Outstanding(es));
        } else {
          OlderFlagTells(b, e, Log(base, es, e.channelId), Outstanding(es));
        }
      } else if e.MessageArrives? && e.channelId == b.loaded {
        MessageFlagTells(b, e, Log(base, es, b.loaded));
      }
    }
  }

  /** With an honest server and a tracked view, hasMore says exactly whether the channel has
      rows that are not shown. */
  lemma {:induction false} HasMoreTells(base: Logs, es: seq<Event>)
    requires Honest(base, es) && Tracked(es)
    ensures FlagTells(Run(es), Log(base, es, Run(es).loaded))
  {
    var before, e := es[..|es| - 1], es[|es| - 1];
    assert es == before + [e];
    if Tracked(before) {
      HasMoreTells(base, before);
    }
    FlagStep(base, before, e);
  }

  /** Once the whole channel is shown the client asks for nothing more; before that, scrolling to
      the top asks for the page in front of the first row, unless one is on its way already. */
  lemma AsksExactlyWhileMoreIsThere(base: Logs, es: seq<Event>)
    requires Honest(base, es) && Tracked(es) && Run(es).selected == Run(es).loaded && !Run(es).inFlight
    requires forall m <- Run(es).rows :: m.timestampMs > 0
    requires Run(es).rows != []
    ensures Run(es + [RequestOlder]).pending ==
            if |Run(es).rows| == |Log(base, es, Run(es).loaded)| then Run(es).pending
            else Run(es).pending + [Request(Run(es).loaded, Run(es).rows[0].timestampMs)]
  {
    HasMoreTells(base, es);
    RunSnoc(es, RequestOlder);
  }

  // ---- Runs with a stale page ------------------------------------------------------------

  /** An honest run without a stale page, and where it leads as far as channel 1 is concerned. */
  ghost predicate LeadsTo(base: Logs, es: seq<Event>, b: Backend, outstanding: seq<Request>, log: seq<Row>) {
    && Honest(base, es) && NeverStale(es)
    && Run(es) == b && Outstanding(es) == outstanding && Log(base, es, 1) == log
  }

  lemma HonestStep(base: Logs, es: seq<Event>, b: Backend, outstanding: seq<Request>, log: seq<Row>, e: Event)
    requires LeadsTo(base, es, b, outstanding, log)
    requires Arrives(e) ==> e.channelId == 1 && Truthful(log, outstanding, e)
    ensures Honest(base, es + [e]) && Run(es + [e]) == Next(b, e)
    ensures BringsStale(es, e) <==> outstanding != [] && Stale(b, e, outstanding[0].beforeTimestampMs)
  {
    RunSnoc(es, e);
    assert (es + [e])[..|es|] == es;
  }

  lemma Advance(base: Logs, es: seq<Event>, b: Backend, outstanding: seq<Request>, log: seq<Row>, e: Event)
    requires LeadsTo(base, es, b, outstanding, log)
    requires Arrives(e) ==> e.channelId == 1 && Truthful(log, outstanding, e)
    requires outstanding == [] || !Stale(b, e, outstanding[0].beforeTimestampMs)
    ensures LeadsTo(base, es + [e], Next(b, e), NextOutstanding(b, outstanding, e),
                    if e.MessageArrives? then log + [e.row] else log)
  {
    HonestStep(base, es, b, outstanding, log, e);
    LogSnoc(base, es, e, 1);
    assert (es + [e])[..|es|] == es;
  }

  /** The channel's history starts out as this log, of more than n pages. */
  ghost predicate LongLog(base: Logs, log: seq<Row>, n: nat) {
    && (forall c :: Sorted(base(c))) && base(1) == log && |log| > PAGE_SIZE * n
    && (forall m <- log :: m.timestampMs > 0)
  }

  /** The view with the last n pages of the log loaded and nothing on its way. */
  function PagesShown(log: seq<Row>, n: nat): Backend
    requires PAGE_SIZE * n <= |log|
  {
    Backend(1, 1, true, false, [], log[|log| - PAGE_SIZE * n..])
  }

  /** The answer to a request made with n pages loaded. */
  function PageAfter(log: seq<Row>, n: nat): Event
    requires PAGE_SIZE * n <= |log|
  {
    var older := log[..|log| - PAGE_SIZE * n];
    OlderArrives(1, |older| > PAGE_SIZE, Trimmed(older, PAGE_SIZE))
  }

  function CursorAfter(log: seq<Row>, n: nat): Request
    requires 1 <= n && PAGE_SIZE * n <= |log|
  {
    Request(1, log[|log| - PAGE_SIZE * n].timestampMs)
  }

  /** The request of a further page is on its way. */
  lemma RequestSent(base: Logs, es: seq<Event>, log: seq<Row>, n: nat)
    requires 1 <= n && LongLog(base, log, n) && LeadsTo(base, es, PagesShown(log, n), [], log)
    ensures LeadsTo(base, es + [RequestOlder] + [DequeueRequest], PagesShown(log, n).(inFlight := true),
                    [CursorAfter(log, n)], log)
    ensures Truthful(log, [CursorAfter(log, n)], PageAfter(log, n))
  {
    var b, k := PagesShown(log, n), |log| - PAGE_SIZE * n;
    assert log[k] in log;
    assert Sorted(base(1));
    OlderThanCursor(log, log[k].timestampMs, k);
    Advance(base, es, b, [], log, RequestOlder);
    Advance(base, es + [RequestOlder], Next(b, RequestOlder), [], log, DequeueRequest);
  }

  lemma NextPageShown(log: seq<Row>, n: nat)
    requires 1 <= n && PAGE_SIZE * (n + 1) < |log|
    ensures Next(PagesShown(log, n).(inFlight := true), PageAfter(log, n)) == PagesShown(log, n + 1)
  {
    var k := |log| - PAGE_SIZE * n;
    assert log[..k][k - PAGE_SIZE..] + log[k..] == log[k - PAGE_SIZE..];
  }

  lemma PageLoaded(base: Logs, es: seq<Event>, log: seq<Row>, n: nat) returns (more: seq<Event>)
    requires 1 <= n && LongLog(base, log, n + 1) && LeadsTo(base, es, PagesShown(log, n), [], log)
    ensures LeadsTo(base, more, PagesShown(log, n + 1), [], log)
  {
    var b, q := PagesShown(log, n).(inFlight := true), CursorAfter(log, n);
    more := es + [RequestOlder] + [DequeueRequest] + [PageAfter(log, n)];
    RequestSent(base, es, log, n);
    NextPageShown(log, n);
    assert Oldest(b.rows) == q.beforeTimestampMs;
    Advance(base, es + [RequestOlder] + [DequeueRequest], b, [q], log, PageAfter(log, n));
  }

  lemma FirstPageLoaded(base: Logs, log: seq<Row>) returns (es: seq<Event>)
    requires LongLog(base, log, 1)
    ensures LeadsTo(base, es, PagesShown(log, 1), [], log)
  {
    es := [] + [HistoryArrives(1, true, Trimmed(log, PAGE_SIZE))];
    assert LeadsTo(base, [], START, [], log);
    Advance(base, [], START, [], log, HistoryArrives(1, true, Trimmed(log, PAGE_SIZE)));
  }

  /** The history can be loaded page by page. */
  lemma {:induction false} PagesLoaded(base: Logs, log: seq<Row>, n: nat) returns (es: seq<Event>)
    requires 1 <= n && LongLog(base, log, n)
    ensures LeadsTo(base, es, PagesShown(log, n), [], log)
  {
    if n == 1 {
      es := FirstPageLoaded(base, log);
    } else {
      es := PagesLoaded(base, log, n - 1);
      es := PageLoaded(base, es, log, n - 1);
    }
  }

  lemma RequestOnItsWay(base: Logs, log: seq<Row>, n: nat) returns (es: seq<Event>)
    requires 1 <= n && LongLog(base, log, n)
    ensures LeadsTo(base, es, PagesShown(log, n).(inFlight := true), [CursorAfter(log, n)], log)
    ensures Truthful(log, [CursorAfter(log, n)], PageAfter(log, n))
  {
    es := PagesLoaded(base, log, n);
    RequestSent(base, es, log, n);
    es := es + [RequestOlder] + [DequeueRequest];
  }

  /** Leaving the channel and coming back while an older page is on its way: the page is shown
      alone, without the rows that followed it. */
  lemma ReturningBreaksView(base: Logs, log: seq<Row>) returns (es: seq<Event>)
    requires LongLog(base, log, 1)
    ensures var left := es + [SelectChannel(2)] + [SelectChannel(1)];
            && Honest(base, left + [PageAfter(log, 1)]) && NeverStale(left) && BringsStale(left, PageAfter(log, 1))
            && Run(es).rows == Trimmed(log, PAGE_SIZE) && Run(left + [PageAfter(log, 1)]).rows == PageAfter(log, 1).page
  {
    var e := PageAfter(log, 1);
    es := RequestOnItsWay(base, log, 1);
    var b, q := PagesShown(log, 1).(inFlight := true), [CursorAfter(log, 1)];
    Advance(base, es, b, q, log, SelectChannel(2));
    Advance(base, es + [SelectChannel(2)], Next(b, SelectChannel(2)), q, log, SelectChannel(1));
    var back := Next(Next(b, SelectChannel(2)), SelectChannel(1));
    HonestStep(base, es + [SelectChannel(2)] + [SelectChannel(1)], back, q, log, e);
    assert PageAfter(log, 1).page != [];
    assert back.rows == [] && e.page + [] == e.page;
  }

  lemma FullViewSlides(log: seq<Row>, row: Row, n: nat)
    requires 1 <= n && PAGE_SIZE * n == HISTORY_MEMORY_LIMIT < |log| && Sorted(log)
    ensures var k, b := |log| - PAGE_SIZE * n, Next(PagesShown(log, n).(inFlight := true), MessageArrives(1, row));
            && b == PagesShown(log, n).(inFlight := true, rows := log[k + 1..] + [row])
            && Stale(b, PageAfter(log, n), CursorAfter(log, n).beforeTimestampMs)
  {
    var k := |log| - PAGE_SIZE * n;
    assert (log[k..] + [row])[1..] == log[k + 1..] + [row];
    assert (log[k + 1..] + [row])[0] == log[k + 1];
  }

  lemma StillTruthful(log: seq<Row>, row: Row, n: nat)
    requires 1 <= n && PAGE_SIZE * n < |log| && Sorted(log) && forall m <- log :: m.timestampMs < row.timestampMs
    ensures Truthful(log + [row], [CursorAfter(log, n)], PageAfter(log, n))
  {
    var k := |log| - PAGE_SIZE * n;
    OlderThanCursor(log + [row], log[k].timestampMs, k);
    assert (log + [row])[..k] == log[..k];
  }

  lemma TrimmedMeanwhile(base: Logs, es: seq<Event>, log: seq<Row>, n: nat, row: Row)
    requires 1 <= n && PAGE_SIZE * n == HISTORY_MEMORY_LIMIT && LongLog(base, log, n)
    requires forall m <- log :: m.timestampMs < row.timestampMs
    requires LeadsTo(base, es, PagesShown(log, n).(inFlight := true), [CursorAfter(log, n)], log)
    ensures var sent, e := es + [MessageArrives(1, row)], PageAfter(log, n);
            && Honest(base, sent + [e]) && NeverStale(sent) && BringsStale(sent, e)
            && Run(sent + [e]).rows == e.page + (log[|log| - PAGE_SIZE * n + 1..] + [row])
  {
    var b, q, m := PagesShown(log, n).(inFlight := true), CursorAfter(log, n), MessageArrives(1, row);
    assert Sorted(base(1));
    FullViewSlides(log, row, n);
    StillTruthful(log, row, n);
    Advance(base, es, b, [q], log, m);
    HonestStep(base, es + [m], Next(b, m), [q], log + [row], PageAfter(log, n));
  }

  /** A message that arrives while an older page is on its way to a full view: the view is
      trimmed at the row the page was requested for, which is then missing between them. */
  lemma TrimmingBreaksView(base: Logs, log: seq<Row>, n: nat, row: Row) returns (es: seq<Event>)
    requires PAGE_SIZE * n == HISTORY_MEMORY_LIMIT && LongLog(base, log, n)
    requires forall m <- log :: m.timestampMs < row.timestampMs
    ensures var sent, e := es + [MessageArrives(1, row)], PageAfter(log, n);
            && Honest(base, sent + [e]) && NeverStale(sent) && BringsStale(sent, e)
            && Run(es).rows == Trimmed(log, HISTORY_MEMORY_LIMIT)
            && Run(sent + [e]).rows == e.page + (log[|log| - HISTORY_MEMORY_LIMIT + 1..] + [row])
  {
    es := RequestOnItsWay(base, log, n);
    TrimmedMeanwhile(base, es, log, n, row);
  }
}
