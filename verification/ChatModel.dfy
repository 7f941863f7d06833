/** The client's chat view: the row model with its divider and grouping flags
    (src/UI/ChatMessageModel.cpp) and the slots that feed it (src/UI/DiscordBackend.cpp). */
module ChatModel {

  const TIME_GAP_THRESHOLD_MS := 300_000
  const HISTORY_MEMORY_LIMIT := 200
  const NO_CHANNEL := -1

  datatype Row = Row(author: string, content: string, timestampMs: int)
  datatype Entry = Entry(row: Row, showDivider: bool, isGrouped: bool)

  // ---- Rows and their flags ------------------------------------------------------

  /** The flags of a row are a function of it and the row above. */
  function FirstEntry(row: Row): Entry { Entry(row, false, false) }

  function EntryAfter(previous: Row, row: Row): Entry {
    var gap := row.timestampMs - previous.timestampMs > TIME_GAP_THRESHOLD_MS;
    Entry(row, gap, !gap && previous.author == row.author)
  }

  function EntryAt(rows: seq<Row>, i: nat): Entry
    requires i < |rows|
  {
    if i == 0 then FirstEntry(rows[0]) else EntryAfter(rows[i - 1], rows[i])
  }

  function Entries(rows: seq<Row>): (entries: seq<Entry>)
    ensures |entries| == |rows| && forall i :: 0 <= i < |rows| ==> entries[i] == EntryAt(rows, i)
  {
    seq(|rows|, i requires 0 <= i < |rows| => EntryAt(rows, i))
  }

  /** What the flags mean: a divider stands exactly where more than five minutes passed since
      the row above, and a row belongs to the group above exactly when it is by the same author
      without a divider. The first row shown has neither. */
  lemma FlagsMean(rows: seq<Row>, i: nat)
    requires i < |rows|
    ensures Entries(rows)[i].row == rows[i]
    ensures Entries(rows)[i].showDivider <==> i > 0 && rows[i].timestampMs - rows[i - 1].timestampMs > 5 * 60 * 1000
    ensures Entries(rows)[i].isGrouped <==>
              && i > 0 && rows[i].author == rows[i - 1].author
              && rows[i].timestampMs <= rows[i - 1].timestampMs + 5 * 60 * 1000
  {}

  function RowsOf(entries: seq<Entry>): (rows: seq<Row>)
    ensures |rows| == |entries| && forall i :: 0 <= i < |rows| ==> rows[i] == entries[i].row
  {
    seq(|entries|, i requires 0 <= i < |entries| => entries[i].row)
  }

  /** Rows as they arrive, their flags not yet computed. */
  function Unflagged(rows: seq<Row>): (entries: seq<Entry>)
    ensures RowsOf(entries) == rows
  {
    seq(|rows|, i requires 0 <= i < |rows| => FirstEntry(rows[i]))
  }

  lemma RowsOfConcat(a: seq<Entry>, b: seq<Entry>)
    ensures RowsOf(a + b) == RowsOf(a) + RowsOf(b)
  {}

  /** An append leaves every earlier row's flags alone. */
  lemma AppendKeepsFlags(rows: seq<Row>, row: Row)
    ensures Entries(rows + [row])[..|rows|] == Entries(rows)
  {}

  /** A prepended page changes the flags of the old first row and of no other. */
  lemma PrependKeepsFlags(page: seq<Row>, rows: seq<Row>)
    requires page != [] && rows != []
    ensures Entries(page + rows)[..|page|] == Entries(page)
    ensures Entries(page + rows)[|page|] == EntryAfter(page[|page| - 1], rows[0])
    ensures Entries(page + rows)[|page| + 1..] == Entries(rows)[1..]
  {
    var all := page + rows;
    forall i | 0 < i < |rows| ensures EntryAt(all, |page| + i) == EntryAt(rows, i) {
      assert all[|page| + i] == rows[i] && all[|page| + i - 1] == rows[i - 1];
    }
  }

  /** Trimming the front clears the flags of the new first row and changes no other. */
  lemma TrimKeepsFlags(rows: seq<Row>, excess: nat)
    requires excess < |rows|
    ensures Entries(rows[excess..])[0] == FirstEntry(rows[excess])
    ensures Entries(rows[excess..])[1..] == Entries(rows)[excess + 1..]
  {}

  class ChatMessageModel {
    var entries: seq<Entry>

    ghost function Shown(): seq<Row>
      reads this
    {
      RowsOf(entries)
    }

    /** Every flag is what the row and the one above it make it. */
    ghost predicate Valid()
      reads this
    {
      entries == Entries(Shown())
    }

    constructor ()
      ensures Valid() && Shown() == []
    {
      entries := [];
    }

    method OldestTimestampMs() returns (timestampMs: int)
      ensures timestampMs == Oldest(Shown())
    {
      timestampMs := if entries == [] then 0 else entries[0].row.timestampMs;
    }

    method SetHistory(page: seq<Row>)
      modifies this
      ensures Valid() && Shown() == page
    {
      entries := Unflagged(page);
      RefreshGrouping();
    }

    method AppendEntry(row: Row)
      requires Valid()
      modifies this
      ensures Valid() && Shown() == old(Shown()) + [row]
    {
      entries := entries + [FirstEntry(row)];
      assert Shown() == old(Shown()) + [row];
      RefreshGrouping();
    }

    method PrependEntries(page: seq<Row>)
      requires Valid()
      modifies this
      ensures Valid() && Shown() == page + old(Shown())
    {
      if page == [] {
        assert page + Shown() == Shown();
        return;
      }
      var added := Unflagged(page);
      RowsOfConcat(added, entries);
      entries := added + entries;
      RefreshGrouping();
    }

    method Clear()
      modifies this
      ensures Valid() && Shown() == []
    {
      entries := [];
    }

    /** The oldest rows go. */
    method TrimToLimit(limit: nat)
      requires Valid()
      modifies this
      ensures Valid() && Shown() == Trimmed(old(Shown()), limit)
    {
      if |entries| <= limit {
        return;
      }
      var excess := |entries| - limit;
      for removed := 0 to excess
        invariant entries == old(entries)[removed..]
      {
        entries := entries[1..];
      }
      assert Shown() == old(Shown())[excess..];
      RefreshGrouping();
    }

    /** Rewrites the flags of every row, top to bottom. */
    method RefreshGrouping()
      modifies this
      ensures entries == Entries(old(Shown()))
      ensures Shown() == old(Shown())
    {
      ghost var rows := Shown();
      for row := 0 to |entries|
        invariant |entries| == |rows| && Shown() == rows
        invariant forall i :: 0 <= i < row ==> entries[i] == EntryAt(rows, i)
      {
        var entry := entries[row];
        if row == 0 {
          entry := entry.(showDivider := false, isGrouped := false);
        } else {
          var previous := entries[row - 1];
          var timeDifference := entry.row.timestampMs - previous.row.timestampMs;
          entry := entry.(showDivider := timeDifference > TIME_GAP_THRESHOLD_MS);
          entry := entry.(isGrouped := !entry.showDivider && previous.row.author == entry.row.author);
        }
        entries := entries[row := entry];
      }
    }
  }

  function Oldest(rows: seq<Row>): int { if rows == [] then 0 else rows[0].timestampMs }

  function Trimmed(rows: seq<Row>, limit: nat): seq<Row> {
    if |rows| <= limit then rows else rows[|rows| - limit..]
  }

  // ---- The slots -------------------------------------------------------------------

  datatype Request = Request(channelId: int, beforeTimestampMs: int)

  datatype Backend = Backend(
    selected: int, loaded: int, hasMore: bool, inFlight: bool, pending: seq<Request>, rows: seq<Row>)

  const START := Backend(1, NO_CHANNEL, false, false, [], [])

  datatype Event =
    | SelectChannel(channelId: int)
    | RequestOlder
    | DequeueRequest
    | HistoryArrives(channelId: int, hasMore: bool, page: seq<Row>)
    | OlderArrives(channelId: int, hasMore: bool, page: seq<Row>)
    | MessageArrives(channelId: int, row: Row)
    | LogoutConfirmed

  function Next(b: Backend, e: Event): Backend {
    match e
    case SelectChannel(c) =>
      if c == b.selected then b
      else if c != b.loaded then b.(selected := c, rows := [], hasMore := false, inFlight := false)
      else b.(selected := c)
    case RequestOlder =>
      if b.inFlight || !b.hasMore || b.selected != b.loaded || Oldest(b.rows) <= 0 then b
      else b.(inFlight := true, pending := b.pending + [Request(b.selected, Oldest(b.rows))])
    case DequeueRequest => if b.pending == [] then b else b.(pending := b.pending[1..])
    case HistoryArrives(c, hasMore, page) =>
      if c != b.selected then b else b.(rows := page, loaded := c, hasMore := hasMore)
    case OlderArrives(c, hasMore, page) =>
      if c != b.loaded then b.(inFlight := false)
      else b.(inFlight := false, rows := page + b.rows, hasMore := hasMore)
    case MessageArrives(c, row) =>
      if c != b.loaded then b else b.(rows := Trimmed(b.rows + [row], HISTORY_MEMORY_LIMIT))
    case LogoutConfirmed =>
      b.(rows := [], hasMore := false, inFlight := false, loaded := NO_CHANNEL, pending := [])
  }

  function Run(es: seq<Event>): Backend {
    if es == [] then START else Next(Run(es[..|es| - 1]), es[|es| - 1])
  }

  /** The rows the server has delivered under a channel's id. */
  function Delivered(es: seq<Event>, channelId: int): set<Row> {
    if es == [] then {}
    else
      var before := Delivered(es[..|es| - 1], channelId);
      match es[|es| - 1]
      case HistoryArrives(c, _, page) => if c == channelId then before + (set r | r in page) else before
      case OlderArrives(c, _, page) => if c == channelId then before + (set r | r in page) else before
      case MessageArrives(c, row) => if c == channelId then before + {row} else before
      case _ => before
  }

  /** The request's cursor is the time of a row delivered for its channel. */
  ghost predicate Anchored(es: seq<Event>, q: Request) {
    exists r :: r in Delivered(es, q.channelId) && r.timestampMs == q.beforeTimestampMs
  }

  lemma StaysAnchored(es: seq<Event>, q: Request)
    requires es != [] && Anchored(es[..|es| - 1], q)
    ensures Anchored(es, q)
  {
    var r :| r in Delivered(es[..|es| - 1], q.channelId) && r.timestampMs == q.beforeTimestampMs;
    assert r in Delivered(es, q.channelId);
  }

  /** Over all interleavings every row shown was delivered for the loaded channel, which
      need not be the selected one, and every page request waiting to be sent carries a
      positive cursor that is the time of a row of the channel it names. */
  lemma {:induction false} RowsBelongToLoadedChannel(es: seq<Event>)
    ensures forall r <- Run(es).rows :: r in Delivered(es, Run(es).loaded)
    ensures forall q <- Run(es).pending :: q.beforeTimestampMs > 0 && Anchored(es, q)
  {
    if es != [] {
      var before, e := es[..|es| - 1], es[|es| - 1];
      RowsBelongToLoadedChannel(before);
      var b, b' := Run(before), Run(es);
      RowsComeFrom(b, e);
      assert Delivered(before, b.loaded) <= Delivered(es, b.loaded);
      forall q <- b'.pending ensures q.beforeTimestampMs > 0 && Anchored(es, q) {
        if q !in b.pending {
          assert b.rows[0] in Delivered(before, b.loaded);
        }
        StaysAnchored(es, q);
      }
    }
  }

  /** Where the rows after a step come from. */
  lemma RowsComeFrom(b: Backend, e: Event)
    ensures forall r <- Next(b, e).rows ::
              || (r in b.rows && Next(b, e).loaded == b.loaded)
              || ((e.HistoryArrives? || e.OlderArrives?) && e.channelId == Next(b, e).loaded && r in e.page)
              || (e.MessageArrives? && e.channelId == Next(b, e).loaded && r == e.row)
  {}

  // ---- The paging flags ---------------------------------------------------------------

  /** Selecting this channel empties the view. */
  predicate Clears(b: Backend, e: Event) {
    e.LogoutConfirmed? || (e.SelectChannel? && e.channelId != b.selected && e.channelId != b.loaded)
  }

  /** A page the slots accept. */
  predicate Accepts(b: Backend, e: Event) {
    (e.HistoryArrives? && e.channelId == b.selected) || (e.OlderArrives? && e.channelId == b.loaded)
  }

  /** What the last accepted page said about older rows, unless the view was cleared since. */
  function LastFlag(es: seq<Event>): bool {
    if es == [] then false
    else
      var b, e := Run(es[..|es| - 1]), es[|es| - 1];
      if Clears(b, e) then false else if Accepts(b, e) then e.hasMore else LastFlag(es[..|es| - 1])
  }

  lemma {:induction false} HasMoreIsLastFlag(es: seq<Event>)
    ensures Run(es).hasMore == LastFlag(es)
  {
    if es != [] {
      HasMoreIsLastFlag(es[..|es| - 1]);
    }
  }

  /** The request that this event queues, if any. */
  function Asks(b: Backend, e: Event): seq<Request> {
    if e.RequestOlder? && !b.inFlight && b.hasMore && b.selected == b.loaded && Oldest(b.rows) > 0
    then [Request(b.loaded, Oldest(b.rows))] else []
  }

  /** Every request queued since the last logout, in order, and how many of them have left. */
  function Asked(es: seq<Event>): seq<Request> {
    if es == [] then []
    else
      var b, e := Run(es[..|es| - 1]), es[|es| - 1];
      if e.LogoutConfirmed? then [] else Asked(es[..|es| - 1]) + Asks(b, e)
  }

  function Taken(es: seq<Event>): nat {
    if es == [] then 0
    else
      var b, e := Run(es[..|es| - 1]), es[|es| - 1];
      if e.LogoutConfirmed? then 0
      else Taken(es[..|es| - 1]) + (if e.DequeueRequest? && b.pending != [] then 1 else 0)
  }

  lemma AskStep(b: Backend, e: Event)
    requires !e.LogoutConfirmed?
    ensures Next(b, e).pending ==
            if e.DequeueRequest? && b.pending != [] then b.pending[1..] else b.pending + Asks(b, e)
  {}

  /** Requests leave once each, in the order they were made; a logout drops the rest. */
  lemma {:induction false} RequestsLeaveInOrder(es: seq<Event>)
    ensures Taken(es) <= |Asked(es)| && Run(es).pending == Asked(es)[Taken(es)..]
  {
    if es != [] {
      var before, e := es[..|es| - 1], es[|es| - 1];
      RequestsLeaveInOrder(before);
      if !e.LogoutConfirmed? {
        AskStep(Run(before), e);
      }
    }
  }

  /** A request is on its way: one was made, and since then no older page has come and nothing
      was cleared. */
  function Waiting(es: seq<Event>): bool {
    if es == [] then false
    else
      var b, e := Run(es[..|es| - 1]), es[|es| - 1];
      if Clears(b, e) || e.OlderArrives? then false else Asks(b, e) != [] || Waiting(es[..|es| - 1])
  }

  lemma {:induction false} InFlightIsWaiting(es: seq<Event>)
    ensures Run(es).inFlight == Waiting(es)
  {
    if es != [] {
      InFlightIsWaiting(es[..|es| - 1]);
    }
  }

  /** While a request is on its way, or another channel is selected than the one shown, nothing
      more is asked for. */
  lemma OneRequestAtATime(es: seq<Event>)
    ensures Waiting(es) || Run(es).selected != Run(es).loaded ==>
              Run(es + [RequestOlder]).pending == Run(es).pending
  {
    InFlightIsWaiting(es);
    RunSnoc(es, RequestOlder);
  }

  /** A message that fits in takes nothing away, and one more than 200 costs the oldest row. */
  lemma NewestTwoHundredStay(b: Backend, row: Row)
    requires |b.rows| <= 200
    ensures Next(b, MessageArrives(b.loaded, row)).rows ==
            if |b.rows| < 200 then b.rows + [row] else b.rows[1..] + [row]
  {
    assert |b.rows| == 200 ==> (b.rows + [row])[1..] == b.rows[1..] + [row];
  }

  /** The channel the user chose last, the first one before that. */
  function LastSelected(es: seq<Event>): int {
    if es == [] then 1
    else if es[|es| - 1].SelectChannel? then es[|es| - 1].channelId
    else LastSelected(es[..|es| - 1])
  }

  /** The channel of the last history page that arrived while it was selected, none after a
      logout. */
  function LastLoaded(es: seq<Event>): int {
    if es == [] then -1
    else
      var before, e := es[..|es| - 1], es[|es| - 1];
      if e.LogoutConfirmed? then -1
      else if e.HistoryArrives? && e.channelId == LastSelected(before) then e.channelId
      else LastLoaded(before)
  }

  lemma {:induction false} SelectedAndLoaded(es: seq<Event>)
    ensures Run(es).selected == LastSelected(es) && Run(es).loaded == LastLoaded(es)
  {
    if es != [] {
      SelectedAndLoaded(es[..|es| - 1]);
    }
  }

  // ---- Rows of the selected channel ---------------------------------------------------

  /** Nothing is shown under the name of another channel. */
  predicate ShowsSelected(b: Backend) {
    b.rows == [] || b.selected == b.loaded
  }

  /** Something arrives for the channel whose rows are kept while another one is selected. */
  predicate Leaks(b: Backend, e: Event) {
    && b.selected != b.loaded
    && ((e.MessageArrives? && e.channelId == b.loaded) || (e.OlderArrives? && e.channelId == b.loaded && e.page != []))
  }

  /** The slots' guards test the loaded channel, so exactly the events that arrive for a
      loaded channel no longer selected put foreign rows into the view. */
  lemma ShownUnlessLeaked(b: Backend, e: Event)
    requires ShowsSelected(b)
    ensures ShowsSelected(Next(b, e)) <==> !Leaks(b, e)
  {
    if e.MessageArrives? {
      assert (b.rows + [e.row])[|b.rows|] == e.row;
    }
  }

  predicate AlwaysShowsSelected(es: seq<Event>) {
    ShowsSelected(Run(es)) && (es != [] ==> AlwaysShowsSelected(es[..|es| - 1]))
  }

  predicate NeverLeaks(es: seq<Event>) {
    es == [] || (NeverLeaks(es[..|es| - 1]) && !Leaks(Run(es[..|es| - 1]), es[|es| - 1]))
  }

  /** Throughout a run the view shows rows of the selected channel only, exactly when
      nothing ever arrives for a loaded channel that is not the selected one. */
  lemma {:induction false} SelectedChannelExactly(es: seq<Event>)
    ensures AlwaysShowsSelected(es) <==> NeverLeaks(es)
    ensures NeverLeaks(es) ==> forall r <- Run(es).rows :: r in Delivered(es, Run(es).selected)
  {
    RowsBelongToLoadedChannel(es);
    if es != [] {
      var before, e := es[..|es| - 1], es[|es| - 1];
      SelectedChannelExactly(before);
      if AlwaysShowsSelected(before) {
        ShownUnlessLeaked(Run(before), e);
      }
    }
  }

  /** A run that does leak: a message of the channel left behind appears under the one
      just selected. */
  lemma MessageOfLeftChannelIsShown(c: int, row: Row)
    requires c != 1
    ensures var b := Run([HistoryArrives(1, false, []), SelectChannel(c), MessageArrives(1, row)]);
            b.selected == c && b.rows == [row]
    ensures row !in Delivered([HistoryArrives(1, false, []), SelectChannel(c), MessageArrives(1, row)], c)
  {
    var e1, e2, e3 := HistoryArrives(1, false, []), SelectChannel(c), MessageArrives(1, row);
    assert [e1, e2, e3][..2] == [e1, e2] && [e1, e2][..1] == [e1] && [e1][..0] == [];
    assert Run([e1]) == Next(START, e1) && Run([e1, e2]) == Next(Run([e1]), e2);
    assert Delivered([e1], c) == {} && Delivered([e1, e2], c) == {};
    assert [] + [row] == [row];
  }

  lemma RunSnoc(es: seq<Event>, e: Event)
    ensures Run(es + [e]) == Next(Run(es), e)
  {
    assert (es + [e])[..|es|] == es;
  }

  class DiscordBackend {
    const chatMessageModel: ChatMessageModel
    var selectedTextChannelId: int
    var loadedChannelId: int
    var hasMoreHistory: bool
    var historyLoadInFlight: bool
    var pendingHistoryRequests: seq<Request>

    ghost predicate Valid()
      reads this, chatMessageModel
    {
      chatMessageModel.Valid()
    }

    ghost function State(): Backend
      reads this, chatMessageModel
    {
      Backend(selectedTextChannelId, loadedChannelId, hasMoreHistory, historyLoadInFlight, pendingHistoryRequests,
              chatMessageModel.Shown())
    }

    constructor ()
      ensures Valid() && fresh(chatMessageModel) && State() == START
    {
      chatMessageModel := new ChatMessageModel();
      selectedTextChannelId, loadedChannelId := 1, NO_CHANNEL;
      hasMoreHistory, historyLoadInFlight, pendingHistoryRequests := false, false, [];
    }

    method SelectTextChannel(channelId: int)
      requires Valid()
      modifies this, chatMessageModel
      ensures Valid() && State() == Next(old(State()), SelectChannel(channelId))
    {
      if channelId == selectedTextChannelId {
        return;
      }
      selectedTextChannelId := channelId;
      if channelId != loadedChannelId {
        chatMessageModel.Clear();
        hasMoreHistory := false;
        historyLoadInFlight := false;
      }
    }

    method RequestOlderMessages()
      requires Valid()
      modifies this
      ensures Valid() && State() == Next(old(State()), RequestOlder)
    {
      if historyLoadInFlight || !hasMoreHistory {
        return;
      }
      if selectedTextChannelId != loadedChannelId {
        return;
      }
      var oldest := chatMessageModel.OldestTimestampMs();
      if oldest <= 0 {
        return;
      }
      historyLoadInFlight := true;
      pendingHistoryRequests := pendingHistoryRequests + [Request(selectedTextChannelId, oldest)];
    }

    method DequeuePendingHistoryRequest() returns (found: bool, request: Request)
      requires Valid()
      modifies this
      ensures Valid() && State() == Next(old(State()), DequeueRequest)
      ensures found <==> old(pendingHistoryRequests) != []
      ensures found ==> request == old(pendingHistoryRequests)[0]
    {
      found, request := false, Request(NO_CHANNEL, 0);
      if pendingHistoryRequests != [] {
        found, request := true, pendingHistoryRequests[0];
        pendingHistoryRequests := pendingHistoryRequests[1..];
      }
    }

    method OnAppendMessage(channelId: int, row: Row)
      requires Valid()
      modifies this, chatMessageModel
      ensures Valid() && State() == Next(old(State()), MessageArrives(channelId, row))
    {
      if channelId != loadedChannelId {
        return;
      }
      chatMessageModel.AppendEntry(row);
      chatMessageModel.TrimToLimit(HISTORY_MEMORY_LIMIT);
    }

    method OnSetHistory(channelId: int, hasMore: bool, page: seq<Row>)
      requires Valid()
      modifies this, chatMessageModel
      ensures Valid() && State() == Next(old(State()), HistoryArrives(channelId, hasMore, page))
    {
      if channelId != selectedTextChannelId {
        return;
      }
      chatMessageModel.SetHistory(page);
      loadedChannelId := channelId;
      hasMoreHistory := hasMore;
    }

    method OnPrependHistory(channelId: int, hasMore: bool, page: seq<Row>)
      requires Valid()
      modifies this, chatMessageModel
      ensures Valid() && State() == Next(old(State()), OlderArrives(channelId, hasMore, page))
    {
      historyLoadInFlight := false;
      if channelId != loadedChannelId {
        return;
      }
      chatMessageModel.PrependEntries(page);
      hasMoreHistory := hasMore;
    }

    method OnConfirmLogout()
      requires Valid()
      modifies this, chatMessageModel
      ensures Valid() && State() == Next(old(State()), LogoutConfirmed)
    {
      chatMessageModel.Clear();
      hasMoreHistory := false;
      historyLoadInFlight := false;
      loadedChannelId := NO_CHANNEL;
      pendingHistoryRequests := [];
    }
  }
}
