/** The chat history messages on the wire: printed by the server and parsed by the client
    (src/Core/Application.cpp, src/UI/DiscordBackend.cpp). */
module ChatWire {
  import opened Basics

  // ---- Searching and cutting strings --------------------------------------------

  /** find(c): the first position, or |s| when there is none. */
  function FindFirst(s: string, c: char): (i: nat)
    ensures i <= |s| && c !in s[..i] && (i < |s| ==> s[i] == c)
  {
    if s == [] then 0
    else if s[0] == c then 0
    else
      var j := FindFirst(s[1..], c);
      assert s[..j + 1] == [s[0]] + s[1..][..j];
      j + 1
  }

  /** rfind(c). */
  function FindLast(s: string, c: char): (i: Option<nat>)
    ensures i.None? ==> c !in s
    ensures i.Some? ==> i.value < |s| && s[i.value] == c && c !in s[i.value + 1..]
  {
    if s == [] then None
    else if s[|s| - 1] == c then Some(|s| - 1)
    else
      var r := FindLast(s[..|s| - 1], c);
      assert s == s[..|s| - 1] + [s[|s| - 1]];
      assert r.Some? ==> s[r.value + 1..] == s[..|s| - 1][r.value + 1..] + [s[|s| - 1]];
      r
  }

  /** std::getline: the text up to the delimiter, and what follows it. Reading fails when
      nothing is left. */
  function GetLine(s: string, delimiter: char): (r: (string, string))
    ensures delimiter !in r.0
    ensures s != "" ==> |r.1| < |s|
  {
    var i := FindFirst(s, delimiter);
    if i < |s| then (s[..i], s[i + 1..]) else (s, "")
  }

  lemma {:induction false} FindFirstAt(a: string, c: char, b: string)
    requires c !in a
    ensures FindFirst(a + [c] + b, c) == |a|
  {
    var s := a + [c] + b;
    if a != [] {
      FindFirstAt(a[1..], c, b);
      assert s[1..] == a[1..] + [c] + b;
    }
  }

  lemma GetLineAt(a: string, c: char, b: string)
    requires c !in a
    ensures GetLine(a + [c] + b, c) == (a, b)
  {
    FindFirstAt(a, c, b);
    var s := a + [c] + b;
    assert s[..|a|] == a && s[|a| + 1..] == b;
  }

  lemma {:induction false} FindLastAt(a: string, c: char, b: string)
    requires c !in b
    ensures FindLast(a + [c] + b, c) == Some(|a|)
    decreases |b|
  {
    var s := a + [c] + b;
    if b == [] {
      assert s[|s| - 1] == c;
    } else {
      assert s[|s| - 1] == b[|b| - 1];
      assert s[..|s| - 1] == a + [c] + b[..|b| - 1];
      FindLastAt(a, c, b[..|b| - 1]);
    }
  }

  // ---- Decimal numbers ----------------------------------------------------------

  function Digit(d: nat): char
    requires d < 10
  {
    ('0' as int + d) as char
  }

  predicate IsDigit(c: char) { '0' <= c <= '9' }

  function Digits(n: nat): (s: string)
    ensures |s| > 0 && forall c <- s :: IsDigit(c)
  {
    if n < 10 then [Digit(n)] else Digits(n / 10) + [Digit(n % 10)]
  }

  /** std::to_string. */
  function ToString(i: int): string {
    if i < 0 then "-" + Digits(-i) else Digits(i)
  }

  predicate IsSpace(c: char) {
    c == ' ' || '\t' <= c <= '\r'
  }

  function SkipSpace(s: string): string {
    if s != [] && IsSpace(s[0]) then SkipSpace(s[1..]) else s
  }

  /** The number spelled by the leading digits; whatever follows them is ignored. */
  function LeadingNumber(s: string, value: nat): nat {
    if s != [] && IsDigit(s[0]) then LeadingNumber(s[1..], 10 * value + (s[0] as int - '0' as int)) else value
  }

  /** std::stoi and std::stoll: None where they throw. */
  function ParseInteger(text: string, min: int, max: int): Option<int> {
    var s := SkipSpace(text);
    var negative := s != [] && s[0] == '-';
    var digits := if s != [] && (s[0] == '-' || s[0] == '+') then s[1..] else s;
    if digits == [] || !IsDigit(digits[0]) then None
    else
      var magnitude: int := LeadingNumber(digits, 0);
      var value := if negative then -magnitude else magnitude;
      if min <= value <= max then Some(value) else None
  }

  const INT_MIN := -0x8000_0000
  const INT_MAX := 0x7FFF_FFFF
  const LLONG_MIN := -0x8000_0000_0000_0000
  const LLONG_MAX := 0x7FFF_FFFF_FFFF_FFFF

  lemma {:induction false} LeadingNumberSnoc(s: string, c: char, value: nat)
    requires IsDigit(c) && forall d <- s :: IsDigit(d)
    ensures LeadingNumber(s + [c], value) == 10 * LeadingNumber(s, value) + (c as int - '0' as int)
  {
    if s == [] {
      assert s + [c] == [c] && [c][1..] == [];
    } else {
      assert IsDigit(s[0]) by {
        assert s[0] in s;
      }
      LeadingNumberSnoc(s[1..], c, 10 * value + (s[0] as int - '0' as int));
      assert (s + [c])[1..] == s[1..] + [c];
    }
  }

  lemma {:induction false} DigitsSpellNumber(n: nat)
    ensures LeadingNumber(Digits(n), 0) == n
  {
    if n < 10 {
      assert Digits(n)[1..] == [];
    } else {
      DigitsSpellNumber(n / 10);
      LeadingNumberSnoc(Digits(n / 10), Digit(n % 10), 0);
    }
  }

  /** Printing a number and parsing it gives it back, within the type's range. */
  lemma NumberRoundTrip(i: int, min: int, max: int)
    requires min <= i <= max
    ensures ParseInteger(ToString(i), min, max) == Some(i)
    ensures '|' !in ToString(i) && '\n' !in ToString(i)
  {
    DigitsSpellNumber(if i < 0 then -i else i);
    var digits := Digits(if i < 0 then -i else i);
    assert IsDigit(digits[0]);
    assert i < 0 ==> ToString(i)[1..] == digits;
  }

  // ---- Names and messages -------------------------------------------------------

  const MAX_USERNAME_LENGTH := 32

  predicate NameCharacter(c: char) {
    c !in {'|', ':', '=', ',', '\n', '\r'} && c as int >= 0x20
  }

  method IsValidDisplayName(name: string) returns (valid: bool)
    ensures valid <==> ValidName(name)
  {
    if name == [] || |name| > MAX_USERNAME_LENGTH {
      return false;
    }
    for i := 0 to |name|
      invariant forall j :: 0 <= j < i ==> NameCharacter(name[j])
    {
      var c := name[i];
      assert c in name;
      if c == '|' || c == ':' || c == '=' || c == ',' || c == '\n' || c == '\r' || c as int < 0x20 {
        return false;
      }
    }
    return true;
  }

  predicate ValidName(name: string) {
    1 <= |name| <= MAX_USERNAME_LENGTH && forall c <- name :: NameCharacter(c)
  }

  datatype Message = Message(author: string, content: string, timestamp: int)

  /** Stored rows: the author passed the name check (or is "Unknown"), the text was read
      up to a newline, the time is a positive 64-bit count. Pipes and ": " are allowed. */
  predicate Storable(m: Message) {
    ValidName(m.author) && '\n' !in m.content && 0 < m.timestamp <= LLONG_MAX
  }

  // ---- The server prints ----------------------------------------------------------

  function PrintLine(m: Message): string {
    m.author + ": " + m.content + "|" + ToString(m.timestamp) + "\n"
  }

  function PrintLines(ms: seq<Message>): string {
    if ms == [] then "" else PrintLine(ms[0]) + PrintLines(ms[1..])
  }

  /** CHAT_LOG answers the first request for a channel, CHAT_LOG_MORE the later ones. */
  function Prefix(more: bool): string { if more then "CHAT_LOG_MORE|" else "CHAT_LOG|" }

  function PrintPage(more: bool, channelId: int, hasMore: bool, ms: seq<Message>): string {
    Prefix(more) + ToString(channelId) + "|" + (if hasMore then "1" else "0") + "|" + PrintLines(ms)
  }

  method BuildChatResponse(more: bool, channelId: int, hasMore: bool, history: seq<Message>) returns (response: string)
    ensures response == PrintPage(more, channelId, hasMore, history)
  {
    response := Prefix(more) + ToString(channelId) + "|" + (if hasMore then "1" else "0") + "|";
    for i := 0 to |history|
      invariant response + PrintLines(history[i..]) == PrintPage(more, channelId, hasMore, history)
    {
      assert history[i..][1..] == history[i + 1..];
      var line := history[i].author + ": " + history[i].content + "|" + ToString(history[i].timestamp) + "\n";
      response := response + line;
    }
  }

  // ---- The client parses ----------------------------------------------------------

  /** A line of a page: its text up to the last pipe, and the time after it, 0 when there
      is none that parses. */
  function ParseLine(line: string): (string, int) {
    match FindLast(line, '|')
    case None => (line, 0)
    case Some(i) =>
      (line[..i], match ParseInteger(line[i + 1..], LLONG_MIN, LLONG_MAX) case Some(t) => t case None => 0)
  }

  function ParseLines(s: string): seq<(string, int)>
    decreases |s|
  {
    if s == "" then []
    else
      var (line, rest) := GetLine(s, '\n');
      (if line == "" then [] else [ParseLine(line)]) + ParseLines(rest)
  }

  datatype Parsed = Parsed(more: bool, channelId: int, hasMore: bool, lines: seq<(string, int)>)

  function StartsWith(s: string, prefix: string): bool {
    |prefix| <= |s| && s[..|prefix|] == prefix
  }

  /** The history branches of the push handler; None when the page is dropped. */
  function ParsePage(payload: string): Option<Parsed> {
    if StartsWith(payload, "CHAT_LOG|") then ParseBody(false, payload[9..])
    else if StartsWith(payload, "CHAT_LOG_MORE|") then ParseBody(true, payload[14..])
    else None
  }

  function ParseBody(more: bool, body: string): Option<Parsed> {
    var (channelIdString, afterChannel) := GetLine(body, '|');
    var (hasMoreString, lines) := GetLine(afterChannel, '|');
    match ParseInteger(channelIdString, INT_MIN, INT_MAX)
    case None => None
    case Some(channelId) => Some(Parsed(more, channelId, hasMoreString == "1", ParseLines(lines)))
  }

  method ReadHistory(lines: string) returns (history: seq<(string, int)>)
    ensures history == ParseLines(lines)
  {
    history := [];
    var stream := lines;
    while stream != ""
      invariant history + ParseLines(stream) == ParseLines(lines)
      decreases |stream|
    {
      var (chatLine, rest) := GetLine(stream, '\n');
      if chatLine != "" {
        var messageText, epochMs := ReadLine(chatLine);
        assert ParseLines(stream) == [(messageText, epochMs)] + ParseLines(rest);
        assert history + [(messageText, epochMs)] + ParseLines(rest) == history + ParseLines(stream);
        history := history + [(messageText, epochMs)];
      } else {
        assert ParseLines(stream) == ParseLines(rest);
      }
      stream := rest;
    }
  }

  method ReadLine(chatLine: string) returns (messageText: string, epochMs: int)
    ensures (messageText, epochMs) == ParseLine(chatLine)
  {
    epochMs := 0;
    messageText := chatLine;
    var lastPipe := FindLast(chatLine, '|');
    if lastPipe.Some? {
      var parsed := ParseInteger(chatLine[lastPipe.value + 1..], LLONG_MIN, LLONG_MAX);
      if parsed.Some? {
        epochMs := parsed.value;
      }
      messageText := chatLine[..lastPipe.value];
    }
  }

  /** indexOf(": "): the first position, or None. */
  function FindSeparator(s: string): (i: Option<nat>)
    ensures i.Some? ==> i.value + 2 <= |s|
  {
    if |s| < 2 then None
    else if s[0] == ':' && s[1] == ' ' then Some(0)
    else match FindSeparator(s[1..]) case None => None case Some(i) => Some(i + 1)
  }

  /** Author and content of a row; a time that is not positive is replaced by the clock. */
  function BuildChatEntry(raw: string, timestamp: int, now: int): Message {
    var effective := if timestamp > 0 then timestamp else now;
    match FindSeparator(raw)
    case Some(i) => if i > 0 then Message(raw[..i], raw[i + 2..], effective) else Message("System", raw, effective)
    case None => Message("System", raw, effective)
  }

  function BuildEntries(lines: seq<(string, int)>, now: int): seq<Message> {
    if lines == [] then [] else [BuildChatEntry(lines[0].0, lines[0].1, now)] + BuildEntries(lines[1..], now)
  }

  // ---- Round trip -----------------------------------------------------------------

  lemma {:induction false} SeparatorAt(author: string, content: string)
    requires ':' !in author
    ensures FindSeparator(author + ": " + content) == Some(|author|)
  {
    var s := author + ": " + content;
    if author != [] {
      SeparatorAt(author[1..], content);
      assert s[1..] == author[1..] + ": " + content;
      assert s[0] == author[0];
    }
  }

  lemma EntryRoundTrip(m: Message, now: int)
    requires ValidName(m.author) && m.timestamp > 0
    ensures BuildChatEntry(m.author + ": " + m.content, m.timestamp, now) == m
    ensures '\n' !in m.author
  {
    var text := m.author + ": " + m.content;
    assert forall c <- m.author :: NameCharacter(c);
    SeparatorAt(m.author, m.content);
    assert text[..|m.author|] == m.author && text[|m.author| + 2..] == m.content;
  }

  lemma ParseLineAt(text: string, timestamp: int)
    requires LLONG_MIN <= timestamp <= LLONG_MAX
    ensures ParseLine(text + "|" + ToString(timestamp)) == (text, timestamp)
  {
    var line := text + "|" + ToString(timestamp);
    NumberRoundTrip(timestamp, LLONG_MIN, LLONG_MAX);
    FindLastAt(text, '|', ToString(timestamp));
    assert line[..|text|] == text && line[|text| + 1..] == ToString(timestamp);
  }

  /** One stored row survives: pipes and ": " in the text do not confuse it. */
  lemma LineRoundTrip(m: Message, now: int)
    requires Storable(m)
    ensures var line := m.author + ": " + m.content + "|" + ToString(m.timestamp);
            && line != "" && '\n' !in line
            && BuildChatEntry(ParseLine(line).0, ParseLine(line).1, now) == m
  {
    EntryRoundTrip(m, now);
    ParseLineAt(m.author + ": " + m.content, m.timestamp);
    NumberRoundTrip(m.timestamp, LLONG_MIN, LLONG_MAX);
  }

  lemma {:induction false} LinesRoundTrip(ms: seq<Message>, now: int)
    requires forall m <- ms :: Storable(m)
    ensures BuildEntries(ParseLines(PrintLines(ms)), now) == ms
  {
    if ms != [] {
      var line := ms[0].author + ": " + ms[0].content + "|" + ToString(ms[0].timestamp);
      LineRoundTrip(ms[0], now);
      LinesRoundTrip(ms[1..], now);
      assert PrintLines(ms) == line + ['\n'] + PrintLines(ms[1..]);
      GetLineAt(line, '\n', PrintLines(ms[1..]));
      var rest := ParseLines(PrintLines(ms[1..]));
      assert ParseLines(PrintLines(ms)) == [ParseLine(line)] + rest;
      assert ([ParseLine(line)] + rest)[1..] == rest;
    }
  }

  lemma BodyRoundTrip(more: bool, digits: string, channelId: int, flag: string, lines: string)
    requires '|' !in digits && '|' !in flag && ParseInteger(digits, INT_MIN, INT_MAX) == Some(channelId)
    ensures ParseBody(more, digits + ['|'] + (flag + ['|'] + lines)) ==
            Some(Parsed(more, channelId, flag == "1", ParseLines(lines)))
  {
    GetLineAt(digits, '|', flag + ['|'] + lines);
    GetLineAt(flag, '|', lines);
  }

  lemma Regroup(prefix: string, digits: string, flag: string, lines: string)
    ensures prefix + digits + "|" + flag + "|" + lines == prefix + (digits + ['|'] + (flag + ['|'] + lines))
  {
    assert digits + ['|'] + (flag + ['|'] + lines) == digits + "|" + flag + "|" + lines;
  }

  /** A printed page comes back as the same page: kind, channel, hasMore flag, and every
      message with its author, text and time, in order. */
  lemma HistoryRoundTrip(more: bool, channelId: int, hasMore: bool, ms: seq<Message>, now: int)
    requires INT_MIN <= channelId <= INT_MAX && forall m <- ms :: Storable(m)
    ensures var page := ParsePage(PrintPage(more, channelId, hasMore, ms));
            && page.Some?
            && page.value.more == more && page.value.channelId == channelId && page.value.hasMore == hasMore
            && BuildEntries(page.value.lines, now) == ms
  {
    var digits, flag, lines := ToString(channelId), if hasMore then "1" else "0", PrintLines(ms);
    Regroup(Prefix(more), digits, flag, lines);
    PrefixTellsKind(more, digits + ['|'] + (flag + ['|'] + lines));
    NumberRoundTrip(channelId, INT_MIN, INT_MAX);
    BodyRoundTrip(more, digits, channelId, flag, lines);
    LinesRoundTrip(ms, now);
  }

  lemma PrefixTellsKind(more: bool, body: string)
    ensures ParsePage(Prefix(more) + body) == ParseBody(more, body)
  {
    var payload := Prefix(more) + body;
    assert payload[|Prefix(more)|..] == body && payload[..|Prefix(more)|] == Prefix(more);
    assert more ==> payload[8] == '_';
    assert "CHAT_LOG|"[8] == '|';
    if more {
      assert payload[..9][8] == '_';
    }
  }

  // ---- What does not parse --------------------------------------------------------------

  /** A line without a time is all text, and its time is taken from the clock. */
  lemma LineWithoutTime(line: string)
    requires '|' !in line
    ensures ParseLine(line) == (line, 0)
  {}

  lemma {:induction false} NoSeparator(raw: string)
    requires ':' !in raw
    ensures FindSeparator(raw) == None
  {
    if |raw| >= 2 {
      NoSeparator(raw[1..]);
    }
  }

  /** A text that names no author is the system's, and a time that is missing is now. */
  lemma EntryWithoutAuthor(raw: string, timestamp: int, now: int)
    ensures ':' !in raw ==>
              BuildChatEntry(raw, timestamp, now) == Message("System", raw, if timestamp > 0 then timestamp else now)
    ensures BuildChatEntry(": " + raw, timestamp, now) ==
            Message("System", ": " + raw, if timestamp > 0 then timestamp else now)
  {
    if ':' !in raw {
      NoSeparator(raw);
    }
  }

  // ---- Requests ---------------------------------------------------------------------

  datatype TcpPayload = TcpPayload(messageType: string, senderUuid: string, rawData: string)

  function ParseTcpPayload(raw: string): TcpPayload {
    var i := FindFirst(raw, '|');
    if i == |raw| then TcpPayload(raw, "", "")
    else
      var rest := raw[i + 1..];
      var j := FindFirst(rest, '|');
      if j == |rest| then TcpPayload(raw[..i], rest, "")
      else TcpPayload(raw[..i], rest[..j], rest[j + 1..])
  }

  function PrintRequest(p: TcpPayload): string {
    p.messageType + "|" + p.senderUuid + "|" + p.rawData
  }

  /** The first pipe separates what was in front of it from the rest. */
  lemma CutAtPipe(s: string, rest: string)
    requires '|' !in s
    ensures var text := s + ['|'] + rest;
            FindFirst(text, '|') == |s| < |text| && text[..|s|] == s && text[|s| + 1..] == rest
  {
    FindFirstAt(s, '|', rest);
  }

  lemma RequestRoundTrip(p: TcpPayload)
    requires '|' !in p.messageType && '|' !in p.senderUuid
    ensures ParseTcpPayload(PrintRequest(p)) == p
  {
    var rest := p.senderUuid + ['|'] + p.rawData;
    assert PrintRequest(p) == p.messageType + ['|'] + rest;
    CutAtPipe(p.messageType, rest);
    CutAtPipe(p.senderUuid, p.rawData);
  }

  /** How the server reads REQ_CHAT_LOG_BEFORE. */
  function ParsePageRequest(rawData: string): (Option<int>, Option<int>) {
    var (channelIdString, rest) := GetLine(rawData, '|');
    var (beforeString, _) := GetLine(rest, '\n');
    (ParseInteger(channelIdString, INT_MIN, INT_MAX), ParseInteger(beforeString, LLONG_MIN, LLONG_MAX))
  }

  /** The client's request for older rows reaches the server's query as it was meant. */
  lemma PageRequestRoundTrip(uuid: string, channelId: int, before: int)
    requires '|' !in uuid && INT_MIN <= channelId <= INT_MAX && LLONG_MIN <= before <= LLONG_MAX
    ensures var request := "REQ_CHAT_LOG_BEFORE" + "|" + uuid + "|" + (ToString(channelId) + "|" + ToString(before));
            && ParseTcpPayload(request).messageType == "REQ_CHAT_LOG_BEFORE"
            && ParseTcpPayload(request).senderUuid == uuid
            && ParsePageRequest(ParseTcpPayload(request).rawData) == (Some(channelId), Some(before))
  {
    var data := ToString(channelId) + ['|'] + ToString(before);
    RequestRoundTrip(TcpPayload("REQ_CHAT_LOG_BEFORE", uuid, ToString(channelId) + "|" + ToString(before)));
    assert ToString(channelId) + "|" + ToString(before) == data;
    NumberRoundTrip(channelId, INT_MIN, INT_MAX);
    NumberRoundTrip(before, LLONG_MIN, LLONG_MAX);
    GetLineAt(ToString(channelId), '|', ToString(before));
    assert GetLine(ToString(before), '\n').0 == ToString(before);
  }
}
