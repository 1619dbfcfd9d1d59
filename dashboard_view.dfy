/**
 * The display helpers of frontend/dashboard.js: the alert icon, the
 * "time ago" label, the chat message formatting, the first-five alert list,
 * the placeholders for empty lists, the `|| 0` stat cards and the search
 * trigger. The page's DOM is left out; each helper is the value it puts there.
 */
module DashboardView {
  import opened Common
  import opened Text
  import Server

  /* ---------- getAlertIcon ---------- */

  const WarningIcon := "fas fa-exclamation-triangle"
  const DangerIcon := "fas fa-exclamation-circle"
  const SuccessIcon := "fas fa-check-circle"
  const InfoIcon := "fas fa-info-circle"

  /**
   * The icon class of an alert type, compared with `===`: the three known
   * type strings get their own icon, any other value (another string, a
   * number, a missing type) the info icon.
   */
  function AlertIcon(kind: Option<Json>): (icon: string)
    ensures kind == Some(JStr("warning")) <==> icon == WarningIcon
    ensures kind == Some(JStr("danger")) <==> icon == DangerIcon
    ensures kind == Some(JStr("success")) <==> icon == SuccessIcon
    ensures icon in {WarningIcon, DangerIcon, SuccessIcon, InfoIcon}
  {
    match kind
    case Some(JStr(t)) =>
      if t == "warning" then WarningIcon
      else if t == "danger" then DangerIcon
      else if t == "success" then SuccessIcon
      else InfoIcon
    case _ => InfoIcon
  }

  /* ---------- getTimeAgo ---------- */

  const MinuteMillis := 60000
  const HourMillis := 3600000
  const DayMillis := 86400000

  /** The unit and count a time difference is shown in. */
  datatype Age = Minutes(count: int) | Hours(count: int) | Days(count: int)

  /**
   * The bucket of a difference of `diff` milliseconds: whole minutes below an
   * hour, whole hours below a day, whole days beyond. Counts are rounded
   * down, so a negative difference (a date in the future) always shows as a
   * negative number of minutes.
   */
  function AgeOf(diff: int): (a: Age)
    ensures a.Minutes? <==> diff < HourMillis
    ensures a.Hours? <==> HourMillis <= diff < DayMillis
    ensures a.Days? <==> DayMillis <= diff
    ensures a.Minutes? ==> a.count * MinuteMillis <= diff < (a.count + 1) * MinuteMillis && a.count < 60
    ensures a.Hours? ==> a.count * HourMillis <= diff < (a.count + 1) * HourMillis && 1 <= a.count < 24
    ensures a.Days? ==> a.count * DayMillis <= diff < (a.count + 1) * DayMillis && 1 <= a.count
    ensures diff < 0 ==> a.Minutes? && a.count < 0
  {
    // Dafny's division by a positive constant rounds down, like Math.floor.
    var minutes := diff / MinuteMillis;
    var hours := diff / HourMillis;
    var days := diff / DayMillis;
    if minutes < 60 then Minutes(minutes)
    else if hours < 24 then Hours(hours)
    else Days(days)
  }

  const MinutesSuffix := " minutes ago"
  const HoursSuffix := " hours ago"
  const DaysSuffix := " days ago"

  /**
   * The label of an age, the count rendered as a template literal renders an
   * integer. A label determines its age: reading it back gives the unit and
   * the count.
   */
  function AgeLabel(a: Age): (shown: string)
    ensures ParseAgeLabel(shown) == Some(a)
  {
    match a
    case Minutes(n) =>
      ParseWithOwnSuffix(n, MinutesSuffix);
      IntToString(n) + MinutesSuffix
    case Hours(n) =>
      var s := IntToString(n) + HoursSuffix;
      assert s[|s| - 10] == ' ';
      ParseWithOtherSuffix(s, MinutesSuffix, 2);
      ParseWithOwnSuffix(n, HoursSuffix);
      s
    case Days(n) =>
      var s := IntToString(n) + DaysSuffix;
      assert s[|s| - 9] == ' ';
      ParseWithOtherSuffix(s, MinutesSuffix, 3);
      ParseWithOtherSuffix(s, HoursSuffix, 1);
      ParseWithOwnSuffix(n, DaysSuffix);
      s
  }

  /**
   * `getTimeAgo`, with the difference between now and the alert's date given
   * in milliseconds: the label shown names the bucket and count `AgeOf` chose.
   */
  function TimeAgo(diff: int): (shown: string)
    ensures ParseAgeLabel(shown) == Some(AgeOf(diff))
  {
    AgeLabel(AgeOf(diff))
  }

  function ParseWithSuffix(s: string, suffix: string): Option<int>
  {
    if |s| >= |suffix| && s[|s| - |suffix|..] == suffix then ParseInt(s[..|s| - |suffix|]) else None
  }

  /** Reads an age back from its label. */
  function ParseAgeLabel(s: string): Option<Age>
  {
    match ParseWithSuffix(s, MinutesSuffix)
    case Some(n) => Some(Minutes(n))
    case None =>
      match ParseWithSuffix(s, HoursSuffix)
      case Some(n) => Some(Hours(n))
      case None =>
        match ParseWithSuffix(s, DaysSuffix)
        case Some(n) => Some(Days(n))
        case None => None
  }

  /** A label ending in `suffix` after a rendered integer reads back as that integer. */
  lemma ParseWithOwnSuffix(n: int, suffix: string)
    ensures ParseWithSuffix(IntToString(n) + suffix, suffix) == Some(n)
  {
    var s := IntToString(n) + suffix;
    IntToStringRoundTrip(n);
    assert s[|s| - |suffix|..] == suffix;
    assert s[..|s| - |suffix|] == IntToString(n);
  }

  /** A text that differs from `suffix` at position `j` of its last |suffix| characters does not end with it. */
  lemma ParseWithOtherSuffix(s: string, suffix: string, j: nat)
    requires |s| >= |suffix| ==> j < |suffix| && s[|s| - |suffix| + j] != suffix[j]
    ensures ParseWithSuffix(s, suffix) == None
  {
    if |s| >= |suffix| {
      assert s[|s| - |suffix|..][j] != suffix[j];
    }
  }

  /* ---------- addMessage text formatting ---------- */

  /** The emoji the chat wraps for styling; each is one code point. */
  const Emojis: set<char> := {
    '\U{1F4CA}', '\U{1F331}', '\U{1F4A7}', '\U{1F4C8}', '\U{1F4E2}', '\U{1F4DA}',
    '\U{1F41B}', '\U{1F33F}', '\U{1F4A6}', '\U{1F33E}', '\U{1F4E6}' }

  /** One of the listed emoji. */
  predicate IsEmoji(c: char)
  {
    c in Emojis
  }

  const EmojiOpen := "<span class=\"emoji\">"
  const EmojiClose := "</span>"

  /**
   * The third `replace`: every listed emoji wrapped in a styling span, every
   * other character kept. Text without the listed emoji is left as it is, and
   * the wrapping adds no line break.
   */
  function Emojify(s: string): (html: string)
    ensures (forall i :: 0 <= i < |s| ==> !IsEmoji(s[i])) ==> html == s
    ensures '\n' !in s ==> '\n' !in html
    decreases |s|
  {
    if s == [] then []
    else (if IsEmoji(s[0]) then EmojiOpen + [s[0]] + EmojiClose else [s[0]]) + Emojify(s[1..])
  }

  /** Each listed emoji is wrapped in the styling span; any other character is kept as it is. */
  lemma EmojifyChar(c: char)
    ensures IsEmoji(c) ==> Emojify([c]) == EmojiOpen + [c] + EmojiClose
    ensures !IsEmoji(c) ==> Emojify([c]) == [c]
  {
    assert [c][1..] == [];
  }

  lemma {:induction false} EmojifyConcat(a: string, b: string)
    ensures Emojify(a + b) == Emojify(a) + Emojify(b)
    decreases |a|
  {
    if a != [] {
      var w := if IsEmoji(a[0]) then EmojiOpen + [a[0]] + EmojiClose else [a[0]];
      assert (a + b)[0] == a[0];
      assert (a + b)[1..] == a[1..] + b;
      EmojifyConcat(a[1..], b);
      assert Emojify(a + b) == w + (Emojify(a[1..]) + Emojify(b));
      assert Emojify(a) == w + Emojify(a[1..]);
    } else {
      assert a + b == b;
    }
  }

  const ParagraphBreakHtml := "</p><p>"
  const LineBreakHtml := "<br>"

  /**
   * The formatting chain of `addMessage`: double newlines become paragraph
   * breaks, then the remaining newlines line breaks, then emoji are wrapped.
   * No newline survives.
   */
  function FormatMessage(text: string): (html: string)
    ensures '\n' !in html
  {
    var paragraphs := ReplaceAll(text, "\n\n", ParagraphBreakHtml);
    var lines := ReplaceAll(paragraphs, "\n", LineBreakHtml);
    Emojify(lines)
  }

  /** The message element's content: the formatted text inside one paragraph. */
  function MessageHtml(text: string): (html: string)
    ensures html == "<p>" + FormatMessage(text) + "</p>"
    ensures '\n' !in html
  {
    "<p>" + FormatMessage(text) + "</p>"
  }

  /**
   * Because double newlines are replaced first, a blank line after text
   * without newlines becomes one paragraph break, never two line breaks.
   */
  lemma ParagraphBreak(s: string, t: string)
    requires '\n' !in s
    ensures FormatMessage(s + "\n\n" + t) == FormatMessage(s) + ParagraphBreakHtml + FormatMessage(t)
  {
    var r1 := ReplaceAll(t, "\n\n", ParagraphBreakHtml);
    var r2 := ReplaceAll(r1, "\n", LineBreakHtml);
    ReplaceAllAfterClean(s, "\n\n", ParagraphBreakHtml, t);
    LinesAfterParagraph(s, r1);
    assert FormatMessage(s + "\n\n" + t) == Emojify(s + ParagraphBreakHtml + r2);
    assert FormatMessage(t) == Emojify(r2);
    FormatWithoutNewline(s);
    EmojifyConcat(s + ParagraphBreakHtml, r2);
    EmojifyConcat(s, ParagraphBreakHtml);
    MarkupKept();
  }

  /** The markup the formatting inserts holds no emoji. */
  lemma MarkupKept()
    ensures Emojify(ParagraphBreakHtml) == ParagraphBreakHtml
    ensures Emojify(LineBreakHtml) == LineBreakHtml
  {
    assert forall i :: 0 <= i < |ParagraphBreakHtml| ==> !IsEmoji(ParagraphBreakHtml[i]);
    assert forall i :: 0 <= i < |LineBreakHtml| ==> !IsEmoji(LineBreakHtml[i]);
  }

  /**
   * A single newline after text without newlines, not followed by a second
   * one, becomes one line break. With `ParagraphBreak` and
   * `FormatWithoutNewline` this fixes the formatting of every message.
   */
  lemma LineBreak(s: string, t: string)
    requires '\n' !in s && (t == [] || t[0] != '\n')
    ensures FormatMessage(s + "\n" + t) == FormatMessage(s) + LineBreakHtml + FormatMessage(t)
  {
    var r1 := ReplaceAll(t, "\n\n", ParagraphBreakHtml);
    var r2 := ReplaceAll(r1, "\n", LineBreakHtml);
    ParagraphsAtLoneNewline(s, t);
    ReplaceAllAfterClean(s, "\n", LineBreakHtml, r1);
    assert FormatMessage(s + "\n" + t) == Emojify(s + LineBreakHtml + r2);
    assert FormatMessage(t) == Emojify(r2);
    FormatWithoutNewline(s);
    EmojifyConcat(s + LineBreakHtml, r2);
    EmojifyConcat(s, LineBreakHtml);
    MarkupKept();
  }

  /**
   * Formatting read left to right at the first newline of a message: a
   * newline followed by a second one is a paragraph break, any other a line
   * break, and the rest is formatted on its own. So "a\nb\n\nc" becomes
   * "a<br>b</p><p>c".
   */
  lemma FormatAtFirstNewline(s: string, t: string)
    requires '\n' !in s
    ensures t != [] && t[0] == '\n' ==>
              FormatMessage(s + "\n" + t) == FormatMessage(s) + ParagraphBreakHtml + FormatMessage(t[1..])
    ensures (t == [] || t[0] != '\n') ==>
              FormatMessage(s + "\n" + t) == FormatMessage(s) + LineBreakHtml + FormatMessage(t)
  {
    if t != [] && t[0] == '\n' {
      assert s + "\n" + t == s + "\n\n" + t[1..];
      ParagraphBreak(s, t[1..]);
    } else {
      LineBreak(s, t);
    }
  }

  /** The paragraph pass copies newline-free text and a lone newline after it. */
  lemma ParagraphsAtLoneNewline(s: string, t: string)
    requires '\n' !in s && (t == [] || t[0] != '\n')
    ensures ReplaceAll(s + "\n" + t, "\n\n", ParagraphBreakHtml) == s + "\n" + ReplaceAll(t, "\n\n", ParagraphBreakHtml)
  {
    var u := "\n" + t;
    LoneNewline(t);
    ReplaceAllSkipClean(s, "\n\n", ParagraphBreakHtml, u);
    SeqAssoc(s, "\n", t);
    SeqAssoc(s, "\n", ReplaceAll(t, "\n\n", ParagraphBreakHtml));
  }

  /**
   * Regrouping a concatenation. Dafny proves it at once on its own; asserted
   * inside the lemma above, beside the unfoldings of `ReplaceAll`, the same
   * fact costs more than the whole proof may.
   */
  lemma SeqAssoc(a: string, b: string, c: string)
    ensures a + b + c == a + (b + c)
  {
  }

  /** A newline not followed by another is not a paragraph break. */
  lemma LoneNewline(t: string)
    requires t == [] || t[0] != '\n'
    ensures ReplaceAll("\n" + t, "\n\n", ParagraphBreakHtml) == "\n" + ReplaceAll(t, "\n\n", ParagraphBreakHtml)
  {
    var u := "\n" + t;
    if t == [] {
      assert ReplaceAll(t, "\n\n", ParagraphBreakHtml) == t;
    } else {
      assert u[..2] != "\n\n" by { assert u[..2][1] == t[0]; }
      assert u[1..] == t;
    }
  }

  /** Text without newlines formats to its emoji wrapping alone. */
  lemma FormatWithoutNewline(s: string)
    requires '\n' !in s
    ensures FormatMessage(s) == Emojify(s)
  {
    assert ReplaceAll(s, "\n\n", ParagraphBreakHtml) == s;
  }

  /** The line-break pass leaves text without newlines and the paragraph break alone. */
  lemma LinesAfterParagraph(s: string, x: string)
    requires '\n' !in s
    ensures ReplaceAll(s + ParagraphBreakHtml + x, "\n", LineBreakHtml)
            == s + ParagraphBreakHtml + ReplaceAll(x, "\n", LineBreakHtml)
  {
    ReplaceCharConcat(s, ParagraphBreakHtml, '\n', LineBreakHtml);
    ReplaceCharConcat(s + ParagraphBreakHtml, x, '\n', LineBreakHtml);
    assert '\n' !in ParagraphBreakHtml;
  }

  /* ---------- displayAlerts ---------- */

  /** An alert as the alerts endpoint sends it; `ageMillis` is the time since its creation. */
  datatype Alert = Alert(kind: Option<Json>, title: Option<Json>, message: Option<Json>, ageMillis: int)

  /** What one alert item shows. */
  datatype AlertCard = AlertCard(icon: string, title: Option<Json>, message: Option<Json>, timeAgo: string)

  const NoAlertsHtml :=
    "<div class=\"no-alerts\"><i class=\"fas fa-check-circle\"></i><p>No new alerts at this time.</p></div>"

  datatype AlertsView = NoAlerts(html: string) | AlertCards(cards: seq<AlertCard>)

  /** `alerts.slice(0, 5)`: the first five, or all of them when there are fewer. */
  function RecentAlerts<T>(alerts: seq<T>): (recent: seq<T>)
    ensures |recent| == if |alerts| < 5 then |alerts| else 5
    ensures recent <= alerts
  {
    if |alerts| < 5 then alerts else alerts[..5]
  }

  /** One alert item: the icon of its type, its title and message, and a label naming its age. */
  function Card(a: Alert): (card: AlertCard)
    ensures card.icon == AlertIcon(a.kind)
    ensures card.title == a.title && card.message == a.message
    ensures ParseAgeLabel(card.timeAgo) == Some(AgeOf(a.ageMillis))
  {
    AlertCard(AlertIcon(a.kind), a.title, a.message, TimeAgo(a.ageMillis))
  }

  /**
   * The alerts card: the fixed placeholder exactly when there is no alert;
   * otherwise one item for each of the first five alerts, in their order.
   */
  function DisplayAlerts(alerts: seq<Alert>): (view: AlertsView)
    ensures view.NoAlerts? <==> alerts == []
    ensures view.NoAlerts? ==> view.html == NoAlertsHtml
    ensures view.AlertCards? ==>
              && |view.cards| == (if |alerts| < 5 then |alerts| else 5)
              && forall i :: 0 <= i < |view.cards| ==> view.cards[i] == Card(alerts[i])
  {
    if |alerts| == 0 then NoAlerts(NoAlertsHtml)
    else
      var recent := RecentAlerts(alerts);
      AlertCards(seq(|recent|, i requires 0 <= i < |recent| => Card(recent[i])))
  }

  /* ---------- displayRecentYields ---------- */

  const NoYieldsHtml := "<p>No yield records found.</p>"

  datatype YieldsView = NoYields(html: string) | YieldItems(records: seq<Json>)

  /** The recent-yields card: the placeholder exactly when the list is empty, otherwise one item per record. */
  function DisplayRecentYields(records: seq<Json>): (view: YieldsView)
    ensures view.NoYields? <==> records == []
    ensures view.NoYields? ==> view.html == NoYieldsHtml
    ensures view.YieldItems? ==> view.records == records
  {
    if |records| == 0 then NoYields(NoYieldsHtml) else YieldItems(records)
  }

  /**
   * `data.recentYields || []`: None when the response is `null`, where
   * reading the property fails; otherwise no records when the property is
   * missing or falsy, the array's elements when it is an array, and None for
   * any other value, on which the page would fail before rendering.
   */
  function RecentYieldsOf(data: Json): (records: Option<seq<Json>>)
    ensures data == JNull ==> records == None
    ensures data != JNull && Falsy(Field(data, "recentYields")) ==> records == Some([])
    ensures data != JNull && !Falsy(Field(data, "recentYields")) && Field(data, "recentYields").value.JArr? ==>
              records == Some(Field(data, "recentYields").value.items)
    ensures records.None? <==>
              data == JNull || (!Falsy(Field(data, "recentYields")) && !Field(data, "recentYields").value.JArr?)
  {
    var v := Field(data, "recentYields");
    if data == JNull then None
    else if Falsy(v) then Some([])
    else if v.value.JArr? then Some(v.value.items)
    else None
  }

  /** The server's stats response always reaches the card: one item per recent yield row. */
  lemma StatsResponseShowsRecentYields(counts: seq<Row>, recentRows: seq<Row>)
    ensures RecentYieldsOf(JObj(Server.MergeStats(counts, recentRows))) == Some(Server.RowsBody(recentRows).items)
  {
    var merged := Server.MergeStats(counts, recentRows);
    assert Get(merged, "recentYields") == Some(Server.RowsBody(recentRows));
  }

  /* ---------- stat cards ---------- */

  /** `value || 0`: a falsy or missing value shows as 0, anything else as itself. */
  function OrZero(v: Option<Json>): (shown: Json)
    ensures Falsy(v) ==> shown == JNum(0)
    ensures !Falsy(v) ==> shown == v.value
    ensures !Falsy(Some(shown)) || shown == JNum(0)
  {
    if Falsy(v) then JNum(0) else v.value
  }

  /** The properties the four stat cards read, in card order. */
  const StatCardFields := ["totalCrops", "totalFertilizers", "totalYieldRecords", "totalAlerts"]

  /**
   * What the four stat cards show for a stats response: None for a `null`
   * response, where reading `data.totalCrops` fails before any card is
   * written; otherwise each card the `|| 0` default of its property.
   */
  function StatCards(data: Json): (cards: Option<seq<Json>>)
    ensures cards.None? <==> data == JNull
    ensures cards.Some? ==> |cards.value| == |StatCardFields|
    ensures cards.Some? ==> forall i :: 0 <= i < |cards.value| ==> cards.value[i] == OrZero(Field(data, StatCardFields[i]))
  {
    if data == JNull then None
    else Some(seq(|StatCardFields|, i requires 0 <= i < |StatCardFields| => OrZero(Field(data, StatCardFields[i]))))
  }

  /** The columns the server's counts statement names. */
  const CountColumns := {"totalCrops", "totalFertilizers", "totalYieldRecords"}

  /**
   * For the server's stats response the first three cards show its counts
   * (or 0 for a zero count), and the fourth card is always 0: the server
   * sends no `totalAlerts`.
   */
  lemma StatCardsOfServerStats(counts: seq<Row>, recentRows: seq<Row>)
    requires counts != [] ==> counts[0].Keys == CountColumns
    ensures var cards := StatCards(JObj(Server.MergeStats(counts, recentRows)));
            && cards.Some?
            && cards.value[3] == JNum(0)
            && (counts != [] ==> forall i :: 0 <= i < 3 ==> cards.value[i] == OrZero(Some(counts[0][StatCardFields[i]])))
  {
    var merged := Server.MergeStats(counts, recentRows);
    assert "totalAlerts" !in merged;
  }

  /* ---------- search input ---------- */

  /** What typing in the search box does: search for the trimmed query, or clear the results. */
  datatype SearchAction = Search(query: string) | ClearResults

  /**
   * A search runs exactly when the trimmed input is at least two UTF-16 code
   * units long, and then with the trimmed input.
   */
  function OnSearchInput(value: string): (action: SearchAction)
    ensures action.Search? <==> Utf16Length(Trim(value)) >= 2
    ensures action.Search? ==> action.query == Trim(value)
  {
    var query := Trim(value);
    if Utf16Length(query) >= 2 then Search(query) else ClearResults
  }

  /** Input made only of white space never searches. */
  lemma BlankInputClears(value: string)
    requires forall i :: 0 <= i < |value| ==> IsJsSpace(value[i])
    ensures OnSearchInput(value) == ClearResults
  {
  }

  /** A query of two or more characters that does not start or end with white space is searched as typed. */
  lemma TrimmedQuerySearched(value: string)
    requires |value| >= 2 && !IsJsSpace(value[0]) && !IsJsSpace(value[|value| - 1])
    ensures OnSearchInput(value) == Search(value)
  {
    assert TrimStart(value) == value;
    assert TrimEnd(value) == value;
  }

  /**
   * One character beyond the Basic Multilingual Plane, such as an emoji, is
   * two code units long and is searched on its own.
   */
  lemma AstralCharSearched(c: char)
    requires c >= '\U{10000}'
    ensures OnSearchInput([c]) == Search([c])
  {
    assert !IsJsSpace(c);
    assert TrimStart([c]) == [c];
    assert TrimEnd([c]) == [c];
  }
}
