/** Event synthesis for the subscription calendar (utils/calendar.js): from the upcoming
    adjustment dates and the latest trend record, the ordered list of calendar events. */
module Calendar {
  import opened Wrappers
  import opened Text
  import opened CivilTime
  import opened Schedule

  const EventUrl := "https://example.com/oil-price"
  const Category := "油价调整"
  const SummaryPrefix := "油价调整预期："
  const PendingPrefix := "油价调整预期：待预测"
  const PlaceholderSummary := "油价调整信息：暂无即将调整的油价信息"
  const PlaceholderDescription :=
    "目前没有预期的油价调整信息。\n您可以关注本页面获取最新油价信息。\n链接：https://example.com/oil-price"

  /** The three fields of the schedule record that the calendar route forwards. */
  datatype TrendInfo = TrendInfo(lastUpdate: Option<string>, lastTrend: Option<string>, lastAmount: Option<string>)

  /** What one createEvent call receives. */
  datatype Event = Event(start: Moment, end: Moment, summary: string, description: string,
                         url: string, categories: seq<string>)

  /** JavaScript truthiness of an optional string: undefined, null and "" are falsy. */
  predicate Truthy(v: Option<string>) { v.Some? && v.value != "" }

  /** A template literal's rendering of an optional string (`${undefined}` is "undefined"). */
  function JsText(v: Option<string>): string
  {
    match v
    case None => "undefined"
    case Some(s) => s
  }

  // ------------------------------------------------------------------ adjustTime

  /** The text rewrite inside adjustTime: the first "24:00" becomes "23:59". */
  function AdjustTimeText(s: string): (r: string)
    ensures |r| == |s|
    ensures !Contains(s, "24:00") ==> r == s
    ensures Contains(s, "24:00") ==>
              var i := IndexOf(s, "24:00").value;
              OccursAt(r, "23:59", i) && forall k :: 0 <= k < |s| && !(i <= k < i + 5) ==> r[k] == s[k]
  {
    if Contains(s, "24:00") then ReplaceFirst(s, "24:00", "23:59") else s
  }

  /** adjustTime: moment(undefined) is the current time; any string is read after the rewrite. */
  function AdjustTime(s: Option<string>, now: Instant): (m: Moment)
    ensures s.None? ==> m == At(now)
    ensures s.Some? && !Contains(s.value, "24:00") ==> m == Parse(s.value)
    ensures s.Some? && m.At? ==> |s.value| == 10 || |s.value| == 16
  {
    match s
    case None => At(now)
    case Some(text) => Parse(AdjustTimeText(text))
  }

  /** moment's add(1, 'hour'); an invalid date stays invalid. */
  function OneHourLater(m: Moment): (r: Moment)
    ensures m.At? <==> r.At?
    ensures m.At? ==> MinuteIndex(r.t) == MinuteIndex(m.t) + 60
  {
    match m
    case Invalid => Invalid
    case At(t) => At(AddHour(t))
  }

  /** No ':' before position c of s means "24:00" cannot start before c - 2. */
  lemma MarkerNotBeforeColon(s: string, c: nat, i: nat)
    requires forall k :: 0 <= k < c && k < |s| ==> s[k] != ':'
    requires OccursAt(s, "24:00", i)
    ensures c <= i + 2
  {
    assert s[i + 2] == "24:00"[2];
  }

  /** In "<ten characters without ':'> 24:00" the end-of-day marker is found at position 11,
      so the rewrite turns the text into the same date at 23:59. */
  lemma RewriteAfterDate(date: string)
    requires |date| == 10 && forall k :: 0 <= k < 10 ==> date[k] != ':'
    ensures AdjustTimeText(date + " 24:00") == date + " 23:59"
  {
    var raw := date + " 24:00";
    assert raw[11..16] == "24:00";
    assert OccursAt(raw, "24:00", 11);
    var found := IndexOf(raw, "24:00");
    assert found.Some? && found.value <= 11;
    if found.value < 11 {
      assert raw[11] != ':' && raw[12] != ':' && raw[10] != ':';
      MarkerNotBeforeColon(raw, 13, found.value);
      assert false;
    }
    assert ReplaceFirst(raw, "24:00", "23:59") == raw[..11] + "23:59" + raw[16..];
  }

  /** The date and time of a well-formed text hold no ':' before the minutes' colon. */
  lemma NoColonBeforeMinutes(s: string)
    requires DateShape(s) && (|s| == 10 || TimeShape(s))
    ensures forall k :: 0 <= k < 13 && k < |s| ==> s[k] != ':'
  {
    forall k | 0 <= k < 13 && k < |s|
      ensures s[k] != ':'
    {
      if k < 4 {
        assert s[0..4][k] == s[k];
      } else if 5 <= k < 7 {
        assert s[5..7][k - 5] == s[k];
      } else if 8 <= k < 10 {
        assert s[8..10][k - 8] == s[k];
      } else if 11 <= k < 13 {
        assert s[11..13][k - 11] == s[k];
      }
    }
  }

  /** A text moment reads stays readable after adjustTime's rewrite: in a well-formed date the
      marker can only be the time "24:00" itself, which becomes 23:59 of the same day. */
  lemma RewriteKeepsParsed(s: string)
    requires Parse(s).At?
    ensures Parse(AdjustTimeText(s)).At?
  {
    if Contains(s, "24:00") {
      MarkerOnlyAtTime(s);
      var date := s[..10];
      RewriteAfterDate(date);
      LastMinuteParses(date);
    }
  }

  /** In a text moment reads, "24:00" can only occur as the time after the date. */
  lemma MarkerOnlyAtTime(s: string)
    requires Parse(s).At? && Contains(s, "24:00")
    ensures |s| == 16 && s == s[..10] + " 24:00"
    ensures forall k :: 0 <= k < 10 ==> s[..10][k] != ':'
  {
    var i := IndexOf(s, "24:00").value;
    NoColonBeforeMinutes(s);
    MarkerNotBeforeColon(s, 13, i);
    assert s[11..16] == "24:00" && s[10] == ' ';
    assert s == s[..10] + [s[10]] + s[11..16];
  }

  /** If "<date> 24:00" is read, so is "<date> 23:59": the date part is the same. */
  lemma LastMinuteParses(date: string)
    requires Parse(date + " 24:00").At?
    ensures Parse(date + " 23:59").At?
  {
    var s, r := date + " 24:00", date + " 23:59";
    assert r[0..4] == s[0..4] && r[5..7] == s[5..7] && r[8..10] == s[8..10];
    assert r[10..16] == " 23:59";
    assert r[11..13] == "23" && r[14..16] == "59";
    assert DigitsValue("23") == 23 && DigitsValue("59") == 59;
  }

  /** moment on its own reads "YYYY-MM-DD 24:00" as midnight of the following day. */
  lemma MarkerReadAsNextDay(day: Instant)
    requires day.year < 10000
    ensures Parse(FormatDate(day) + " 24:00") == At(NextDay(day.(hour := 0, minute := 0)))
  {
    var raw := FormatDate(day) + " 24:00";
    FormatDateFields(day);
    assert raw[0..4] == FormatDate(day)[0..4];
    assert raw[5..7] == FormatDate(day)[5..7];
    assert raw[8..10] == FormatDate(day)[8..10];
    assert raw[10..16] == " 24:00";
    assert raw[11..13] == "24" && raw[14..16] == "00";
    assert DigitsValue("24") == 24 && DigitsValue("00") == 0;
  }

  /** A date written "YYYY-MM-DD 24:00" keeps its civil day: it becomes 23:59 of that day,
      whereas moment on its own would read it as midnight of the following day. */
  lemma EndOfDayMarkerStaysOnDay(day: Instant, now: Instant)
    requires day.year < 10000
    ensures Parse(FormatDate(day) + " 24:00") == At(NextDay(day.(hour := 0, minute := 0)))
    ensures AdjustTime(Some(FormatDate(day) + " 24:00"), now) == At(day.(hour := 23, minute := 59))
  {
    MarkerReadAsNextDay(day);
    MarkerRewrittenOnDay(day, now);
  }

  /** adjustTime reads "YYYY-MM-DD 24:00" as 23:59 of that day. */
  lemma MarkerRewrittenOnDay(day: Instant, now: Instant)
    requires day.year < 10000
    ensures AdjustTime(Some(FormatDate(day) + " 24:00"), now) == At(day.(hour := 23, minute := 59))
  {
    FormatDateFields(day);
    RewriteAfterDate(FormatDate(day));
    var later := day.(hour := 23, minute := 59);
    assert FormatMinute(later) == FormatDate(day) + " 23:59";
    ParseFormatMinute(later);
  }

  /** A well-formed minute stamp before 24:00 contains no end-of-day marker. */
  lemma NoMarkerInStamp(t: Instant, minuteField: nat)
    requires t.year < 10000 && minuteField < 100
    ensures !Contains(FormatDate(t) + " " + Pad2(t.hour) + ":" + Pad2(minuteField), "24:00")
  {
    var s := FormatDate(t) + " " + Pad2(t.hour) + ":" + Pad2(minuteField);
    FormatDateFields(t);
    forall k | 0 <= k < 13 && k < |s| ensures s[k] != ':' {
      if k < 10 { assert s[k] == FormatDate(t)[k]; }
      else if k > 10 { assert s[k] == Pad2(t.hour)[k - 11]; }
    }
    assert s[11..13] == Pad2(t.hour);
    assert DigitsValue(s[11..13]) == t.hour != 24 == DigitsValue("24");
    assert s[11..13] != "24";
    assert s[11..16][..2] == s[11..13];
    assert "24:00"[..2] == "24";
    assert !OccursAt(s, "24:00", 11);
    if Contains(s, "24:00") {
      MarkerNotBeforeColon(s, 13, IndexOf(s, "24:00").value);
      assert false;
    }
  }

  // ------------------------------------------------------------------ the events

  function TrendText(lastTrend: string): (r: string)
    ensures r == "上涨" <==> lastTrend == "up"
    ensures r == "上涨" || r == "下跌"
  {
    if lastTrend == "up" then "上涨" else "下跌"
  }

  /** `lastAmount || 0` in a template literal. */
  function AmountText(lastAmount: Option<string>): (r: string)
    ensures Truthy(lastAmount) ==> r == lastAmount.value
    ensures !Truthy(lastAmount) ==> r == "0"
  {
    if Truthy(lastAmount) then lastAmount.value else "0"
  }

  /** "<trend> <amount>元", e.g. "上涨 0.20元". */
  function Expectation(info: TrendInfo): string
    requires Truthy(info.lastTrend)
  {
    TrendText(info.lastTrend.value) + " " + AmountText(info.lastAmount) + "元"
  }

  predicate IsPendingSummary(s: string)
  {
    |PendingPrefix| <= |s| && s[..|PendingPrefix|] == PendingPrefix
  }

  /** The nearest adjustment, when a trend is known: timed at lastUpdate. */
  function DetailedEvent(info: TrendInfo, now: Instant): (e: Event)
    requires Truthy(info.lastTrend)
    ensures !IsPendingSummary(e.summary)
  {
    var expected := Expectation(info);
    var e := Event(AdjustTime(info.lastUpdate, now), OneHourLater(AdjustTime(info.lastUpdate, now)),
                   SummaryPrefix + expected,
                   "调整预期：" + expected + "\n时间：" + JsText(info.lastUpdate),
                   EventUrl, [Category]);
    assert e.summary[|SummaryPrefix|] == TrendText(info.lastTrend.value)[0];
    e
  }

  /** Any later adjustment (or the nearest when no trend is known): "to be predicted",
      timed at its own date. */
  function PendingEvent(date: string): (e: Event)
    ensures IsPendingSummary(e.summary)
  {
    var start := Parse(AdjustTimeText(date));
    Event(start, OneHourLater(start),
          PendingPrefix + " (时间：" + date + ")",
          "调整预期：待预测\n调整日期：" + date,
          EventUrl, [Category])
  }

  /** The event generated for futureDates[index]. */
  function EventFor(index: nat, entry: AdjustmentEntry, info: TrendInfo, now: Instant): (e: Event)
    ensures e.url == EventUrl && e.categories == [Category]
    ensures e.start.At? <==> e.end.At?
    ensures e.start.At? ==> MinuteIndex(e.end.t) == MinuteIndex(e.start.t) + 60
    ensures !IsPendingSummary(e.summary) <==> index == 0 && Truthy(info.lastTrend)
    ensures index > 0 ==> e == PendingEvent(entry.date)
    ensures !Truthy(info.lastTrend) ==> e.start == Parse(AdjustTimeText(entry.date))
  {
    if index == 0 && Truthy(info.lastTrend) then DetailedEvent(info, now) else PendingEvent(entry.date)
  }

  /** Events after the first depend only on their own date: neither the trend record nor the
      clock reaches them. */
  lemma LaterEventsIgnoreTrend(index: nat, entry: AdjustmentEntry, info1: TrendInfo, info2: TrendInfo,
                               now1: Instant, now2: Instant)
    requires index > 0
    ensures EventFor(index, entry, info1, now1) == EventFor(index, entry, info2, now2)
    ensures EventFor(index, entry, info1, now1).summary == PendingPrefix + " (时间：" + entry.date + ")"
    ensures EventFor(index, entry, info1, now1).description == "调整预期：待预测\n调整日期：" + entry.date
  {
  }

  /** The nearest event with a known trend: its label is 上涨 exactly for "up", 下跌 for every
      other truthy trend, and a falsy amount prints as 0. */
  lemma NearestEventLabel(entry: AdjustmentEntry, info: TrendInfo, now: Instant)
    requires Truthy(info.lastTrend)
    ensures var e := EventFor(0, entry, info, now);
            e.start == AdjustTime(info.lastUpdate, now) &&
            (info.lastTrend.value == "up" ==> e.summary == SummaryPrefix + "上涨 " + AmountText(info.lastAmount) + "元") &&
            (info.lastTrend.value != "up" ==> e.summary == SummaryPrefix + "下跌 " + AmountText(info.lastAmount) + "元") &&
            (!Truthy(info.lastAmount) ==> e.summary == SummaryPrefix + TrendText(info.lastTrend.value) + " 0元")
  {
  }

  // ------------------------------------------------------- the empty-schedule placeholder

  /** The placeholder's time text as the source formats it: 'YYYY-MM-DD HH:MM', where moment's
      "MM" is the month, so the minute field receives the month number. */
  function PlaceholderStampAsWritten(t: Instant): string
  {
    FormatDate(t) + " " + Pad2(t.hour) + ":" + Pad2(t.month)
  }

  /** The placeholder as written: it starts at the current hour with the month number as its
      minute, and ends likewise one hour on. */
  function PlaceholderAsWritten(now: Instant): (e: Event)
    ensures e.summary == PlaceholderSummary && e.description == PlaceholderDescription
    ensures e.url == EventUrl && e.categories == [Category]
    ensures now.year < 9999 ==>
              e.start == At(now.(minute := now.month)) &&
              e.end == At(AddHour(now).(minute := AddHour(now).month))
  {
    if now.year < 9999 then
      StampAsWrittenReadsBack(now, now);
      StampAsWrittenReadsBack(AddHour(now), now);
      PlaceholderAsWrittenWith(now)
    else
      PlaceholderAsWrittenWith(now)
  }

  /** The 'HH:MM' stamp is read back with the month number as its minute. */
  lemma StampAsWrittenReadsBack(t: Instant, now: Instant)
    requires t.year < 10000
    ensures AdjustTime(Some(PlaceholderStampAsWritten(t)), now) == At(t.(minute := t.month))
  {
    var shifted := t.(minute := t.month);
    NoMarkerInStamp(t, t.month);
    assert PlaceholderStampAsWritten(t) == FormatMinute(shifted);
    ParseFormatMinute(shifted);
  }

  function PlaceholderAsWrittenWith(now: Instant): Event
  {
    Event(AdjustTime(Some(PlaceholderStampAsWritten(now)), now),
          AdjustTime(Some(PlaceholderStampAsWritten(AddHour(now))), now),
          PlaceholderSummary, PlaceholderDescription, EventUrl, [Category])
  }

  /** As written, across a year boundary the placeholder lasts 49 minutes, not an hour:
      at 2024-12-31 23:30 it runs from 23:12 to 00:01 of the next day. */
  lemma PlaceholderAsWrittenNotOneHour()
    ensures var now := DateTime(2024, 12, 31, 23, 30);
            var e := PlaceholderAsWritten(now);
            e.start.At? && e.end.At? && MinuteIndex(e.end.t) == MinuteIndex(e.start.t) + 49
  {
    var now := DateTime(2024, 12, 31, 23, 30);
    var next := AddHour(now);
    assert next == DateTime(2025, 1, 1, 0, 30);
    assert MinuteIndex(next) == MinuteIndex(now) + 60;
  }

  /** The placeholder with the evidently intended format 'YYYY-MM-DD HH:mm'. */
  function Placeholder(now: Instant): (e: Event)
    ensures e.summary == PlaceholderSummary && e.description == PlaceholderDescription
    ensures e.url == EventUrl && e.categories == [Category]
    ensures now.year < 9999 ==> e.start == At(now) && e.end == At(AddHour(now))
  {
    if now.year < 9999 then
      NoMarkerInStamp(now, now.minute);
      NoMarkerInStamp(AddHour(now), AddHour(now).minute);
      ParseFormatMinute(now);
      ParseFormatMinute(AddHour(now));
      PlaceholderWith(now)
    else
      PlaceholderWith(now)
  }

  function PlaceholderWith(now: Instant): Event
  {
    Event(AdjustTime(Some(FormatMinute(now)), now),
          AdjustTime(Some(FormatMinute(AddHour(now))), now),
          PlaceholderSummary, PlaceholderDescription, EventUrl, [Category])
  }

  // ------------------------------------------------------------------ generateCalendar

  /** The calendar's contents: one placeholder for an empty schedule, otherwise one event per
      upcoming date, in the given order. */
  function CalendarEvents(futureDates: seq<AdjustmentEntry>, info: TrendInfo, now: Instant): (events: seq<Event>)
    ensures |futureDates| == 0 ==> |events| == 1 && events[0].summary == PlaceholderSummary
    ensures |futureDates| == 0 ==> events[0].description == PlaceholderDescription && events[0].url == EventUrl
    ensures |futureDates| > 0 ==> |events| == |futureDates|
    ensures forall e | e in events :: e.url == EventUrl && e.categories == [Category]
    ensures |futureDates| > 0 ==>
              forall i :: 0 <= i < |events| && events[i].start.At? ==>
                events[i].end.At? && MinuteIndex(events[i].end.t) == MinuteIndex(events[i].start.t) + 60
  {
    if |futureDates| == 0 then [Placeholder(now)]
    else seq(|futureDates|, i requires 0 <= i < |futureDates| => EventFor(i, futureDates[i], info, now))
  }

  /** generateCalendar: the forEach over futureDates with its per-index branches. */
  method GenerateCalendar(futureDates: seq<AdjustmentEntry>, info: TrendInfo, now: Instant)
    returns (events: seq<Event>)
    ensures events == CalendarEvents(futureDates, info, now)
  {
    if |futureDates| == 0 {
      events := [Placeholder(now)];
      return;
    }
    events := [];
    var index := 0;
    while index < |futureDates|
      invariant index <= |futureDates|
      invariant |events| == index
      invariant forall i :: 0 <= i < index ==> events[i] == EventFor(i, futureDates[i], info, now)
    {
      var summary, description, eventStart, eventEnd;
      if index == 0 && Truthy(info.lastTrend) {
        var adjustmentExpected := TrendText(info.lastTrend.value) + " " + AmountText(info.lastAmount) + "元";
        summary := SummaryPrefix + adjustmentExpected;
        description := "调整预期：" + adjustmentExpected + "\n时间：" + JsText(info.lastUpdate);
        eventStart := AdjustTime(info.lastUpdate, now);
        eventEnd := OneHourLater(AdjustTime(info.lastUpdate, now));
        assert Event(eventStart, eventEnd, summary, description, EventUrl, [Category]) == DetailedEvent(info, now);
      } else {
        var date := futureDates[index].date;
        summary := PendingPrefix + " (时间：" + date + ")";
        description := "调整预期：待预测\n调整日期：" + date;
        eventStart := AdjustTime(Some(date), now);
        eventEnd := OneHourLater(AdjustTime(Some(date), now));
      }
      var event := Event(eventStart, eventEnd, summary, description, EventUrl, [Category]);
      assert event == EventFor(index, futureDates[index], info, now);
      events := events + [event];
      index := index + 1;
    }
    EventsMatchCalendar(futureDates, info, now, events);
  }

  /** The loop's result, event by event, is the calendar's contents. */
  lemma EventsMatchCalendar(futureDates: seq<AdjustmentEntry>, info: TrendInfo, now: Instant, events: seq<Event>)
    requires |futureDates| > 0 && |events| == |futureDates|
    requires forall i :: 0 <= i < |events| ==> events[i] == EventFor(i, futureDates[i], info, now)
    ensures events == CalendarEvents(futureDates, info, now)
  {
  }

  /** Order preservation: event i is built from futureDates[i]; unless it is the detailed
      nearest event, its start is that date after the end-of-day rewrite. */
  lemma EventsFollowDates(futureDates: seq<AdjustmentEntry>, info: TrendInfo, now: Instant, i: nat)
    requires i < |futureDates|
    ensures var events := CalendarEvents(futureDates, info, now);
            i < |events| &&
            (i > 0 || !Truthy(info.lastTrend) ==> events[i].start == Parse(AdjustTimeText(futureDates[i].date))) &&
            (IsPendingSummary(events[i].summary) <==> i > 0 || !Truthy(info.lastTrend))
  {
  }

  // ------------------------------------------------------------------ createEvent's date check

  /** ical-generator's createEvent throws unless the start and end it is given are valid dates. */
  predicate Accepted(e: Event) { e.start.At? && e.end.At? }

  /** generateCalendar returns only when createEvent accepts every event; the first rejected
      one throws out of it. */
  predicate AllAccepted(events: seq<Event>) { forall i :: 0 <= i < |events| ==> Accepted(events[i]) }

  /** When every date handed to generateCalendar is one moment reads, createEvent can only
      reject the detailed nearest event, and does so exactly when lastUpdate is not a readable
      date; the placeholder of an empty schedule is always accepted. */
  lemma CalendarAccepted(futureDates: seq<AdjustmentEntry>, info: TrendInfo, now: Instant)
    requires forall e | e in futureDates :: Parse(e.date).At?
    ensures |futureDates| > 0 ==>
              (AllAccepted(CalendarEvents(futureDates, info, now)) <==>
               !Truthy(info.lastTrend) || AdjustTime(info.lastUpdate, now).At?)
    ensures |futureDates| == 0 && now.year < 9999 ==> AllAccepted(CalendarEvents(futureDates, info, now))
  {
    if |futureDates| > 0 {
      ScheduleEventsAccepted(futureDates, info, now);
    } else {
      assert CalendarEvents(futureDates, info, now) == [Placeholder(now)];
    }
  }

  lemma ScheduleEventsAccepted(futureDates: seq<AdjustmentEntry>, info: TrendInfo, now: Instant)
    requires |futureDates| > 0
    requires forall e | e in futureDates :: Parse(e.date).At?
    ensures AllAccepted(CalendarEvents(futureDates, info, now)) <==>
              !Truthy(info.lastTrend) || AdjustTime(info.lastUpdate, now).At?
  {
    var events := CalendarEvents(futureDates, info, now);
    forall i | 0 <= i < |events| && (i > 0 || !Truthy(info.lastTrend))
      ensures Accepted(events[i])
    {
      assert events[i] == PendingEvent(futureDates[i].date);
      assert futureDates[i] in futureDates;
      PendingAccepted(futureDates[i].date);
    }
    assert events[0] == EventFor(0, futureDates[0], info, now);
  }

  /** The pending event of a date moment reads is accepted. */
  lemma PendingAccepted(date: string)
    requires Parse(date).At?
    ensures Accepted(PendingEvent(date))
  {
    RewriteKeepsParsed(date);
  }

  /** A headline day that does not exist, such as 6月31日 10时, is recorded as
      "2024-06-31 10:00". With a known trend the nearest event then starts at an invalid date,
      and createEvent rejects the calendar. */
  lemma ImpossibleDayRejected(now: Instant)
    ensures !AllAccepted(CalendarEvents([AdjustmentEntry("2024-06-20", None)],
                                        TrendInfo(Some("2024-06-31 10:00"), Some("up"), Some("0.20")), now))
  {
    var info := TrendInfo(Some("2024-06-31 10:00"), Some("up"), Some("0.20"));
    var entry := AdjustmentEntry("2024-06-20", None);
    ImpossibleDayUnread(now);
    var events := CalendarEvents([entry], info, now);
    assert events[0] == EventFor(0, entry, info, now);
    assert events[0].start == Invalid;
  }

  /** adjustTime reads "2024-06-31 10:00" as an invalid date: June has thirty days. */
  lemma ImpossibleDayUnread(now: Instant)
    ensures AdjustTime(Some("2024-06-31 10:00"), now) == Invalid
  {
    ImpossibleDayNoMarker();
    ImpossibleDayInvalid();
  }

  lemma ImpossibleDayInvalid()
    ensures Parse("2024-06-31 10:00") == Invalid
  {
    var s := "2024-06-31 10:00";
    assert s[5..7] == "06";
    assert s[8..10] == [s[8], s[9]] == "31";
    assert DigitsValue("06") == 6 && DigitsValue("31") == 31;
  }

  lemma ImpossibleDayNoMarker()
    ensures !Contains("2024-06-31 10:00", "24:00")
  {
    var s := "2024-06-31 10:00";
    forall k | 0 <= k < 13 ensures s[k] != ':' { }
    assert s[11..16] == "10:00";
    assert !OccursAt(s, "24:00", 11);
    if Contains(s, "24:00") {
      MarkerNotBeforeColon(s, 13, IndexOf(s, "24:00").value);
      assert false;
    }
  }
}
