/** The Node.js server (app.js): the subscriber registry, the calendar route's sort and
    upcoming-date filter, and the manual trend update. HTTP framing, file I/O and the daily
    crawler trigger are not modelled; Date.now() and "now" are parameters. */
module Server {
  import opened Wrappers
  import opened Text
  import opened CivilTime
  import opened Schedule
  import opened Calendar

  // ------------------------------------------------------------------ subscribers

  const CalendarPath := "/api/calendar/"

  datatype Subscription = Subscription(createdAt: nat, calendarUrl: string)

  function CalendarUrl(userId: string): (url: string)
    ensures |url| == |CalendarPath| + |userId|
    ensures url[..|CalendarPath|] == CalendarPath && url[|CalendarPath|..] == userId
  {
    CalendarPath + userId
  }

  /** The in-memory `subscribers` Map, keyed by user id. */
  class Subscribers {
    var registry: map<string, Subscription>

    constructor ()
      ensures registry == map[]
    {
      registry := map[];
    }

    /** POST /api/subscribe at time nowMillis (Date.now()): the id is the decimal time. */
    method Subscribe(nowMillis: nat) returns (userId: string, calendarUrl: string)
      modifies this
      ensures userId == NatToString(nowMillis) && calendarUrl == CalendarUrl(userId)
      ensures registry == old(registry)[userId := Subscription(nowMillis, calendarUrl)]
      ensures registry.Keys == old(registry.Keys) + {userId}
    {
      userId := NatToString(nowMillis);
      calendarUrl := CalendarUrl(userId);
      registry := registry[userId := Subscription(nowMillis, calendarUrl)];
    }
  }

  /** Subscriptions made at different milliseconds get different ids, and so never replace
      one another. */
  lemma DistinctTimesDistinctIds(t1: nat, t2: nat)
    requires t1 != t2
    ensures NatToString(t1) != NatToString(t2)
    ensures CalendarUrl(NatToString(t1)) != CalendarUrl(NatToString(t2))
  {
    if NatToString(t1) == NatToString(t2) {
      NatToStringInjective(t1, t2);
    }
    assert CalendarUrl(NatToString(t1))[|CalendarPath|..] == NatToString(t1);
  }

  // ------------------------------------------------------------------ sorting by date

  /** The comparator `new Date(a.date) - new Date(b.date)` as a key: the minute of the date;
      a date that does not parse gets -1 (see README on unparseable dates). */
  function DateKey(e: AdjustmentEntry): (k: int)
    ensures k >= -1
    ensures Parse(e.date).At? <==> k >= 0
  {
    match Parse(e.date)
    case Invalid => -1
    case At(t) => MinuteIndex(t)
  }

  predicate SortedBy<T>(s: seq<T>, key: T -> int)
  {
    forall i, j :: 0 <= i < j < |s| ==> key(s[i]) <= key(s[j])
  }

  predicate SortedByDate(s: seq<AdjustmentEntry>)
  {
    SortedBy(s, DateKey)
  }

  method Swap<T>(a: array<T>, i: int, j: int)
    requires 0 <= i < j < a.Length
    modifies a
    ensures a[i] == old(a[j]) && a[j] == old(a[i])
    ensures forall k :: 0 <= k < a.Length && k != i && k != j ==> a[k] == old(a[k])
    ensures multiset(a[..]) == old(multiset(a[..]))
  {
    a[i], a[j] := a[j], a[i];
  }

  /** One insertion step: a[i] sinks into the sorted prefix a[..i]. */
  method Insert<T>(a: array<T>, i: int, key: T -> int)
    requires 0 <= i < a.Length
    requires forall k, l :: 0 <= k < l < i ==> key(a[k]) <= key(a[l])
    modifies a
    ensures forall k, l :: 0 <= k < l <= i ==> key(a[k]) <= key(a[l])
    ensures forall k :: i < k < a.Length ==> a[k] == old(a[k])
    ensures multiset(a[..]) == old(multiset(a[..]))
  {
    var j := i;
    while j > 0 && key(a[j - 1]) > key(a[j])
      invariant 0 <= j <= i
      invariant forall k, l :: 0 <= k < l <= i && l != j ==> key(a[k]) <= key(a[l])
      invariant forall l :: j < l <= i ==> key(a[j]) <= key(a[l])
      invariant forall k :: i < k < a.Length ==> a[k] == old(a[k])
      invariant multiset(a[..]) == old(multiset(a[..]))
    {
      Swap(a, j - 1, j);
      j := j - 1;
    }
  }

  /** Array.prototype.sort with the comparator key(x) - key(y), as an insertion sort. */
  method SortBy<T>(a: array<T>, key: T -> int)
    modifies a
    ensures SortedBy(a[..], key)
    ensures multiset(a[..]) == old(multiset(a[..]))
  {
    var i := 0;
    while i < a.Length
      invariant i <= a.Length
      invariant forall k, l :: 0 <= k < l < i ==> key(a[k]) <= key(a[l])
      invariant multiset(a[..]) == old(multiset(a[..]))
    {
      Insert(a, i, key);
      i := i + 1;
    }
  }

  /** data.adjustmentDates.sort((a, b) => new Date(a.date) - new Date(b.date)). */
  method SortByDate(a: array<AdjustmentEntry>)
    modifies a
    ensures SortedByDate(a[..])
    ensures multiset(a[..]) == old(multiset(a[..]))
  {
    SortBy(a, DateKey);
  }

  // ------------------------------------------------------------------ upcoming dates

  /** moment(date).endOf('day').isSameOrAfter(moment()): the date's day is today or later.
      An invalid date compares false. */
  predicate IsUpcoming(e: AdjustmentEntry, now: Instant)
  {
    match Parse(e.date)
    case Invalid => false
    case At(t) => !DayBefore(t, now)
  }

  /** An entry dated today is kept whatever the hour; an entry of an earlier day is dropped. */
  lemma UpcomingByDay(e: AdjustmentEntry, now: Instant)
    ensures IsUpcoming(e, now) <==> Parse(e.date).At? && DayNumber(Parse(e.date).t) >= DayNumber(now)
    ensures Parse(e.date).At? && SameDay(Parse(e.date).t, now) ==> IsUpcoming(e, now)
  {
    if Parse(e.date).At? {
      DayNumberOrder(Parse(e.date).t, now);
    }
  }

  /** The entries of s that are upcoming, in the order of s. */
  function Upcoming(s: seq<AdjustmentEntry>, now: Instant): (r: seq<AdjustmentEntry>)
    ensures |r| <= |s|
  {
    if s == [] then []
    else
      var init := Upcoming(s[..|s| - 1], now);
      var last := s[|s| - 1];
      if IsUpcoming(last, now) then init + [last] else init
  }

  /** An entry is kept exactly when it is in the schedule and upcoming. */
  lemma {:induction false} UpcomingMembers(s: seq<AdjustmentEntry>, now: Instant)
    ensures forall e :: e in Upcoming(s, now) <==> e in s && IsUpcoming(e, now)
  {
    if s != [] {
      UpcomingMembers(s[..|s| - 1], now);
      assert s == s[..|s| - 1] + [s[|s| - 1]];
    }
  }

  /** Filtering a sorted schedule leaves it sorted: the events come out in date order. */
  lemma {:induction false} UpcomingSorted(s: seq<AdjustmentEntry>, now: Instant)
    requires SortedByDate(s)
    ensures SortedByDate(Upcoming(s, now))
  {
    if s != [] {
      var prefix := s[..|s| - 1];
      var last := s[|s| - 1];
      assert SortedByDate(prefix);
      UpcomingSorted(prefix, now);
      var init := Upcoming(prefix, now);
      if IsUpcoming(last, now) {
        UpcomingMembers(prefix, now);
        forall e | e in init ensures DateKey(e) <= DateKey(last) {
          var k :| 0 <= k < |prefix| && prefix[k] == e;
        }
        var r := init + [last];
        forall i, j | 0 <= i < j < |r| ensures DateKey(r[i]) <= DateKey(r[j]) {
          if j == |r| - 1 { assert r[i] in init; }
        }
      }
    }
  }

  /** Filtering one more entry of the schedule appends it exactly when it is upcoming. */
  lemma UpcomingStep(dates: seq<AdjustmentEntry>, i: nat, now: Instant)
    requires i < |dates|
    ensures Upcoming(dates[..i + 1], now) ==
              if IsUpcoming(dates[i], now) then Upcoming(dates[..i], now) + [dates[i]] else Upcoming(dates[..i], now)
  {
    assert dates[..i + 1][..i] == dates[..i];
  }

  /** A date written "YYYY-MM-DD 24:00" is read by the filter without the 23:59 rewrite, so it
      stays upcoming for the whole of the next day, while its event is still placed at 23:59 of
      its own day, which on that next day has already passed. */
  lemma EndOfDayEntryOutlivesItsEvent(midnight: Instant, last: Instant, now: Instant, trend: Option<string>)
    requires midnight.year < 10000 && midnight.hour == 0 && midnight.minute == 0
    requires last == midnight.(hour := 23, minute := 59)
    requires SameDay(now, NextDay(midnight))
    ensures IsUpcoming(AdjustmentEntry(FormatDate(midnight) + " 24:00", trend), now)
    ensures PendingEvent(FormatDate(midnight) + " 24:00").start == At(last)
    ensures MinuteIndex(last) < MinuteIndex(now)
  {
    MarkerReadAsNextDay(midnight);
    MarkerRewrittenOnDay(midnight, now);
    DayNumberOrder(now, NextDay(midnight));
  }

  /** The for-of loop collecting futureAdjustmentDates. */
  method KeepUpcoming(dates: seq<AdjustmentEntry>, now: Instant) returns (future: seq<AdjustmentEntry>)
    ensures future == Upcoming(dates, now)
  {
    future := [];
    var i := 0;
    while i < |dates|
      invariant i <= |dates|
      invariant future == Upcoming(dates[..i], now)
    {
      UpcomingStep(dates, i, now);
      if IsUpcoming(dates[i], now) {
        future := future + [dates[i]];
      }
      i := i + 1;
    }
    assert dates[..i] == dates;
  }

  // ------------------------------------------------------------------ GET /api/calendar/:userId

  /** The route's outcomes: 404 for an unknown id, the calendar, or a failed request when
      createEvent throws inside generateCalendar (the route does not catch it). */
  datatype FeedResponse = NotFound | Failed | Feed(events: seq<Event>)

  /** What the route forwards to generateCalendar: lastUpdate, lastTrend and lastAmount only. */
  function ForwardedInfo(d: Document): TrendInfo
  {
    TrendInfo(d.lastUpdate, d.lastTrend, d.lastAmount)
  }

  /** The response once generateCalendar has run: the feed, or a failure when createEvent
      rejects one of its events. */
  function Served(events: seq<Event>): FeedResponse
  {
    if AllAccepted(events) then Feed(events) else Failed
  }

  method CalendarFeed(subscribers: Subscribers, userId: string, data: OilData, now: Instant)
    returns (resp: FeedResponse)
    modifies data
    ensures userId !in subscribers.registry ==> resp == NotFound && data.View() == old(data.View())
    ensures data.View() == old(data.View()).(adjustmentDates := data.adjustmentDates)
    ensures data.adjustmentDates.Some? <==> old(data.adjustmentDates).Some?
    ensures userId in subscribers.registry && data.adjustmentDates.Some? ==>
              SortedByDate(data.adjustmentDates.value) &&
              multiset(data.adjustmentDates.value) == multiset(old(data.adjustmentDates).value) &&
              resp == Served(CalendarEvents(Upcoming(data.adjustmentDates.value, now), ForwardedInfo(data.View()), now))
    ensures userId in subscribers.registry && data.adjustmentDates.None? ==>
              resp == Served(CalendarEvents([], ForwardedInfo(data.View()), now))
  {
    if userId !in subscribers.registry {
      return NotFound;
    }
    var future: seq<AdjustmentEntry> := [];
    if data.adjustmentDates.Some? {
      var dates := data.adjustmentDates.value;
      var a := new AdjustmentEntry[|dates|](i requires 0 <= i < |dates| => dates[i]);
      assert a[..] == dates;
      SortByDate(a);
      data.adjustmentDates := Some(a[..]);
      future := KeepUpcoming(a[..], now);
    }
    var events := GenerateCalendar(future, TrendInfo(data.lastUpdate, data.lastTrend, data.lastAmount), now);
    if AllAccepted(events) {
      resp := Feed(events);
    } else {
      resp := Failed;
    }
  }

  /** Every kept date is one moment reads, so with at least one upcoming date the route fails
      exactly when the nearest event is the detailed one and lastUpdate is not a readable date. */
  lemma FeedFailsOnlyOnLastUpdate(s: seq<AdjustmentEntry>, info: TrendInfo, now: Instant)
    requires Upcoming(s, now) != []
    ensures Served(CalendarEvents(Upcoming(s, now), info, now)) == Failed <==>
              Truthy(info.lastTrend) && AdjustTime(info.lastUpdate, now).Invalid?
  {
    var future := Upcoming(s, now);
    UpcomingMembers(s, now);
    forall e | e in future ensures Parse(e.date).At? {
      assert IsUpcoming(e, now);
    }
    CalendarAccepted(future, info, now);
  }

  // ------------------------------------------------------------------ POST /api/update-trend

  /** adjustmentDates.find(d => d.date === date), as an index. */
  function FirstIndexOfDate(ds: seq<AdjustmentEntry>, date: string): (r: Option<nat>)
    ensures r.Some? ==> r.value < |ds| && ds[r.value].date == date
    ensures r.Some? ==> forall k :: 0 <= k < r.value ==> ds[k].date != date
    ensures r.None? ==> forall k :: 0 <= k < |ds| ==> ds[k].date != date
  {
    if ds == [] then None
    else if ds[0].date == date then Some(0)
    else match FirstIndexOfDate(ds[1..], date)
      case None => None
      case Some(i) => Some(i + 1)
  }

  /** The schedule after `targetDate.trend = trend`. */
  function WithTrend(ds: seq<AdjustmentEntry>, date: string, trend: Option<string>): (r: seq<AdjustmentEntry>)
    ensures |r| == |ds|
    ensures FirstIndexOfDate(ds, date).None? ==> r == ds
    ensures FirstIndexOfDate(ds, date).Some? ==>
              var i := FirstIndexOfDate(ds, date).value;
              r[i] == ds[i].(trend := trend) && forall k :: 0 <= k < |ds| && k != i ==> r[k] == ds[k]
  {
    match FirstIndexOfDate(ds, date)
    case None => ds
    case Some(i) => ds[i := ds[i].(trend := trend)]
  }

  /** Setting the same trend twice is the same as setting it once; the dates are untouched. */
  lemma WithTrendIdempotent(ds: seq<AdjustmentEntry>, date: string, trend: Option<string>)
    ensures WithTrend(WithTrend(ds, date, trend), date, trend) == WithTrend(ds, date, trend)
    ensures forall k :: 0 <= k < |ds| ==> WithTrend(ds, date, trend)[k].date == ds[k].date
  {
    var once := WithTrend(ds, date, trend);
    assert forall k :: 0 <= k < |ds| ==> once[k].date == ds[k].date;
    assert FirstIndexOfDate(once, date) == FirstIndexOfDate(ds, date) by {
      FirstIndexSameDates(ds, once, date);
    }
  }

  lemma {:induction false} FirstIndexSameDates(ds: seq<AdjustmentEntry>, es: seq<AdjustmentEntry>, date: string)
    requires |ds| == |es| && forall k :: 0 <= k < |ds| ==> ds[k].date == es[k].date
    ensures FirstIndexOfDate(ds, date) == FirstIndexOfDate(es, date)
    decreases |ds|
  {
    if ds != [] && ds[0].date != date {
      FirstIndexSameDates(ds[1..], es[1..], date);
    }
  }

  /** The handler: a missing adjustmentDates makes `find` throw, and nothing is written;
      otherwise the first matching entry gets the trend and lastTrend/lastUpdate are always
      overwritten. */
  method UpdateTrend(data: OilData, date: string, trend: Option<string>, today: Instant) returns (ok: bool)
    modifies data
    ensures ok <==> old(data.adjustmentDates).Some?
    ensures !ok ==> data.View() == old(data.View())
    ensures ok ==> data.View() == old(data.View()).(
              adjustmentDates := Some(WithTrend(old(data.adjustmentDates).value, date, trend)),
              lastUpdate := Some(FormatDate(today)),
              lastTrend := trend)
  {
    if data.adjustmentDates.None? {
      return false;
    }
    var dates := data.adjustmentDates.value;
    var target := FirstIndexOfDate(dates, date);
    if target.Some? {
      dates := dates[target.value := dates[target.value].(trend := trend)];
      data.adjustmentDates := Some(dates);
    }
    data.lastUpdate := Some(FormatDate(today));
    data.lastTrend := trend;
    ok := true;
  }

  /** After a manual update with a truthy trend, the nearest event of the next calendar is the
      detailed one, timed at midnight of the update day. */
  lemma ManualUpdateTimesNearestEvent(entry: AdjustmentEntry, today: Instant, trend: Option<string>,
                                       amount: Option<string>, now: Instant)
    requires Truthy(trend) && today.year < 10000
    ensures var e := EventFor(0, entry, TrendInfo(Some(FormatDate(today)), trend, amount), now);
            !IsPendingSummary(e.summary) && e.start == At(today.(hour := 0, minute := 0))
  {
    var s := FormatDate(today);
    FormatDateFields(today);
    if Contains(s, "24:00") {
      MarkerNotBeforeColon(s, 10, IndexOf(s, "24:00").value);
      assert false;
    }
    ParseFormatDate(today);
  }
}
