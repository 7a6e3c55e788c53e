/** The crawler service (backend/app.py): the headline parser parse_oil_info and the block of
    fetch_oil_price_api that records a parsed headline in the schedule record. Fetching the
    page and reading/writing the file are not modelled; "now" is a parameter. */
module Backend {
  import opened Wrappers
  import opened Text
  import opened CivilTime
  import opened Schedule
  import Calendar

  // ------------------------------------------------- the time regex (\d{1,2})月(\d{1,2})日(\d{1,2})时

  /** The value of two decimal digits. */
  lemma TwoDigitValue(a: char, b: char)
    requires IsDigit(a) && IsDigit(b)
    ensures AllDigits([a] + [b]) && DigitsValue([a] + [b]) == DigitValue(a) * 10 + DigitValue(b)
  {
    DigitsValueSnoc([], a);
    DigitsValueSnoc([a], b);
  }

  /** `\d{1,2}` followed by the character delim, anchored at p: the number and the position
      after delim. A one- and a two-digit reading cannot both be followed by delim, so the
      regex engine's backtracking has at most one way to succeed here. */
  function NumberBefore(s: string, p: nat, delim: char): (r: Option<(nat, nat)>)
    requires !IsDigit(delim)
    ensures r.Some? ==>
              r.value.0 < 100 && p + 2 <= r.value.1 <= p + 3 && r.value.1 <= |s| &&
              AllDigits(s[p..r.value.1 - 1]) && s[r.value.1 - 1] == delim &&
              r.value.0 == DigitsValue(s[p..r.value.1 - 1])
    ensures r.None? ==> !(p + 1 < |s| && IsDigit(s[p]) && s[p + 1] == delim)
    ensures r.None? ==> !(p + 2 < |s| && IsDigit(s[p]) && IsDigit(s[p + 1]) && s[p + 2] == delim)
  {
    if p + 2 < |s| && IsDigit(s[p]) && IsDigit(s[p + 1]) && s[p + 2] == delim then
      var digits := s[p..p + 2];
      assert digits == [s[p]] + [s[p + 1]];
      TwoDigitValue(s[p], s[p + 1]);
      Some((DigitsValue(digits), p + 3))
    else if p + 1 < |s| && IsDigit(s[p]) && s[p + 1] == delim then
      var digits := s[p..p + 1];
      assert digits == [s[p]];
      DigitsValueSnoc([], s[p]);
      Some((DigitsValue(digits), p + 2))
    else
      None
  }

  datatype TimeFields = TimeFields(month: nat, day: nat, hour: nat)

  /** A match of the time pattern starting exactly at p. */
  function TimeMatchAt(s: string, p: nat): (r: Option<TimeFields>)
    ensures r.Some? ==> r.value.month < 100 && r.value.day < 100 && r.value.hour < 100
  {
    match NumberBefore(s, p, '月')
    case None => None
    case Some((month, q1)) =>
      match NumberBefore(s, q1, '日')
      case None => None
      case Some((day, q2)) =>
        match NumberBefore(s, q2, '时')
        case None => None
        case Some((hour, _)) => Some(TimeFields(month, day, hour))
  }

  /** re.search: the match with the leftmost start at or after from. */
  function FindTime(s: string, from: nat): (r: Option<(nat, TimeFields)>)
    ensures r.Some? ==> from <= r.value.0 && TimeMatchAt(s, r.value.0) == Some(r.value.1)
    ensures r.Some? ==> forall q :: from <= q < r.value.0 ==> TimeMatchAt(s, q).None?
    ensures r.None? ==> forall q :: from <= q ==> TimeMatchAt(s, q).None?
    decreases |s| - from
  {
    if from >= |s| then
      assert forall q :: from <= q ==> NumberBefore(s, q, '月').None?;
      None
    else match TimeMatchAt(s, from)
      case Some(f) => Some((from, f))
      case None => FindTime(s, from + 1)
  }

  // ------------------------------------------------------ the amount regex (\d+(?:\.\d+)?)元/升

  const Unit := "元/升"

  /** End of the maximal run of digits starting at p. */
  function DigitRunEnd(s: string, p: nat): (e: nat)
    requires p <= |s|
    ensures p <= e <= |s| && AllDigits(s[p..e]) && (e < |s| ==> !IsDigit(s[e]))
    decreases |s| - p
  {
    if p < |s| && IsDigit(s[p]) then
      var e := DigitRunEnd(s, p + 1);
      assert s[p..e] == [s[p]] + s[p + 1..e];
      e
    else p
  }

  lemma DigitRunEndExact(s: string, p: nat, e: nat)
    requires p <= e <= |s| && AllDigits(s[p..e]) && (e < |s| ==> !IsDigit(s[e]))
    ensures DigitRunEnd(s, p) == e
    decreases e - p
  {
    if p < e {
      assert s[p + 1..e] == s[p..e][1..];
      DigitRunEndExact(s, p + 1, e);
    }
  }

  predicate IsDecimalSplit(t: string, d: nat)
  {
    1 <= d < |t| - 1 && AllDigits(t[..d]) && t[d] == '.' && AllDigits(t[d + 1..])
  }

  /** The token `\d+(\.\d+)?`: digits, optionally followed by a dot and more digits. */
  predicate IsDecimal(t: string)
  {
    (1 <= |t| && AllDigits(t)) || exists d :: 0 <= d < |t| && IsDecimalSplit(t, d)
  }

  /** The regex matching at p and ending its token at e. */
  predicate IsAmountMatch(s: string, p: nat, e: nat)
  {
    p < e <= |s| && IsDecimal(s[p..e]) && OccursAt(s, Unit, e)
  }

  /** The regex engine at start position p: greedy digits, greedy optional fraction, then the
      unit; backtracking cannot help since a shorter run is followed by a digit or a dot. */
  function AmountAt(s: string, p: nat): (r: Option<nat>)
    ensures r.Some? ==> IsAmountMatch(s, p, r.value)
  {
    if p >= |s| || !IsDigit(s[p]) then None
    else
      var i := DigitRunEnd(s, p);
      if OccursAt(s, Unit, i) then Some(i)
      else if i + 1 < |s| && s[i] == '.' && IsDigit(s[i + 1]) then
        var j := DigitRunEnd(s, i + 1);
        if OccursAt(s, Unit, j) then
          assert IsDecimalSplit(s[p..j], i - p) by {
            assert s[p..j][..i - p] == s[p..i];
            assert s[p..j][i - p + 1..] == s[i + 1..j];
          }
          Some(j)
        else None
      else None
  }

  /** The engine finds a match at p exactly when one exists, and it is the only one there. */
  lemma {:induction false} AmountAtComplete(s: string, p: nat, e: nat)
    requires IsAmountMatch(s, p, e)
    ensures AmountAt(s, p) == Some(e)
  {
    var t := s[p..e];
    assert s[e] == Unit[0];
    if 1 <= |t| && AllDigits(t) {
      DigitRunEndExact(s, p, e);
    } else {
      var d: nat :| d < |t| && IsDecimalSplit(t, d);
      FractionFound(s, p, e, d);
    }
  }

  /** A match with a fraction: the integer digits run up to the dot, the fraction's digits run
      up to the unit, and the engine takes exactly that path. */
  lemma FractionFound(s: string, p: nat, e: nat, d: nat)
    requires p < e <= |s| && OccursAt(s, Unit, e) && IsDecimalSplit(s[p..e], d)
    ensures AmountAt(s, p) == Some(e)
  {
    var t := s[p..e];
    assert s[p..p + d] == t[..d];
    assert s[p + d + 1..e] == t[d + 1..];
    DigitRunEndExact(s, p, p + d);
    assert s[p + d] == t[d];
    assert !OccursAt(s, Unit, p + d) by { assert s[p + d] != Unit[0]; }
    assert IsDigit(s[p + d + 1]) by { assert s[p + d + 1] == t[d + 1]; }
    DigitRunEndExact(s, p + d + 1, e);
  }

  /** re.search for the amount: the leftmost start at or after from, with its token end. */
  function FindAmount(s: string, from: nat): (r: Option<(nat, nat)>)
    ensures r.Some? ==> from <= r.value.0 && IsAmountMatch(s, r.value.0, r.value.1)
    ensures r.Some? ==> forall q: nat, e: nat :: from <= q < r.value.0 ==> !IsAmountMatch(s, q, e)
    ensures r.None? ==> forall q: nat, e: nat :: from <= q ==> !IsAmountMatch(s, q, e)
    decreases |s| - from
  {
    if from >= |s| then None
    else match AmountAt(s, from)
      case Some(e) => Some((from, e))
      case None =>
        assert forall e :: !IsAmountMatch(s, from, e) by {
          forall e | IsAmountMatch(s, from, e) ensures false { AmountAtComplete(s, from, e); }
        }
        FindAmount(s, from + 1)
  }

  // ------------------------------------------------------------------ parse_oil_info

  const FuelGrades: seq<string> := ["92", "95", "98", "0"]

  /** The result dictionary: exactly the keys date, trend, amount and types. The amount is kept
      as the matched decimal text. */
  datatype OilInfo = OilInfo(date: string, trend: Option<string>, amount: Option<string>, types: seq<string>)

  /** year-month-day hour:minute, as the crawler writes its dates. */
  function Stamp(year: string, month: string, day: string, hour: string, minute: string): (s: string)
    requires |minute| == 2
    ensures |s| == |year| + |month| + |day| + |hour| + 4 + 2 && s[|s| - 3] == ':' && s[|s| - 2..] == minute
    ensures |year| == 4 && |month| == 2 && |day| == 2 && |hour| == 2 &&
            AllDigits(year) && AllDigits(month) && AllDigits(day) && AllDigits(hour) && AllDigits(minute) ==>
              |s| == 16 && DateShape(s) && TimeShape(s)
  {
    var s := year + "-" + month + "-" + day + " " + hour + ":" + minute;
    if |year| == 4 && |month| == 2 && |day| == 2 && |hour| == 2 then
      assert s[0..4] == year && s[5..7] == month && s[8..10] == day;
      assert s[11..13] == hour && s[14..16] == minute;
      s
    else
      s
  }

  /** The crawl minute's stamp is '%Y-%m-%d %H:%M' for four-digit years. */
  lemma FormatMinuteIsStamp(t: Instant)
    requires t.year < 10000
    ensures FormatMinute(t) == Stamp(Pad4(t.year), Pad2(t.month), Pad2(t.day), Pad2(t.hour), Pad2(t.minute))
  {
    assert FormatDate(t) == Pad4(t.year) + "-" + Pad2(t.month) + "-" + Pad2(t.day);
  }

  /** The date the crawler records: str(year)-MM-DD HH:00 from the headline's time when it has
      one, otherwise the crawl minute as '%Y-%m-%d %H:%M'. For four-digit years it always has
      the "YYYY-MM-DD HH:MM" shape, and without a headline time it is the crawl minute's stamp. */
  function DateText(text: string, now: Instant): (r: string)
    ensures 1000 <= now.year < 10000 ==> |r| == 16 && DateShape(r) && TimeShape(r)
    ensures 1000 <= now.year < 10000 && FindTime(text, 0).None? ==> r == FormatMinute(now)
    ensures 1000 <= now.year < 10000 && FindTime(text, 0).Some? ==> r[14..16] == "00"
  {
    var year := NatToString(now.year);
    var fields := StampFields(text, now);
    if 1000 <= now.year < 10000 then
      FourDigitStamp(now, fields);
      Stamp(year, fields[0], fields[1], fields[2], fields[3])
    else
      Stamp(year, fields[0], fields[1], fields[2], fields[3])
  }

  /** For a four-digit year, str(year) and two-digit fields make a "YYYY-MM-DD HH:MM" stamp,
      which is the crawl minute's when the fields are now's. */
  lemma FourDigitStamp(now: Instant, fields: seq<string>)
    requires 1000 <= now.year < 10000
    requires |fields| == 4 && forall i :: 0 <= i < 4 ==> |fields[i]| == 2 && AllDigits(fields[i])
    ensures var r := Stamp(NatToString(now.year), fields[0], fields[1], fields[2], fields[3]);
            |r| == 16 && DateShape(r) && TimeShape(r) && r[14..16] == fields[3] &&
            (fields == [Pad2(now.month), Pad2(now.day), Pad2(now.hour), Pad2(now.minute)] ==> r == FormatMinute(now))
  {
    NatToStringFourDigits(now.year);
    FormatMinuteIsStamp(now);
  }

  /** Month, day, hour and minute of the recorded date, each as two digits: the headline's
      time on the hour, or the crawl minute. */
  function StampFields(text: string, now: Instant): (fields: seq<string>)
    ensures |fields| == 4 && forall i :: 0 <= i < 4 ==> |fields[i]| == 2 && AllDigits(fields[i])
    ensures FindTime(text, 0).Some? ==> fields[3] == "00"
    ensures FindTime(text, 0).None? ==> fields == [Pad2(now.month), Pad2(now.day), Pad2(now.hour), Pad2(now.minute)]
  {
    match FindTime(text, 0)
    case Some((_, f)) => [Pad2(f.month), Pad2(f.day), Pad2(f.hour), "00"]
    case None => [Pad2(now.month), Pad2(now.day), Pad2(now.hour), Pad2(now.minute)]
  }

  function TrendOf(text: string): (r: Option<string>)
    ensures r == Some("up") <==> Contains(text, "上调") || Contains(text, "上涨")
    ensures r == Some("down") <==> !Contains(text, "上调") && !Contains(text, "上涨")
                                   && (Contains(text, "下调") || Contains(text, "下降"))
    ensures r.None? || r == Some("up") || r == Some("down")
  {
    if Contains(text, "上调") || Contains(text, "上涨") then Some("up")
    else if Contains(text, "下调") || Contains(text, "下降") then Some("down")
    else None
  }

  /** The match that re.search reports: the leftmost start at which the pattern matches. */
  ghost predicate LeftmostAmount(text: string, p: nat, e: nat)
  {
    IsAmountMatch(text, p, e) && forall q: nat, e': nat :: q < p ==> !IsAmountMatch(text, q, e')
  }

  function AmountOf(text: string): (r: Option<string>)
    ensures r.None? <==> forall p: nat, e: nat :: !IsAmountMatch(text, p, e)
    ensures r.Some? ==> exists p: nat, e: nat :: LeftmostAmount(text, p, e) && r.value == text[p..e]
  {
    match FindAmount(text, 0)
    case None => None
    case Some((p, e)) =>
      assert LeftmostAmount(text, p, e);
      Some(text[p..e])
  }

  predicate Distinct(xs: seq<string>)
  {
    forall i, j :: 0 <= i < j < |xs| ==> xs[i] != xs[j]
  }

  /** xs can be obtained from ys by deleting elements. */
  predicate IsSubsequence(xs: seq<string>, ys: seq<string>)
    decreases |ys|
  {
    if xs == [] then true
    else if ys == [] then false
    else if xs[|xs| - 1] == ys[|ys| - 1] then IsSubsequence(xs[..|xs| - 1], ys[..|ys| - 1])
    else IsSubsequence(xs, ys[..|ys| - 1])
  }

  /** The grades of `grades` that occur in text, in the order of `grades`. */
  function GradesIn(text: string, grades: seq<string>): (r: seq<string>)
    ensures forall g :: g in r <==> g in grades && Contains(text, g)
    ensures IsSubsequence(r, grades)
    ensures Distinct(grades) ==> Distinct(r)
  {
    if grades == [] then []
    else
      var prefix := grades[..|grades| - 1];
      var init := GradesIn(text, prefix);
      var last := grades[|grades| - 1];
      assert grades == prefix + [last];
      if Contains(text, last) then
        assert (init + [last])[..|init|] == init;
        if Distinct(grades) then
          assert last !in prefix;
          DistinctSnoc(init, last);
          init + [last]
        else
          init + [last]
      else init
  }

  lemma DistinctSnoc(xs: seq<string>, x: string)
    requires Distinct(xs) && x !in xs
    ensures Distinct(xs + [x])
  {
    forall i, j | 0 <= i < j < |xs| + 1 ensures (xs + [x])[i] != (xs + [x])[j] {
      if j == |xs| { assert (xs + [x])[i] == xs[i]; }
    }
  }

  /** parse_oil_info(text) with the clock reading `now`. */
  method ParseOilInfo(text: string, now: Instant) returns (info: OilInfo)
    ensures info.date == DateText(text, now)
    ensures info.trend == TrendOf(text)
    ensures info.amount == AmountOf(text)
    ensures info.types != [] && Distinct(info.types)
    ensures GradesIn(text, FuelGrades) != [] ==> info.types == GradesIn(text, FuelGrades)
    ensures GradesIn(text, FuelGrades) == [] ==> info.types == ["92"]
  {
    assert Distinct(FuelGrades);
    var types: seq<string> := [];
    var k := 0;
    while k < |FuelGrades|
      invariant k <= |FuelGrades|
      invariant types == GradesIn(text, FuelGrades[..k])
    {
      assert FuelGrades[..k + 1][..k] == FuelGrades[..k];
      if Contains(text, FuelGrades[k]) {
        types := types + [FuelGrades[k]];
      }
      k := k + 1;
    }
    assert FuelGrades[..k] == FuelGrades;
    if types == [] {
      types := types + ["92"];
    }
    info := OilInfo(DateText(text, now), TrendOf(text), AmountOf(text), types);
  }

  // ------------------------------------------------------- recording a result (lines 139-159)

  /** A successful crawl: the page title, source name and URL, with the parsed fields. */
  datatype FetchResult = FetchResult(title: string, source: string, url: string, info: OilInfo)

  const HistoryLimit := 30

  function Min(a: nat, b: nat): nat { if a < b then a else b }

  function NewsRecord(result: FetchResult): (item: NewsItem)
    ensures item.score == 10
  {
    NewsItem(result.info.date, result.title, result.source, result.url,
             result.info.trend, result.info.amount, result.info.types, 10)
  }

  /** newsHistory.insert(0, item) followed by [:30]. */
  function PushNews(history: seq<NewsItem>, item: NewsItem): (r: seq<NewsItem>)
    ensures |r| == Min(|history| + 1, HistoryLimit)
    ensures r[0] == item && r[1..] == history[..|r| - 1]
  {
    ([item] + history)[..Min(|history| + 1, HistoryLimit)]
  }

  /** The fields fetch_oil_price_api writes, applied to the record in place. */
  method RecordFetch(data: OilData, result: FetchResult)
    modifies data
    ensures data.View() == old(data.View()).(
              lastUpdate := Some(result.info.date),
              lastTrend := result.info.trend,
              lastAmount := result.info.amount,
              lastTypes := Some(result.info.types),
              lastSource := Some(result.source),
              lastNews := Some(result.title),
              lastNewsUrl := Some(result.url),
              newsHistory := Some(PushNews(if old(data.newsHistory).Some? then old(data.newsHistory).value else [],
                                           NewsRecord(result))))
  {
    data.lastUpdate := Some(result.info.date);
    data.lastTrend := result.info.trend;
    data.lastAmount := result.info.amount;
    data.lastTypes := Some(result.info.types);
    data.lastSource := Some(result.source);
    data.lastNews := Some(result.title);
    data.lastNewsUrl := Some(result.url);
    if data.newsHistory.None? {
      data.newsHistory := Some([]);
    }
    var history := [NewsRecord(result)] + data.newsHistory.value;
    data.newsHistory := Some(history[..Min(|history|, HistoryLimit)]);
  }

  // ------------------------------------------------------------- the history over many crawls

  function Reversed(items: seq<NewsItem>): (r: seq<NewsItem>)
    ensures |r| == |items|
  {
    if items == [] then [] else [items[|items| - 1]] + Reversed(items[..|items| - 1])
  }

  /** The history after recording items[0], items[1], ... in turn. */
  function PushAll(history: seq<NewsItem>, items: seq<NewsItem>): seq<NewsItem>
  {
    if items == [] then history
    else PushNews(PushAll(history, items[..|items| - 1]), items[|items| - 1])
  }

  /** The history is a bounded queue: after one or more crawls it holds the newest records,
      newest first, up to thirty of them, followed by what remains of the history it started from. */
  lemma {:induction false} PushAllKeepsNewest(history: seq<NewsItem>, items: seq<NewsItem>)
    requires items != []
    ensures PushAll(history, items) == (Reversed(items) + history)[..Min(|items| + |history|, HistoryLimit)]
    decreases |items|
  {
    var init, last := items[..|items| - 1], items[|items| - 1];
    var all := Reversed(items) + history;
    assert all == [last] + (Reversed(init) + history);
    if init != [] {
      PushAllKeepsNewest(history, init);
      var prev := PushAll(history, init);
      assert |prev| == Min(|init| + |history|, HistoryLimit);
    }
  }

  // ------------------------------------------------- how the calendar reads the crawled date

  /** Without a time in the headline, the recorded date is the crawl minute, and the calendar
      reads it back as exactly that instant. */
  lemma {:induction false} CrawlTimeReadsBack(text: string, now: Instant)
    requires FindTime(text, 0).None? && 1000 <= now.year < 10000
    ensures Parse(DateText(text, now)) == At(now)
    ensures Calendar.AdjustTime(Some(DateText(text, now)), now) == At(now)
  {
    ParseFormatMinute(now);
    Calendar.NoMarkerInStamp(now, now.minute);
  }

  /** With a headline time, the recorded date is that day and hour on the hour. */
  lemma HeadlineDateText(text: string, now: Instant)
    requires FindTime(text, 0).Some? && 1000 <= now.year < 10000
    ensures var f := FindTime(text, 0).value.1;
            DateText(text, now) == Stamp(Pad4(now.year), Pad2(f.month), Pad2(f.day), Pad2(f.hour), "00")
  {
    NatToStringFourDigits(now.year);
  }

  /** A headline time "M月D日H时" of a real day is read back as that day and hour; the usual
      "24时" keeps its civil day in the calendar (23:59), though moment alone would move it to
      midnight of the next day. */
  lemma {:induction false} HeadlineTimeReadsBack(text: string, now: Instant, clock: Instant)
    requires FindTime(text, 0).Some? && 1000 <= now.year < 10000
    requires var f := FindTime(text, 0).value.1;
             1 <= f.month <= 12 && 1 <= f.day <= DaysInMonth(now.year, f.month) && f.hour <= 24
    ensures var f := FindTime(text, 0).value.1;
            var day := DateTime(now.year, f.month, f.day, 0, 0);
            (f.hour < 24 ==> Parse(DateText(text, now)) == At(day.(hour := f.hour))) &&
            (f.hour == 24 ==> Parse(DateText(text, now)) == At(NextDay(day))) &&
            (f.hour == 24 ==> Calendar.AdjustTime(Some(DateText(text, now)), clock) == At(day.(hour := 23, minute := 59)))
  {
    var f := FindTime(text, 0).value.1;
    HeadlineDateText(text, now);
    if f.hour < 24 {
      StampReadsBack(now.year, f.month, f.day, f.hour);
    } else {
      assert Pad2(24) == "24";
      StampEndOfDayReadsBack(now.year, f.month, f.day, clock);
    }
  }

  /** A stamp "YYYY-MM-DD HH:00" of a real day and hour reads back as that instant. */
  lemma StampReadsBack(year: nat, month: nat, day: nat, hour: nat)
    requires 1000 <= year < 10000 && 1 <= month <= 12 && 1 <= day <= DaysInMonth(year, month) && hour < 24
    ensures Parse(Stamp(Pad4(year), Pad2(month), Pad2(day), Pad2(hour), "00")) == At(DateTime(year, month, day, hour, 0))
  {
    var at: Instant := DateTime(year, month, day, hour, 0);
    assert Pad2(0) == "00";
    FormatMinuteIsStamp(at);
    ParseFormatMinute(at);
  }

  /** A stamp "YYYY-MM-DD 24:00" of a real day: moment reads the next midnight, the calendar
      23:59 of the same day. */
  lemma StampEndOfDayReadsBack(year: nat, month: nat, day: nat, clock: Instant)
    requires 1000 <= year < 10000 && 1 <= month <= 12 && 1 <= day <= DaysInMonth(year, month)
    ensures var midnight: Instant := DateTime(year, month, day, 0, 0);
            var raw := Stamp(Pad4(year), Pad2(month), Pad2(day), "24", "00");
            Parse(raw) == At(NextDay(midnight)) &&
            Calendar.AdjustTime(Some(raw), clock) == At(midnight.(hour := 23, minute := 59))
  {
    var midnight: Instant := DateTime(year, month, day, 0, 0);
    assert FormatDate(midnight) == Pad4(year) + "-" + Pad2(month) + "-" + Pad2(day);
    assert Stamp(Pad4(year), Pad2(month), Pad2(day), "24", "00") == FormatDate(midnight) + " 24:00";
    Calendar.EndOfDayMarkerStaysOnDay(midnight, clock);
  }
}
