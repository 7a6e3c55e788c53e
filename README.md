# Oil-price adjustment calendar — a Dafny model

The system publishes a subscription calendar (iCalendar feed) of Chinese fuel-price
adjustment dates. A Python crawler (`backend/app.py`) reads a news headline, extracts the
announced time, the direction of the change, the amount per litre and the fuel grades, and
records them in a shared JSON schedule record (`tzrq.json`). A Node.js server (`app.js`)
registers subscribers, lets an administrator set a trend by hand, and on every calendar
request sorts the schedule, keeps the dates that are still to come and hands them, with the
latest trend, to the event synthesizer (`utils/calendar.js`), which produces one event per
upcoming date, or one placeholder event when there is none.

The model has one module per part of the system:

- `Wrappers` — `Option`, for JavaScript's `undefined`/`null` and Python's `None`.
- `Text` — digits, decimal rendering, substring search (`in`, `includes`) and first-occurrence
  replacement (`String.prototype.replace` with a string pattern).
- `CivilTime` — wall-clock minutes of the Gregorian calendar, moment's reading of
  `"YYYY-MM-DD"` and `"YYYY-MM-DD HH:MM"` (including ISO 8601's `24:00` = next midnight), the
  formats moment writes, adding one hour, and a minute count that orders instants.
- `Schedule` — the schedule record as a class whose fields are the JSON keys both programs
  touch, with `View()` giving the whole record as a value.
- `Calendar` — `generateCalendar` and `adjustTime` (`utils/calendar.js`).
- `Backend` — `parse_oil_info` and the update block of `fetch_oil_price_api` (`backend/app.py`).
- `Server` — the `subscribers` map, the calendar route's sort and filter, and
  `/api/update-trend` (`app.js`).

The current time, the current year and `Date.now()` are parameters. The methods that change
the record or the registry are proved against functions of the old state. The filtering loop,
the event loop and the fuel-grade loop are proved against specification functions. Lemmas
connect these functions to what the code promises: events keep the input order,
`24:00` stays on its civil day, every event built from a schedule date lasts one hour, the news
history is a bounded newest-first queue, and the regular expressions find the leftmost match.

The code has no manual-override fields, no fixed cutoff hour for the adjustment time, no third
("stranded") trend label and no source line in the event text. When `lastTrend` is truthy, the
nearest event is timed at `lastUpdate`; otherwise it is timed at its own date after the `24:00`
rewrite, like every later event. Only `lastUpdate`, `lastTrend` and `lastAmount` reach the synthesizer.
Every date that survives the filter gives a valid event, so the calendar request fails only when a
truthy trend meets a `lastUpdate` that moment cannot read: `createEvent` then throws.

## Model

| member | source | states |
|---|---|---|
| `Text.NatToString` | app.js:46 | `Date.now().toString()`: a non-empty digit string whose decimal value is the number, with no leading zero |
| `Text.NatToStringInjective` | app.js:46 | distinct times render as distinct id strings |
| `Text.Pad2` | backend/app.py:56 | `:02d` of a number below 100 is two digits denoting that number |
| `Text.Pad4` | utils/calendar.js:22 | moment's `YYYY` of a year below 10000 is four digits denoting the year |
| `Text.NatToStringFourDigits` | backend/app.py:52-58 | for four-digit years Python's `str(year)` equals the four-digit rendering |
| `Text.IndexOfFrom` | utils/calendar.js:13 | the result is an occurrence, and no occurrence lies before it; None means no occurrence at all |
| `Text.ContainsIff` | backend/app.py:60 | `pat in s` holds exactly when some position of s starts an occurrence of pat |
| `Text.ReplaceFirst` | utils/calendar.js:14 | only the first occurrence is replaced; the length and every character outside it are unchanged; no occurrence means no change |
| `CivilTime.NextDay` | utils/calendar.js:14 | the next civil day: same time of day, day number one higher |
| `CivilTime.AddHour` | utils/calendar.js:46 | `add(1, 'hour')`: exactly sixty minutes later |
| `CivilTime.DayNumberOrder` | app.js:71-74 | day numbers follow calendar order, and two instants share a day exactly when they share a day number |
| `CivilTime.MinuteIndexInjective` | utils/calendar.js:46 | the minute count identifies the instant |
| `CivilTime.AddHourUnique` | utils/calendar.js:56 | the instant sixty minutes on is unique, so "one hour later" is fully determined |
| `CivilTime.Parse` | utils/calendar.js:14-16 | `moment(text)` for the two formats the system writes; a valid result only ever comes from a 10- or 16-character text |
| `CivilTime.FormatDate` | app.js:116 | `format('YYYY-MM-DD')` has the date shape for four-digit years |
| `CivilTime.FormatMinute` | backend/app.py:56-58 | `strftime('%Y-%m-%d %H:%M')` (and the corrected `'YYYY-MM-DD HH:mm'` of utils/calendar.js:22) has the date and time shape for four-digit years |
| `CivilTime.ParseFormatDate` | app.js:116 | reading back a written date gives midnight of that day |
| `CivilTime.ParseFormatMinute` | backend/app.py:56-58 | reading back a written minute stamp (the crawler's, or the corrected placeholder's at utils/calendar.js:22) gives the same instant |
| `Calendar.AdjustTime` | utils/calendar.js:12-17 | `moment(undefined)` is now; a text without `24:00` is read by moment unchanged; a valid date only ever comes from a 10- or 16-character text (the `24:00` case is `Calendar.EndOfDayMarkerStaysOnDay`) |
| `Calendar.AdjustTimeText` | utils/calendar.js:12-17 | the first `24:00` becomes `23:59`, nothing else changes; a text without `24:00` is unchanged |
| `Calendar.OneHourLater` | utils/calendar.js:46 | an invalid start stays invalid; a valid one ends sixty minutes later |
| `Calendar.RewriteAfterDate` | utils/calendar.js:12-15 | `<date> 24:00` becomes `<date> 23:59` |
| `Calendar.EndOfDayMarkerStaysOnDay` | utils/calendar.js:12-17 | a `YYYY-MM-DD 24:00` date becomes 23:59 of the same day, whereas moment alone reads it as midnight of the next day |
| `Calendar.MarkerReadAsNextDay` | utils/calendar.js:14-16 | moment on its own reads `YYYY-MM-DD 24:00` as midnight of the next day |
| `Calendar.MarkerRewrittenOnDay` | utils/calendar.js:12-17 | adjustTime reads `YYYY-MM-DD 24:00` as 23:59 of that day |
| `Calendar.NoMarkerInStamp` | utils/calendar.js:13 | a minute stamp with hour below 24 contains no `24:00`, so adjustTime leaves it alone |
| `Calendar.TrendText` | utils/calendar.js:38 | 上涨 exactly for `up`, 下跌 otherwise; no third label |
| `Calendar.AmountText` | utils/calendar.js:39 | a truthy amount prints as itself, anything else as `0` |
| `Calendar.DetailedEvent` | utils/calendar.js:36-46 | the detailed nearest event never carries the to-be-predicted summary |
| `Calendar.PendingEvent` | utils/calendar.js:48-56 | a later event always carries the to-be-predicted summary |
| `Calendar.EventFor` | utils/calendar.js:30-66 | constant url and category; ends exactly one hour after it starts (or both invalid, which `createEvent` rejects: `Calendar.CalendarAccepted`); detailed iff index 0 with a truthy trend; later events are the pending event of their own date |
| `Calendar.LaterEventsIgnoreTrend` | utils/calendar.js:48-56 | for index ≥ 1 the event does not depend on the trend record or the clock; its summary names its date, and its description reads to-be-predicted followed by the date |
| `Calendar.NearestEventLabel` | utils/calendar.js:36-46 | with a truthy trend the nearest event starts at `lastUpdate` and reads `上涨`/`下跌 <amount>元`, with `0元` for a falsy amount |
| `Calendar.PlaceholderAsWritten` | utils/calendar.js:19-28 | as written: fixed summary, description, url and category; it starts at the current hour with the month number as its minute, and ends likewise one hour on |
| `Calendar.StampAsWrittenReadsBack` | utils/calendar.js:22 | the `'HH:MM'` stamp passes through adjustTime unchanged and is read with the month number as its minute |
| `Calendar.PlaceholderAsWrittenNotOneHour` | utils/calendar.js:22-23 | as written, at 2024-12-31 23:30 the placeholder lasts 49 minutes instead of an hour |
| `Calendar.Placeholder` | utils/calendar.js:19-28 | fixed summary, description, url and category; (corrected format) starts now and ends one hour later |
| `Calendar.CalendarEvents` | utils/calendar.js:19-67 | exactly one event for an empty schedule, with the placeholder's summary, description and url; otherwise exactly one event per upcoming date, and each event with a valid start ends sixty minutes later; every event has the fixed url and category |
| `Calendar.GenerateCalendar` | utils/calendar.js:5-71 | the loop produces exactly the specified events, in input order |
| `Calendar.RewriteKeepsParsed` | utils/calendar.js:12-17 | a date moment reads is still read after adjustTime's rewrite: in a well-formed text `24:00` can only be the time itself |
| `Calendar.PendingAccepted` | utils/calendar.js:48-66 | the pending event of a readable date has a valid start and end, so `createEvent` accepts it |
| `Calendar.CalendarAccepted` | utils/calendar.js:30-66 | when every date is readable, `createEvent` accepts all events exactly when the trend is falsy or `lastUpdate` is readable; the placeholder is always accepted |
| `Calendar.ScheduleEventsAccepted` | utils/calendar.js:30-66 | for a non-empty schedule of readable dates, only an unreadable `lastUpdate` under a truthy trend makes `createEvent` reject an event |
| `Calendar.ImpossibleDayUnread` | backend/app.py:50-56 | a headline day that does not exist, recorded as `2024-06-31 10:00`, is an invalid date to adjustTime |
| `Calendar.ImpossibleDayRejected` | utils/calendar.js:36-66 | with that `lastUpdate`, a truthy trend and one upcoming date, `createEvent` rejects the nearest event |
| `Calendar.EventsFollowDates` | utils/calendar.js:30-67 | event i is built from futureDates[i]: unless it is the detailed nearest event, its start is that date after the 24:00 rewrite, and it is pending exactly then |
| `Backend.NumberBefore` | backend/app.py:50 | `\d{1,2}` then a delimiter at p: found exactly when a one- or two-digit reading is followed by the delimiter, with its value below 100 |
| `Backend.TimeMatchAt` | backend/app.py:50 | a match at p yields month, day and hour, each below 100 |
| `Backend.FindTime` | backend/app.py:50 | `re.search`: the reported match is a match, and no match starts earlier; None means no position matches |
| `Backend.AmountAt` | backend/app.py:62 | whatever the engine reports at p is a decimal token followed by 元/升 |
| `Backend.AmountAtComplete` | backend/app.py:62 | if a decimal token followed by 元/升 starts at p, the engine finds exactly that one |
| `Backend.FindAmount` | backend/app.py:62 | the reported amount match is a match, and none starts earlier; None means none exists |
| `Backend.AmountOf` | backend/app.py:62-63 | an amount is present iff the text has a decimal token immediately followed by 元/升, and it is the leftmost such token |
| `Backend.TrendOf` | backend/app.py:60 | `up` iff 上调 or 上涨 occurs; `down` iff neither does but 下调 or 下降 does; otherwise None |
| `Backend.GradesIn` | backend/app.py:65-68 | exactly the candidate grades that occur in the text, in candidate order (a subsequence of the candidates), without duplicates when the candidates have none |
| `Backend.ParseOilInfo` | backend/app.py:48-76 | the result has the date, trend and amount above, and `types` is the occurring grades in order, or `['92']` when none occurs; never empty and never with a repeated grade |
| `Backend.DateText` | backend/app.py:49-58 | the recorded date always has the `YYYY-MM-DD HH:MM` shape for four-digit years; without a headline time it is the crawl minute's stamp, and with one its minutes are `00` |
| `Backend.HeadlineDateText` | backend/app.py:50-56 | with a headline time, the recorded date is `YYYY-MM-DD HH:00` built from the current year and the headline's month, day and hour |
| `Backend.CrawlTimeReadsBack` | backend/app.py:57-58 | without a headline time the date is the crawl minute, which the calendar reads back exactly |
| `Backend.HeadlineTimeReadsBack` | backend/app.py:50-56 | a headline time of a real day is read back as that day and hour; `24时` is 23:59 of that day in the calendar |
| `Backend.NewsRecord` | backend/app.py:149-158 | the history record carries score 10 |
| `Backend.PushNews` | backend/app.py:147-159 | the new record comes first, then the old history in order, cut to at most 30 records |
| `Backend.RecordFetch` | backend/app.py:139-159 | overwrites lastUpdate, lastTrend, lastAmount, lastTypes, lastSource, lastNews and lastNewsUrl, pushes onto the history (empty when absent), and leaves every other key alone |
| `Backend.PushAllKeepsNewest` | backend/app.py:147-159 | over many crawls the history holds the newest records, newest first, at most 30, then what is left of the starting history |
| `Schedule.OilData.Initial` | backend/app.py:18-23 | the default record: empty schedule, empty lastUpdate, version 1.0 and the fixed description |
| `Server.CalendarUrl` | app.js:47 | the url is `/api/calendar/` followed by the user id |
| `Server.Subscribers.constructor` | app.js:26 | the registry starts empty |
| `Server.Subscribers.Subscribe` | app.js:45-53 | the id is the decimal time; exactly that key is added (or replaced) with its url and creation time, all other keys unchanged |
| `Server.DistinctTimesDistinctIds` | app.js:46-47 | subscriptions at different milliseconds get different ids and urls |
| `Server.DateKey` | app.js:69 | a date that parses has a non-negative sort key, an unparseable one has -1 |
| `Server.SortBy` | app.js:69 | in-place sort by a key: the array ends sorted and is a permutation of its old contents |
| `Server.SortByDate` | app.js:69 | adjustmentDates ends sorted by date and is a permutation of its old contents |
| `Server.UpcomingByDay` | app.js:71-74 | the filter's test `IsUpcoming` holds iff the date parses and its day is today or later: a date moment cannot read is dropped, and an entry dated today is always kept |
| `Server.Upcoming` | app.js:70-77 | the filter keeps at most as many entries as the schedule has |
| `Server.UpcomingMembers` | app.js:70-77 | an entry is in the result iff it is in the schedule and upcoming |
| `Server.UpcomingSorted` | app.js:68-77 | filtering a sorted schedule gives a sorted list |
| `Server.UpcomingStep` | app.js:70-77 | one more loop step appends the entry exactly when it is upcoming |
| `Server.KeepUpcoming` | app.js:70-77 | the loop collects exactly the upcoming entries, in order |
| `Server.EndOfDayEntryOutlivesItsEvent` | app.js:71-74 | an entry dated `YYYY-MM-DD 24:00` is still kept on the next day, although its event (utils/calendar.js:55) starts at 23:59 of its own day, which has already passed |
| `Server.CalendarFeed` | app.js:56-89 | unknown id: 404 and nothing changes; otherwise adjustmentDates is sorted and a permutation of before, and the response is the events of its upcoming entries, with only lastUpdate, lastTrend and lastAmount forwarded, or a failed request when `createEvent` rejects one of them |
| `Server.FeedFailsOnlyOnLastUpdate` | app.js:70-82 | with at least one upcoming date the request fails exactly when the trend is truthy and `lastUpdate` is not a readable date |
| `Server.FirstIndexOfDate` | app.js:112 | `find`: the first entry with that date; None when no entry has it |
| `Server.WithTrend` | app.js:112-115 | only the first entry with that date gets the trend; without one the schedule is unchanged |
| `Server.WithTrendIdempotent` | app.js:112-115 | setting the same trend twice equals setting it once, and no date changes |
| `Server.UpdateTrend` | app.js:108-121 | a missing schedule throws and changes nothing; otherwise the matching entry is updated and lastTrend and lastUpdate (today) are always overwritten, nothing else |
| `Server.ManualUpdateTimesNearestEvent` | app.js:116-117 | after a manual update with a truthy trend, the nearest event is the detailed one, timed at midnight of the update day |

## Findings

| source | as written | input that shows it | evidently intended | confidence | as-written member | corrected member |
|---|---|---|---|---|---|---|
| utils/calendar.js:22-23 | the placeholder's times are formatted `'YYYY-MM-DD HH:MM'`, and moment's `MM` is the month, so the minute field holds the month | now = 2024-12-31 23:30: start 23:12, end 2025-01-01 00:01, which is 49 minutes, not one hour | `'YYYY-MM-DD HH:mm'`: start now, end one hour later | high (not executed) | `Calendar.PlaceholderAsWrittenNotOneHour` | `Calendar.Placeholder` |

`Calendar.CalendarEvents` and `Calendar.GenerateCalendar` use the corrected placeholder; see the
line on them under "## Left out".

## Left out

- Network scraping (`fetch_bing_info`, `fetch_qiyou_info`) and the error returns of `fetch_oil_price_api`. They are HTTP requests and HTML selection with foreign libraries; the model starts from a `FetchResult`.
- Reading and writing `tzrq.json` on both sides. This is file I/O; the record is the in-memory `OilData`.
- HTTP framing: routes, status codes other than the calendar route's 404, headers, static files, `/api/dates` and `/api/stats`.
- The daily `node-schedule` job and its `axios` call, and `run_crawler.js`. These are scheduling, network I/O and logging.
- `ical-generator` serialization and the calendar's name and time zone. Events are modelled as the descriptors passed to `createEvent`. Of the library's checks only one is modelled: `createEvent` throws when the start or end is not a valid date (`Calendar.Accepted`). The route does not catch that exception, so the request fails (`Server.FeedResponse.Failed`). The library's source is not part of this model.
- moment's lenient parsing. The model reads only `YYYY-MM-DD` and `YYYY-MM-DD HH:MM` and treats every other text as an invalid date. That includes ISO 8601 forms moment accepts, such as a `T` separator, a seconds field or `YYYY-MM-DD HH`; for text that is neither ISO 8601 nor RFC 2822, moment falls back to the `Date` constructor.
- Time zones and daylight saving. All times are civil times of one zone without daylight saving. `new Date("YYYY-MM-DD")` (UTC) and moment (local) read dates the same way in the model.
- Seconds and milliseconds. The clock has minute precision.
- The amount is carried as the matched decimal text. Python's `float()` and JavaScript's number-to-text conversion drop trailing zeros; that conversion is not modelled.
- Python's `\d` also matches non-ASCII digits. The model accepts ASCII digits only.
- Keys of the JSON record other than those listed in `Schedule.Document` are not represented. The JSON `null` and an absent key are both `None`, and a non-array `adjustmentDates` is not representable. For `lastUpdate` the two differ in the source: `moment(null)` is an invalid date where `moment(undefined)` is now, and the description would print `null` rather than `undefined`; the model gives `None` the absent-key behaviour. No code in the system writes `null` there.
- `Server.SortByDate` and `Server.CalendarFeed`: when any date does not parse, the source's comparator returns NaN, which the sort treats as "equal". The order of the whole array, including the parseable dates among themselves, is then left to the engine's sort algorithm, and so is which upcoming date the detailed event takes. For example, `["2024-06-20", "TBD", "2024-06-10"]` may stay as it is, giving the detailed event to 06-20. The model sorts by a total key (-1 for a date that does not parse), so it promises the sorted order in every case; it matches the source only when every date parses.
- `Server.UpdateTrend`: `targetDate` is an object shared with the array. The model replaces the array element by value; there is no other alias to observe.
- `Calendar.CalendarEvents` and `Calendar.GenerateCalendar`: for an empty schedule they return the corrected placeholder, which starts now and lasts one hour. The source's placeholder starts at the current hour with the month as its minute; `Calendar.PlaceholderAsWritten` models that, and the Findings row shows the difference.
- `Calendar.Placeholder` and `Calendar.PlaceholderAsWritten`: their start and end are stated only for years below 9999, where moment writes four-digit years.
- `Backend.CrawlTimeReadsBack` and `Backend.HeadlineTimeReadsBack`: stated only for four-digit years. `str(year)` then matches moment's `YYYY`.
