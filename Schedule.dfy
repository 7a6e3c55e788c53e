/** The shared schedule record (the tzrq.json document) that the Python crawler and the
    Node.js server both load, update in place and write back. Every JSON key the two
    programs touch is a field; a key absent from the document is None. */
module Schedule {
  import opened Wrappers

  /** One element of `adjustmentDates`; `trend` is only present once a manual update set it. */
  datatype AdjustmentEntry = AdjustmentEntry(date: string, trend: Option<string>)

  /** One element of `newsHistory`, newest first. */
  datatype NewsItem = NewsItem(
    date: string, title: string, source: string, url: string,
    trend: Option<string>, amount: Option<string>, types: seq<string>, score: nat)

  /** The whole document as a value, for stating what an update leaves alone. */
  datatype Document = Document(
    adjustmentDates: Option<seq<AdjustmentEntry>>,
    lastUpdate: Option<string>,
    lastTrend: Option<string>,
    lastAmount: Option<string>,
    lastTypes: Option<seq<string>>,
    lastSource: Option<string>,
    lastNews: Option<string>,
    lastNewsUrl: Option<string>,
    newsHistory: Option<seq<NewsItem>>,
    version: Option<string>,
    description: Option<string>)

  class OilData {
    var adjustmentDates: Option<seq<AdjustmentEntry>>
    var lastUpdate: Option<string>
    var lastTrend: Option<string>
    var lastAmount: Option<string>
    var lastTypes: Option<seq<string>>
    var lastSource: Option<string>
    var lastNews: Option<string>
    var lastNewsUrl: Option<string>
    var newsHistory: Option<seq<NewsItem>>
    var version: Option<string>
    var description: Option<string>

    function View(): Document
      reads this
    {
      Document(adjustmentDates, lastUpdate, lastTrend, lastAmount, lastTypes, lastSource,
               lastNews, lastNewsUrl, newsHistory, version, description)
    }

    /** The document the crawler writes when none exists yet. */
    constructor Initial()
      ensures View() == Document(Some([]), Some(""), None, None, None, None, None, None, None,
                                 Some("1.0"), Some("油价调整时间表"))
    {
      adjustmentDates := Some([]);
      lastUpdate := Some("");
      lastTrend, lastAmount, lastTypes := None, None, None;
      lastSource, lastNews, lastNewsUrl, newsHistory := None, None, None, None;
      version := Some("1.0");
      description := Some("油价调整时间表");
    }
  }
}
