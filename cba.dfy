/**
  The episode extractor for the cultural broadcasting archive (cba.fro.at):
  the `_FORMATS` table, the two parsing helpers, and what `_real_extract`
  decides once the series RSS feed has been downloaded and parsed.

  Every library routine the extractor calls and whose code is not part of
  this model (`clean_html`, `datetime.strptime`, `isoformat`,
  `update_url_query`, the feed download) is a function-valued field of
  `Collaborators`, so that the model fixes nothing about it.
 */
module Cba {
  import opened Options
  import opened Feed

  // ---------------------------------------------------------------------
  // Data

  /** A value of the `_FORMATS` table. */
  datatype FormatInfo = FormatInfo(id: string, ext: string, preference: int)

  /** `CBAIE._FORMATS`: the only enclosure MIME types the extractor knows. */
  const FormatTable: map<string, FormatInfo> := map[
    "audio/ogg" := FormatInfo("1", "ogg", 100),
    "audio/mpeg" := FormatInfo("2", "mp3", 50)
  ]

  /** One format dictionary as `_real_extract` appends it: the enclosure's
      `url`, its `type` (under the key 'format'), the table's id and
      preference, and the enclosure's `length` (under the key 'filzesize'). */
  datatype Format = Format(
    url: Option<string>,
    format: Option<string>,
    formatId: string,
    preference: int,
    filzesize: Option<string>)

  /** A naive `datetime.datetime` as `strptime` returns it. */
  datatype DateTime = DateTime(year: int, month: int, day: int, hour: int, minute: int, second: int)

  /** How `_real_extract` can end without a result.
      Unavailable:   UnavailableVideoError('Unable to find file due to copyright restrictions!')
      NoEnclosures:  ExtractorError('RSS feed entry has no enclosures but <cba:containsCopyright> is false!')
      EntryNotFound: ExtractorError('Unable to find CBA entry in RSS feed')
      Crash:         an uncaught AttributeError from `.text` or `.lower()` on `None` */
  datatype FailureKind = Unavailable | NoEnclosures | EntryNotFound | Crash

  /** The info dictionary `_real_extract` returns; `formats` is the list as
      built, before `_sort_formats` reorders it. */
  datatype Info = Info(
    id: string,
    title: Option<string>,
    description: Option<string>,
    seriesRss: string,
    productionDate: Option<string>,
    broadcastDate: Option<string>,
    containsCopyright: bool,
    formats: seq<Format>)

  datatype Outcome = Success(info: Info) | Failure(kind: FailureKind)

  /** The library code the extractor calls, left uninterpreted.
      `cleanHtml` is `clean_html` (which also receives `None` texts),
      `strptimeFull` and `strptimeDate` are `datetime.strptime` with the
      formats '%a, %d %b %Y %H:%M:%S' and '%a, %d %b %Y' (`None` standing
      for the ValueError), `updateUrlQuery(url, key, value)` is
      `update_url_query(url, {key: value})`, and `downloadXml` gives the
      items of the feed found at a URL. */
  datatype Collaborators = Collaborators(
    cleanHtml: Option<string> -> Option<string>,
    strptimeFull: string -> Option<DateTime>,
    strptimeDate: string -> Option<DateTime>,
    isoformat: DateTime -> string,
    updateUrlQuery: (string, string, string) -> string,
    downloadXml: string -> Items)

  // ---------------------------------------------------------------------
  // _parse_bool

  /** Python's `str.lower` on the letters A to Z. */
  function LowerChar(c: char): char
  {
    if 'A' <= c <= 'Z' then (c as int + 32) as char else c
  }

  function Lower(s: string): string
  {
    seq(|s|, i requires 0 <= i < |s| => LowerChar(s[i]))
  }

  const TrueSpellings: set<string> := {"yes", "true", "t", "1"}

  /** `_parse_bool`: total, and never an error. */
  predicate ParseBool(s: string)
    ensures ParseBool(s) ==> 1 <= |s| <= 4
  {
    Lower(s) in TrueSpellings
  }

  // ---------------------------------------------------------------------
  // _parse_cba_datetime

  /** `_parse_cba_datetime`: `None` stays `None`; otherwise the full
      date-time pattern is tried first, then the date-only pattern, and a
      text neither accepts gives `None` instead of an exception. */
  function ParseCbaDatetime(s: Option<string>, full: string -> Option<DateTime>, dateOnly: string -> Option<DateTime>): (r: Option<DateTime>)
    ensures s.None? ==> r.None?
    ensures r.Some? <==> s.Some? && (full(s.value).Some? || dateOnly(s.value).Some?)
    ensures s.Some? && full(s.value).Some? ==> r == full(s.value)
    ensures s.Some? && full(s.value).None? ==> r == dateOnly(s.value)
  {
    match s
    case None => None
    case Some(text) => if full(text).Some? then full(text) else dateOnly(text)
  }

  // ---------------------------------------------------------------------
  // The API-key rewrite of the series feed URL

  /** `if self._API_KEY:` holds for a key that is present and non-empty;
      only then is `c=<key>` added to the query of the feed URL. */
  function SeriesRssUrl(seriesRss: string, apiKey: Option<string>, updateUrlQuery: (string, string, string) -> string): (u: string)
    ensures u != seriesRss ==> apiKey.Some? && apiKey.value != ""
  {
    if apiKey.Some? && apiKey.value != "" then updateUrlQuery(seriesRss, "c", apiKey.value) else seriesRss
  }

  // ---------------------------------------------------------------------
  // Enclosures to formats

  /** The format built from one enclosure, or `None` where `_FORMATS[type]`
      raises the KeyError that the inner loop swallows (an unknown type, or
      no `type` attribute at all). */
  function FormatOf(e: Enclosure): (r: Option<Format>)
    ensures r.Some? <==> e.mimeType.Some? && e.mimeType.value in FormatTable
    ensures r.Some? ==> r.value.url == e.url && r.value.format == e.mimeType && r.value.filzesize == e.length
  {
    if e.mimeType.Some? && e.mimeType.value in FormatTable then
      var info := FormatTable[e.mimeType.value];
      Some(Format(e.url, e.mimeType, info.id, info.preference, e.length))
    else
      None
  }

  /** The formats the inner loop appends, in enclosure order. */
  function FormatsOf(es: seq<Enclosure>): (fs: seq<Format>)
    ensures |fs| <= |es|
  {
    if es == [] then []
    else
      (match FormatOf(es[0]) case Some(f) => [f] case None => []) + FormatsOf(es[1..])
  }

  lemma {:induction false} FormatsOfAppend(a: seq<Enclosure>, b: seq<Enclosure>)
    ensures FormatsOf(a + b) == FormatsOf(a) + FormatsOf(b)
  {
    if a == [] {
      assert a + b == b;
    } else {
      assert (a + b)[0] == a[0];
      assert (a + b)[1..] == a[1..] + b;
      FormatsOfAppend(a[1..], b);
    }
  }

  /** The inner loop of `_real_extract`: one format per enclosure of a known
      type, appended in enclosure order; the KeyError of any other is swallowed. */
  method CollectFormats(enclosures: seq<Enclosure>) returns (formats: seq<Format>)
    ensures formats == FormatsOf(enclosures)
  {
    formats := [];
    var j := 0;
    while j < |enclosures|
      invariant j <= |enclosures|
      invariant formats == FormatsOf(enclosures[..j])
    {
      var e := enclosures[j];
      if e.mimeType.Some? && e.mimeType.value in FormatTable {
        var info := FormatTable[e.mimeType.value];
        formats := formats + [Format(e.url, e.mimeType, info.id, info.preference, e.length)];
      }
      assert enclosures[..j + 1] == enclosures[..j] + [e];
      FormatsOfAppend(enclosures[..j], [e]);
      j := j + 1;
    }
    assert enclosures[..j] == enclosures;
  }

  // ---------------------------------------------------------------------
  // Finding the feed entry

  /** Where the scan over the items stops: no item matched, `.text` was read
      on a missing `<link>`, or the item at `index` matched. */
  datatype Scan = NoMatch | LinkMissing(index: nat) | Match(index: nat)

  /** `it.find('link').text == url`: exact equality, and a `None` text never matches. */
  predicate LinkEquals(it: Item, url: string)
    ensures LinkEquals(it, url) ==> !PassesOver(it, url) && it.link.Present? && it.link.text.Some?
  {
    it.link == Present(Some(url))
  }

  /** The loop reads this item's link and goes on to the next one. */
  predicate PassesOver(it: Item, url: string)
  {
    it.link.Present? && it.link.text != Some(url)
  }

  /** The scan of `rss.findall('./channel/item')` from position `from` on. */
  function FindEntry(items: Items, url: string, from: nat): (m: Scan)
    requires from <= |items|
    decreases |items| - from
    ensures m.Match? ==> from <= m.index < |items| && LinkEquals(items[m.index], url)
    ensures m.LinkMissing? ==> from <= m.index < |items| && items[m.index].link.Missing?
    ensures m.NoMatch? ==> forall j :: from <= j < |items| ==> PassesOver(items[j], url)
    ensures !m.NoMatch? ==> forall j :: from <= j < m.index ==> PassesOver(items[j], url)
  {
    if from == |items| then NoMatch
    else if items[from].link.Missing? then LinkMissing(from)
    else if items[from].link.text == Some(url) then Match(from)
    else FindEntry(items, url, from + 1)
  }

  // ---------------------------------------------------------------------
  // Reading the matched entry

  /** Reading the matched item raises before its enclosures are looked at:
      `.text` of a missing `<title>`, of a missing `<description>` when there
      is no `content:encoded`, or of a missing `cba:productionDate`, or
      `_parse_bool(None)` on an empty `cba:containsCopyright`. */
  predicate EntryCrashes(it: Item)
    ensures !EntryCrashes(it) ==> it.title.Present? && it.productionDate.Present?
  {
    || it.title.Missing?
    || (it.contentEncoded.Missing? && it.description.Missing?)
    || it.productionDate.Missing?
    || it.containsCopyright == Present(None)
  }

  /** False unless `cba:containsCopyright` is there and its text parses true. */
  function CopyrightFlag(it: Item): (b: bool)
    ensures b <==> it.containsCopyright.Present? && it.containsCopyright.text.Some? &&
                   ParseBool(it.containsCopyright.text.value)
  {
    match it.containsCopyright
    case Present(Some(s)) => ParseBool(s)
    case _ => false
  }

  /** `content:encoded` verbatim when present, else the cleaned `<description>`. */
  function Description(it: Item, cleanHtml: Option<string> -> Option<string>): (d: Option<string>)
    requires it.contentEncoded.Present? || it.description.Present?
    ensures it.contentEncoded.Present? ==> d == it.contentEncoded.text
    ensures it.contentEncoded.Missing? ==> d == cleanHtml(it.description.text)
  {
    if it.contentEncoded.Present? then it.contentEncoded.text else cleanHtml(it.description.text)
  }

  /** `broadcastDate`: `None` as initialised, unless `cba:broadcastDate` is
      present, in which case it is the parse of that element's text. */
  function BroadcastDate(it: Item, c: Collaborators): (r: Option<DateTime>)
    ensures it.broadcastDate.Missing? ==> r.None?
    ensures it.broadcastDate.Present? ==> r == ParseCbaDatetime(it.broadcastDate.text, c.strptimeFull, c.strptimeDate)
  {
    if it.broadcastDate.Present? then ParseCbaDatetime(it.broadcastDate.text, c.strptimeFull, c.strptimeDate) else None
  }

  /** `if d: d.isoformat()`; a `datetime` is always truthy. */
  function IsoDate(d: Option<DateTime>, isoformat: DateTime -> string): (r: Option<string>)
    ensures r.Some? <==> d.Some?
  {
    if d.Some? then Some(isoformat(d.value)) else None
  }

  /** What the matched item yields. */
  function ExtractEntry(it: Item, videoId: string, seriesRss: string, c: Collaborators): (r: Outcome)
    ensures |it.enclosures| == 0 ==> r.Failure?
    ensures r.Success? ==> !EntryCrashes(it) && r.info.id == videoId && r.info.seriesRss == seriesRss
    ensures r.Success? ==> |r.info.formats| > 0 && r.info.formats == FormatsOf(it.enclosures)
  {
    if EntryCrashes(it) then Failure(Crash)
    else if |it.enclosures| == 0 then
      Failure(if CopyrightFlag(it) then Unavailable else NoEnclosures)
    else
      var formats := FormatsOf(it.enclosures);
      if |formats| == 0 then Failure(EntryNotFound)
      else
        var productionDate := ParseCbaDatetime(it.productionDate.text, c.strptimeFull, c.strptimeDate);
        Success(Info(
          videoId,
          c.cleanHtml(it.title.text),
          Description(it, c.cleanHtml),
          seriesRss,
          IsoDate(productionDate, c.isoformat),
          IsoDate(BroadcastDate(it, c), c.isoformat),
          CopyrightFlag(it),
          formats))
  }

  /** What `_real_extract` yields for a parsed feed. */
  function ExtractFromFeed(items: Items, url: string, videoId: string, seriesRss: string, c: Collaborators): (r: Outcome)
    ensures r.Success? ==> |r.info.formats| > 0 && r.info.id == videoId && r.info.seriesRss == seriesRss
    ensures |items| == 0 ==> r == Failure(EntryNotFound)
  {
    match FindEntry(items, url, 0)
    case NoMatch => Failure(EntryNotFound)
    case LinkMissing(_) => Failure(Crash)
    case Match(k) => ExtractEntry(items[k], videoId, seriesRss, c)
  }

  /** What `_real_extract` yields, from the id and the series-RSS link it
      scraped, through the API-key rewrite and the feed download. */
  function Extract(apiKey: Option<string>, url: string, videoId: string, seriesRss: string, c: Collaborators): (r: Outcome)
    ensures r.Success? ==> |r.info.formats| > 0 && r.info.seriesRss == SeriesRssUrl(seriesRss, apiKey, c.updateUrlQuery)
  {
    var feedUrl := SeriesRssUrl(seriesRss, apiKey, c.updateUrlQuery);
    ExtractFromFeed(c.downloadXml(feedUrl), url, videoId, feedUrl, c)
  }

  // ---------------------------------------------------------------------
  // The extractor object

  /** `CBAIE`. Its only own state is the API key that `__init__` reads. */
  class CbaExtractor {
    const apiKey: Option<string>

    /** `__init__`: `os.environ["CBA_API_KEY"]` when set, else the class
        default `None`. */
    constructor (environ: map<string, string>)
      ensures apiKey == if "CBA_API_KEY" in environ then Some(environ["CBA_API_KEY"]) else None
    {
      if "CBA_API_KEY" in environ {
        apiKey := Some(environ["CBA_API_KEY"]);
      } else {
        apiKey := None;
      }
    }

    /** `_real_extract` from line 68 on, given the id and the series-RSS link. */
    method RealExtract(url: string, videoId: string, seriesRss: string, c: Collaborators) returns (outcome: Outcome)
      ensures outcome == Extract(apiKey, url, videoId, seriesRss, c)
    {
      var title: Option<string> := Some("");
      var description: Option<string> := Some("");
      var productionDate: Option<DateTime> := None;
      var broadcastDate: Option<DateTime> := None;
      var containsCopyright := false;
      var formats: seq<Format> := [];

      var seriesrss := seriesRss;
      if apiKey.Some? && apiKey.value != "" {
        seriesrss := c.updateUrlQuery(seriesrss, "c", apiKey.value);
      }

      var rss := c.downloadXml(seriesrss);
      var i := 0;
      while i < |rss|
        invariant i <= |rss|
        invariant FindEntry(rss, url, i) == FindEntry(rss, url, 0)
        invariant formats == []
      {
        var it := rss[i];
        if it.link.Missing? {
          return Failure(Crash);
        }
        if it.link.text == Some(url) {
          if it.title.Missing? {
            return Failure(Crash);
          }
          title := c.cleanHtml(it.title.text);
          if it.contentEncoded.Present? {
            description := it.contentEncoded.text;
          } else {
            if it.description.Missing? {
              return Failure(Crash);
            }
            description := c.cleanHtml(it.description.text);
          }
          if it.productionDate.Missing? {
            return Failure(Crash);
          }
          productionDate := ParseCbaDatetime(it.productionDate.text, c.strptimeFull, c.strptimeDate);
          if it.broadcastDate.Present? {
            broadcastDate := ParseCbaDatetime(it.broadcastDate.text, c.strptimeFull, c.strptimeDate);
          }
          if it.containsCopyright.Present? {
            if it.containsCopyright.text.None? {
              return Failure(Crash);
            }
            containsCopyright := ParseBool(it.containsCopyright.text.value);
          }

          var enclosures := it.enclosures;
          if |enclosures| == 0 {
            if containsCopyright {
              return Failure(Unavailable);
            } else {
              return Failure(NoEnclosures);
            }
          } else {
            formats := CollectFormats(enclosures);
          }
          break;
        }
        i := i + 1;
      }

      if |formats| == 0 {
        return Failure(EntryNotFound);
      }

      var productionDateIso: Option<string> := None;
      var broadcastDateIso: Option<string> := None;
      if productionDate.Some? {
        productionDateIso := Some(c.isoformat(productionDate.value));
      }
      if broadcastDate.Some? {
        broadcastDateIso := Some(c.isoformat(broadcastDate.value));
      }
      outcome := Success(Info(videoId, title, description, seriesrss,
                              productionDateIso, broadcastDateIso, containsCopyright, formats));
    }
  }
}
