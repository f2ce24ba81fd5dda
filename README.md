# CBA episode extractor — a Dafny model

This project models the youtube-dl extractor for the Cultural Broadcasting
Archive (`CBAIE`, cba.fro.at). Given an episode page URL, the extractor finds
the episode's series RSS feed, downloads it, and takes the first feed item
whose `<link>` equals the page URL. From that item it reads the title, the
description, the production and broadcast dates and the copyright flag. It
then turns the item's enclosures into download formats through the fixed
`_FORMATS` table.

The model starts once the id and the series-RSS link are known. It covers:

- the `__init__` reading of the API key;
- the optional `c=<key>` rewrite of the feed URL;
- the scan over the parsed feed items;
- the field reads on the matched item;
- the enclosure loop and the error policy;
- the two helpers `_parse_bool` and `_parse_cba_datetime`.

Files:

- `options.dfy`: `Option`, standing for Python's `None`/value.
- `feed.dfy`: the parsed feed. An `Element` is either missing (`find`
  gives `None`) or present with a text that may be `None`. An `Item` has
  its link, title, `content:encoded`, description and three `cba:`
  elements, plus its enclosures. An `Enclosure` has `url`, `type` and
  `length` attributes, each optional.
- `cba.dfy`: the `_FORMATS` table, `ParseBool`, `ParseCbaDatetime`, the
  specification functions (`FindEntry`, `FormatsOf`, `ExtractEntry`,
  `ExtractFromFeed`, `Extract`), and the class `CbaExtractor`. Its
  constructor reads the API key. Its method `RealExtract` is the
  imperative loop of `_real_extract`, proved equal to `Extract`.
- `cba_properties.dfy`: lemmas about the specification. They say which
  parsed feed gives which outcome, that only the first matching item is
  read, where every format comes from, and how `_parse_bool` behaves.

Outcomes are `Success(Info)` or `Failure(kind)`. The failure kinds are:

- `Unavailable`: the `UnavailableVideoError` at line 101.
- `NoEnclosures`: the `ExtractorError` at line 103.
- `EntryNotFound`: the `ExtractorError` at line 120.
- `Crash`: an uncaught `AttributeError` from `.text` on a missing element,
  or from `.lower()` on `None`.

The library code the extractor calls is not modelled. This covers
`clean_html`, the two `strptime` calls, `isoformat`, `update_url_query` and
the feed download. Each one is a function-valued field of
`Collaborators`, so nothing is assumed about what it returns. Each one is
assumed to return, though: failures of the download (network or XML
errors) and of the other library calls are not modelled.

Three behaviours of the code are easy to miss; the model follows the code:

- The same `ExtractorError('Unable to find CBA entry in RSS feed')`
  (cba.py:119-120) covers both a feed with no matching item and a matched
  item none of whose enclosures has a known type.
- A missing `<link>` on an item read before the match raises
  (cba.py:85). The model calls this `Crash`.
- A present but empty `cba:containsCopyright` also raises, because
  `_parse_bool(None)` calls `.lower()` on `None` (cba.py:96).

## Model

| member | source | states |
|---|---|---|
| `CbaProperties.ParseBoolSpellings` | youtube_dl/extractor/cba.py:42-43 | `_parse_bool(s)` is true exactly when `s` spells "yes", "true", "t" or "1" in any mix of upper and lower case |
| `CbaProperties.LowerMatchesSpelling` | youtube_dl/extractor/cba.py:43 | lower-casing `s` gives a lower-case word `w` exactly when `s` spells `w` with each letter in either case |
| `Cba.ParseBool` | youtube_dl/extractor/cba.py:42-43 | an accepted text has one to four characters; `ParseBoolSpellings` gives the exact set |
| `CbaProperties.ParseBoolExamples` | youtube_dl/extractor/cba.py:42-43 | "Yes", "T", "1" and "TRUE" parse true; "no", "", "y" and "false" parse false |
| `Cba.ParseCbaDatetime` | youtube_dl/extractor/cba.py:45-57 | `None` gives `None`; otherwise the full date-time parse wins when it succeeds, else the date-only parse is the result; the result is absent exactly when the input is `None` or neither pattern accepts it, and no error is raised |
| `CbaProperties.ApiKeyRewrite` | youtube_dl/extractor/cba.py:78-81 | the feed URL gets `c=<key>` exactly when a non-empty key is set; an empty key gives the same outcome as no key |
| `Cba.SeriesRssUrl` | youtube_dl/extractor/cba.py:79-81 | the feed URL changes only when a non-empty key is configured; `ApiKeyRewrite` gives both cases |
| `Cba.CbaExtractor.constructor` | youtube_dl/extractor/cba.py:34-40 | the API key is `CBA_API_KEY` from the environment when that is set, else `None` |
| `Cba.CbaExtractor.RealExtract` | youtube_dl/extractor/cba.py:68-140 | the imperative scan (locals initialised, first match, `break`, inner enclosure loop, final empty check, date serialisation) returns exactly `Extract` of the key, URL, id and feed link |
| `Cba.CollectFormats` | youtube_dl/extractor/cba.py:105-115 | the inner loop's appended list equals `FormatsOf` of the enclosures |
| `Cba.FormatsOf` | youtube_dl/extractor/cba.py:105-115 | there are never more formats than enclosures |
| `Cba.FormatsOfAppend` | youtube_dl/extractor/cba.py:105-115 | the formats of two runs of enclosures are the formats of the first run followed by those of the second, so enclosure order is kept |
| `Cba.LinkEquals` | youtube_dl/extractor/cba.py:85 | an item whose link text equals the URL is never passed over; a `None` text or a missing link never matches |
| `Cba.FindEntry` | youtube_dl/extractor/cba.py:84-85 | a match is at an item whose link text is exactly the URL; a crash is at an item with no `<link>`; every item before the stop point was read and did not match; no match means every item was read and differed |
| `CbaProperties.FindEntryMatchFrom` | youtube_dl/extractor/cba.py:84-85 | from any position, the scan stops with a match at `k` exactly when item `k` matches and all items between were passed over |
| `CbaProperties.FindEntryMissingFrom` | youtube_dl/extractor/cba.py:84-85 | from any position, the scan raises at `k` exactly when item `k` has no `<link>` and all items between were passed over |
| `CbaProperties.FindEntryNoMatchFrom` | youtube_dl/extractor/cba.py:84-85 | from any position, the scan finds nothing exactly when every remaining item has a link that differs from the URL |
| `CbaProperties.FindEntryIsFirstMatch` | youtube_dl/extractor/cba.py:84-117 | the scan selects item `k` exactly when `k` is the first item whose link equals the URL |
| `CbaProperties.FindEntryIsFirstMissingLink` | youtube_dl/extractor/cba.py:84-85 | the scan raises at item `k` exactly when `k` is the first item without a link and no item before it matched |
| `CbaProperties.FindEntryIsNoMatch` | youtube_dl/extractor/cba.py:84-85 | the scan finds nothing exactly when every item's link is present and differs from the URL |
| `CbaProperties.ItemsAfterMatchIgnored` | youtube_dl/extractor/cba.py:84-117 | because of the `break`, replacing every item after the first match leaves the outcome unchanged, and the outcome is that of the matched item alone |
| `CbaProperties.TrailingSlashDoesNotMatch` | youtube_dl/extractor/cba.py:85 | a link that differs from `https://cba.fro.at/320619` only by a trailing slash does not match, so the outcome is `EntryNotFound` |
| `CbaProperties.FormatOfTable` | youtube_dl/extractor/cba.py:30-33 | an enclosure gives a format exactly when its type is `audio/ogg` (id "1", preference 100) or `audio/mpeg` (id "2", preference 50); url, type and length are copied from the enclosure |
| `Cba.FormatOf` | youtube_dl/extractor/cba.py:106-113 | an enclosure gives a format exactly when its type is a `_FORMATS` key (no KeyError), and the format's url, type and length are the enclosure's; `FormatOfTable` gives the ids and preferences |
| `CbaProperties.FormatsOfMembers` | youtube_dl/extractor/cba.py:105-115 | a format is in the list exactly when some enclosure of a known type gives it |
| `CbaProperties.FormatsOfEmpty` | youtube_dl/extractor/cba.py:105-115 | the list is empty exactly when no enclosure has a known type |
| `CbaProperties.FormatsOfAllKnown` | youtube_dl/extractor/cba.py:105-115 | when every enclosure has a known type there is one format per enclosure, in enclosure order |
| `CbaProperties.UnknownEnclosureDropped` | youtube_dl/extractor/cba.py:106-115 | an enclosure with an unknown or missing type is dropped without affecting the formats of the enclosures around it |
| `CbaProperties.MpegOggExample` | youtube_dl/extractor/cba.py:30-33 | an mp3, a `video/mp4` and an ogg enclosure give exactly the mp3 format ("2", 50) followed by the ogg format ("1", 100) |
| `Cba.EntryCrashes` | youtube_dl/extractor/cba.py:85-96 | an item that reads cleanly has a title and a production date; `CrashExactly` ties the predicate to the outcome |
| `Cba.CopyrightFlag` | youtube_dl/extractor/cba.py:95-96 | the flag is true exactly when `cba:containsCopyright` is present, has text, and that text parses true; otherwise it keeps the initial `False` of line 72 |
| `Cba.Description` | youtube_dl/extractor/cba.py:87-90 | `content:encoded` verbatim when that element is present, otherwise the cleaned `<description>` text |
| `Cba.BroadcastDate` | youtube_dl/extractor/cba.py:93-94 | no broadcast date without the element (the `None` of line 71); otherwise the parse of its text; `SuccessExactly` gives the result's field |
| `Cba.IsoDate` | youtube_dl/extractor/cba.py:124-129 | a serialised date is present exactly when a date was parsed (a `datetime` is always truthy) |
| `Cba.ExtractEntry` | youtube_dl/extractor/cba.py:86-120 | an item without enclosures never gives a result; a result comes only from a cleanly read item, passes the id and feed link through, and its formats are the item's known-type formats, never empty; the `*Exactly` lemmas give every outcome |
| `Cba.ExtractFromFeed` | youtube_dl/extractor/cba.py:84-120 | a result has a non-empty format list and the given id and feed link; an empty feed gives `EntryNotFound`; `MatchedOutcome`, `SuccessIff` and the `*Exactly` lemmas characterise every outcome |
| `Cba.Extract` | youtube_dl/extractor/cba.py:78-140 | a result carries the feed URL after the API-key rewrite and a non-empty format list; `RealExtract` is proved equal to it |
| `CbaProperties.UnavailableExactly` | youtube_dl/extractor/cba.py:99-101 | the copyright error happens exactly when the first matching item reads cleanly, has no enclosures and its copyright flag is true |
| `CbaProperties.NoEnclosuresExactly` | youtube_dl/extractor/cba.py:99-103 | the "no enclosures" error happens exactly when the first matching item reads cleanly, has no enclosures and its copyright flag is false |
| `CbaProperties.EntryNotFoundExactly` | youtube_dl/extractor/cba.py:119-120 | "Unable to find CBA entry" happens exactly when no item matches, or when the matched item has enclosures and none of them has a known type |
| `CbaProperties.CrashExactly` | youtube_dl/extractor/cba.py:85-96 | an uncaught exception happens exactly when a missing `<link>` is read before any match, or the matched item lacks its title, its description (with no `content:encoded`) or its production date, or has an empty copyright element |
| `CbaProperties.SuccessExactly` | youtube_dl/extractor/cba.py:84-140 | a result comes back exactly when the matched item reads cleanly and has a known-type enclosure. It then has a non-empty format list, which is the item's formats in enclosure order. The description is `content:encoded` verbatim when that is present, else the cleaned `<description>`. The production date is the isoformat of the parsed `cba:productionDate`, and the broadcast date that of the parsed `cba:broadcastDate` when the element is present. The copyright flag is true exactly when the element is present and its text parses true. The id and feed link are passed through, and there is no broadcast date without the element |
| `CbaProperties.SuccessIff` | youtube_dl/extractor/cba.py:84-120 | a result comes back exactly when some item is the first match, reads cleanly and has an enclosure of known type |
| `CbaProperties.FormatProvenance` | youtube_dl/extractor/cba.py:105-113 | every format in a result comes from an enclosure of the matched item whose type is a `_FORMATS` key, with that key's id and preference |
| `CbaProperties.MatchedOutcome` | youtube_dl/extractor/cba.py:84-120 | a feed with no matching item gives `EntryNotFound`; otherwise the outcome is that of the first matching item; any outcome other than a crash, on a feed where some item matches, comes from a first match |

## Left out

- Network and page work: `_match_id`, `_download_webpage`, the series-RSS
  link scrape with `_html_search_regex`, and `_download_xml` (lines 61-64
  and 83). The id and the scraped link are inputs. The downloaded feed is
  `Collaborators.downloadXml` applied to the (possibly rewritten) feed URL.
- The "Downloading Series-RSS (using API_KEY ...)" progress note built at
  lines 78-80. It is only a log message.
- Lines 65-66 build a `RegexNotFoundError` and never raise it, so they do
  nothing. The scrape before them already fails when nothing matches.
- `self._sort_formats(formats)` (line 122). Its code lives in `common.py`,
  which is not part of this model. `Info.formats` is the list before
  sorting, in enclosure order.
- `Cba.ParseCbaDatetime`: the full and date-only `strptime` parses are
  uninterpreted, so nothing is stated about what they accept. For the same
  reason, "the full parse equals the date-only parse plus the time of day"
  is not stated. `isoformat` is uninterpreted too.
- `clean_html` and `update_url_query` are uninterpreted.
- `Cba.ParseBool`: Python's `str.lower` maps every Unicode upper-case
  letter. The model's `Lower` maps only A to Z. No other character
  lower-cases to one of the letters of "yes", "true" or "t", or to "1",
  so the set of accepted texts is the same.
- `__init__(self, *args, **kwargs)` (lines 36-40) replaces the base class
  constructor and never calls `InfoExtractor.__init__`, so its arguments
  (the downloader among them) are thrown away and none of the base
  class's set-up happens. The model's constructor takes no such arguments
  and models only the API-key read; the base class lives in `common.py`,
  which is not part of this model.
- Unhandled exceptions are one `Crash` kind, with no message. The model
  does not say which Python exception type is raised.
- Two quirks of the format dictionary are kept as written rather than
  modelled as errors. The byte length is stored under the misspelled key
  'filzesize' (the model's field has the same name). The table's 'ext'
  value is never copied into a format.
