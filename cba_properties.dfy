/**
  What the extractor promises about the parsed feed: which input gives which
  outcome, that only the first matching item is read, where every format
  comes from, and how the two parsing helpers behave.
 */
module CbaProperties {
  import opened Options
  import opened Feed
  import opened Cba

  // ---------------------------------------------------------------------
  // _parse_bool

  /** `c` spells the lower-case character `l`, in either case. */
  predicate CaseVariant(c: char, l: char)
  {
    c == l || ('a' <= l <= 'z' && c as int == l as int - 32)
  }

  /** `s` spells the lower-case word `w` in any mix of cases. */
  predicate SpelledIgnoringCase(s: string, w: string)
  {
    |s| == |w| && forall i :: 0 <= i < |s| ==> CaseVariant(s[i], w[i])
  }

  predicate IsLowerCase(w: string)
  {
    forall i :: 0 <= i < |w| ==> !('A' <= w[i] <= 'Z')
  }

  lemma LowerMatchesSpelling(s: string, w: string)
    requires IsLowerCase(w)
    ensures Lower(s) == w <==> SpelledIgnoringCase(s, w)
  {
    if Lower(s) == w {
      forall i | 0 <= i < |s| ensures CaseVariant(s[i], w[i]) {
        assert w[i] == LowerChar(s[i]);
      }
    }
    if SpelledIgnoringCase(s, w) {
      forall i | 0 <= i < |s| ensures Lower(s)[i] == w[i] {
        assert CaseVariant(s[i], w[i]);
      }
    }
  }

  /** `_parse_bool(s)` holds exactly when `s` is "yes", "true", "t" or "1"
      in any mix of upper and lower case. */
  lemma ParseBoolSpellings(s: string)
    ensures ParseBool(s) <==>
      || SpelledIgnoringCase(s, "yes")
      || SpelledIgnoringCase(s, "true")
      || SpelledIgnoringCase(s, "t")
      || SpelledIgnoringCase(s, "1")
  {
    LowerMatchesSpelling(s, "yes");
    LowerMatchesSpelling(s, "true");
    LowerMatchesSpelling(s, "t");
    LowerMatchesSpelling(s, "1");
  }

  lemma ParseBoolExamples()
    ensures ParseBool("Yes") && ParseBool("T") && ParseBool("1") && ParseBool("TRUE")
    ensures !ParseBool("no") && !ParseBool("") && !ParseBool("y") && !ParseBool("false")
  {
    ParseBoolSpellings("Yes");
    ParseBoolSpellings("T");
    ParseBoolSpellings("1");
    ParseBoolSpellings("TRUE");
    ParseBoolSpellings("no");
    ParseBoolSpellings("");
    ParseBoolSpellings("y");
    ParseBoolSpellings("false");
    assert !CaseVariant('n', 'y');
    assert !CaseVariant('y', 't');
    assert !CaseVariant('f', 't');
    assert !SpelledIgnoringCase("y", "t") && !SpelledIgnoringCase("y", "1") by {
      assert !CaseVariant("y"[0], "t"[0]) && !CaseVariant("y"[0], "1"[0]);
    }
  }

  // ---------------------------------------------------------------------
  // The scan over the feed items

  /** Item `k` is the one the loop stops at with a match: its link text is
      exactly `url`, and every item before it has a link that is not `url`. */
  predicate FirstMatch(items: Items, url: string, k: nat)
  {
    k < |items| && LinkEquals(items[k], url) &&
    forall j :: 0 <= j < k ==> PassesOver(items[j], url)
  }

  /** Item `k` is where the loop raises: its `<link>` is missing and every
      item before it was passed over. */
  predicate FirstMissingLink(items: Items, url: string, k: nat)
  {
    k < |items| && items[k].link.Missing? &&
    forall j :: 0 <= j < k ==> PassesOver(items[j], url)
  }

  predicate NoItemMatches(items: Items, url: string)
  {
    forall j :: 0 <= j < |items| ==> PassesOver(items[j], url)
  }

  /** From position `from` on, the scan stops with a match at `k` exactly
      when item `k` matches and every item from `from` up to it is passed over. */
  lemma {:induction false} FindEntryMatchFrom(items: Items, url: string, from: nat, k: nat)
    requires from <= |items|
    decreases |items| - from
    ensures FindEntry(items, url, from) == Match(k) <==>
      from <= k < |items| && LinkEquals(items[k], url) &&
      forall j :: from <= j < k ==> PassesOver(items[j], url)
  {
    if from < |items| && PassesOver(items[from], url) {
      FindEntryMatchFrom(items, url, from + 1, k);
    }
  }

  lemma {:induction false} FindEntryMissingFrom(items: Items, url: string, from: nat, k: nat)
    requires from <= |items|
    decreases |items| - from
    ensures FindEntry(items, url, from) == LinkMissing(k) <==>
      from <= k < |items| && items[k].link.Missing? &&
      forall j :: from <= j < k ==> PassesOver(items[j], url)
  {
    if from < |items| && PassesOver(items[from], url) {
      FindEntryMissingFrom(items, url, from + 1, k);
    }
  }

  lemma {:induction false} FindEntryNoMatchFrom(items: Items, url: string, from: nat)
    requires from <= |items|
    decreases |items| - from
    ensures FindEntry(items, url, from) == NoMatch <==>
      forall j :: from <= j < |items| ==> PassesOver(items[j], url)
  {
    if from < |items| && PassesOver(items[from], url) {
      FindEntryNoMatchFrom(items, url, from + 1);
    }
  }

  /** The scan stops at the first item whose link equals `url`, and at no other. */
  lemma FindEntryIsFirstMatch(items: Items, url: string, k: nat)
    ensures FindEntry(items, url, 0) == Match(k) <==> FirstMatch(items, url, k)
  {
    FindEntryMatchFrom(items, url, 0, k);
  }

  /** The scan raises at the first missing `<link>` before any match. */
  lemma FindEntryIsFirstMissingLink(items: Items, url: string, k: nat)
    ensures FindEntry(items, url, 0) == LinkMissing(k) <==> FirstMissingLink(items, url, k)
  {
    FindEntryMissingFrom(items, url, 0, k);
  }

  /** The scan finds nothing exactly when every item's link is read and differs from `url`. */
  lemma FindEntryIsNoMatch(items: Items, url: string)
    ensures FindEntry(items, url, 0) == NoMatch <==> NoItemMatches(items, url)
  {
    FindEntryNoMatchFrom(items, url, 0);
  }

  /** Only the first matching item is read: the items after it never change
      the outcome, whatever they are. */
  lemma ItemsAfterMatchIgnored(items: Items, others: Items, url: string, k: nat, videoId: string, seriesRss: string, c: Collaborators)
    requires FirstMatch(items, url, k)
    requires k < |others| && others[..k + 1] == items[..k + 1]
    ensures ExtractFromFeed(others, url, videoId, seriesRss, c) == ExtractFromFeed(items, url, videoId, seriesRss, c)
    ensures ExtractFromFeed(items, url, videoId, seriesRss, c) == ExtractEntry(items[k], videoId, seriesRss, c)
  {
    forall j | 0 <= j <= k ensures others[j] == items[j] {
      assert others[..k + 1][j] == items[..k + 1][j];
    }
    assert FirstMatch(others, url, k);
    FindEntryIsFirstMatch(items, url, k);
    FindEntryIsFirstMatch(others, url, k);
  }

  /** The link must equal the episode URL character for character: a feed
      whose only item differs by a trailing slash has no entry for it. */
  lemma TrailingSlashDoesNotMatch(it: Item, videoId: string, seriesRss: string, c: Collaborators)
    requires it.link == Present(Some("https://cba.fro.at/320619/"))
    ensures ExtractFromFeed([it], "https://cba.fro.at/320619", videoId, seriesRss, c) == Failure(EntryNotFound)
  {
    assert "https://cba.fro.at/320619/" != "https://cba.fro.at/320619" by {
      assert |"https://cba.fro.at/320619/"| != |"https://cba.fro.at/320619"|;
    }
    assert NoItemMatches([it], "https://cba.fro.at/320619");
    FindEntryIsNoMatch([it], "https://cba.fro.at/320619");
  }

  // ---------------------------------------------------------------------
  // Enclosures to formats

  /** An enclosure gives a format exactly when its type is a key of
      `_FORMATS`; the id and preference come from the table and the url,
      type and length from the enclosure. */
  lemma FormatOfTable(e: Enclosure)
    ensures FormatOf(e).Some? <==> e.mimeType == Some("audio/ogg") || e.mimeType == Some("audio/mpeg")
    ensures e.mimeType == Some("audio/ogg") ==> FormatOf(e) == Some(Format(e.url, e.mimeType, "1", 100, e.length))
    ensures e.mimeType == Some("audio/mpeg") ==> FormatOf(e) == Some(Format(e.url, e.mimeType, "2", 50, e.length))
  {
  }

  /** A format is produced exactly when some enclosure gives it. */
  lemma {:induction false} FormatsOfMembers(es: seq<Enclosure>, f: Format)
    ensures f in FormatsOf(es) <==> exists e :: e in es && FormatOf(e) == Some(f)
  {
    if es != [] {
      FormatsOfMembers(es[1..], f);
      if f in FormatsOf(es[1..]) {
        var e :| e in es[1..] && FormatOf(e) == Some(f);
        assert e in es;
      }
      forall e | e in es && FormatOf(e) == Some(f) ensures f in FormatsOf(es) {
        if e != es[0] {
          assert e in es[1..];
        }
      }
    }
  }

  /** No format is produced exactly when no enclosure has a known type. */
  lemma {:induction false} FormatsOfEmpty(es: seq<Enclosure>)
    ensures FormatsOf(es) == [] <==> forall i :: 0 <= i < |es| ==> FormatOf(es[i]).None?
  {
    if es != [] {
      FormatsOfEmpty(es[1..]);
      assert forall i :: 1 <= i < |es| ==> es[i] == es[1..][i - 1];
    }
  }

  /** When every enclosure has a known type, there is one format per enclosure. */
  lemma {:induction false} FormatsOfAllKnown(es: seq<Enclosure>)
    requires forall i :: 0 <= i < |es| ==> FormatOf(es[i]).Some?
    ensures |FormatsOf(es)| == |es|
    ensures forall i :: 0 <= i < |es| ==> Some(FormatsOf(es)[i]) == FormatOf(es[i])
  {
    if es != [] {
      assert forall i :: 1 <= i < |es| ==> es[i] == es[1..][i - 1];
      FormatsOfAllKnown(es[1..]);
    }
  }

  /** An enclosure of unknown or missing type is dropped without changing
      the formats of the enclosures around it. */
  lemma UnknownEnclosureDropped(before: seq<Enclosure>, e: Enclosure, after: seq<Enclosure>)
    requires FormatOf(e).None?
    ensures FormatsOf(before + [e] + after) == FormatsOf(before + after)
  {
    FormatsOfAppend(before + [e], after);
    FormatsOfAppend(before, [e]);
    FormatsOfAppend(before, after);
    assert FormatsOf([e]) == [] by {
      assert [e][1..] == [];
    }
  }

  /** An item with an mp3 and an ogg enclosure (and a video among them)
      yields the mp3 format and then the ogg one, in enclosure order, with
      the table's ids and preferences. */
  lemma MpegOggExample(mp3: string, ogg: string, mp4: string)
    ensures FormatsOf([
      Enclosure(Some(mp3), Some("audio/mpeg"), None),
      Enclosure(Some(mp4), Some("video/mp4"), None),
      Enclosure(Some(ogg), Some("audio/ogg"), Some("1000"))]) == [
      Format(Some(mp3), Some("audio/mpeg"), "2", 50, None),
      Format(Some(ogg), Some("audio/ogg"), "1", 100, Some("1000"))]
  {
    var a := Enclosure(Some(mp3), Some("audio/mpeg"), None);
    var v := Enclosure(Some(mp4), Some("video/mp4"), None);
    var b := Enclosure(Some(ogg), Some("audio/ogg"), Some("1000"));
    assert [a, v, b] == [a] + [v] + [b];
    UnknownEnclosureDropped([a], v, [b]);
    assert [a] + [b] == [a, b];
    assert [a, b][1..] == [b];
  }

  // ---------------------------------------------------------------------
  // Which parsed feed gives which outcome

  /** A copyright error exactly when the first matching item reads cleanly,
      has no enclosures and is flagged as containing copyright. */
  lemma UnavailableExactly(items: Items, url: string, videoId: string, seriesRss: string, c: Collaborators)
    ensures ExtractFromFeed(items, url, videoId, seriesRss, c) == Failure(Unavailable) <==>
      exists k: nat :: FirstMatch(items, url, k) && !EntryCrashes(items[k]) &&
        |items[k].enclosures| == 0 && CopyrightFlag(items[k])
  {
    MatchedOutcome(items, url, videoId, seriesRss, c);
  }

  /** The "no enclosures" error exactly when the first matching item reads
      cleanly, has no enclosures, and is not flagged as containing copyright. */
  lemma NoEnclosuresExactly(items: Items, url: string, videoId: string, seriesRss: string, c: Collaborators)
    ensures ExtractFromFeed(items, url, videoId, seriesRss, c) == Failure(NoEnclosures) <==>
      exists k: nat :: FirstMatch(items, url, k) && !EntryCrashes(items[k]) &&
        |items[k].enclosures| == 0 && !CopyrightFlag(items[k])
  {
    MatchedOutcome(items, url, videoId, seriesRss, c);
  }

  /** "Unable to find CBA entry" exactly when no item matches, or the first
      matching item reads cleanly and has enclosures of which none has a
      known type. */
  lemma EntryNotFoundExactly(items: Items, url: string, videoId: string, seriesRss: string, c: Collaborators)
    ensures ExtractFromFeed(items, url, videoId, seriesRss, c) == Failure(EntryNotFound) <==>
      || NoItemMatches(items, url)
      || exists k: nat :: FirstMatch(items, url, k) && !EntryCrashes(items[k]) &&
           |items[k].enclosures| > 0 &&
           forall i :: 0 <= i < |items[k].enclosures| ==> FormatOf(items[k].enclosures[i]).None?
  {
    FindEntryIsNoMatch(items, url);
    MatchedOutcome(items, url, videoId, seriesRss, c);
    var m := FindEntry(items, url, 0);
    if m.Match? {
      FormatsOfEmpty(items[m.index].enclosures);
    }
  }

  /** An uncaught exception exactly when a missing `<link>` is read before
      any match, or the first matching item lacks a required element. */
  lemma CrashExactly(items: Items, url: string, videoId: string, seriesRss: string, c: Collaborators)
    ensures ExtractFromFeed(items, url, videoId, seriesRss, c) == Failure(Crash) <==>
      || (exists k: nat :: FirstMissingLink(items, url, k))
      || (exists k: nat :: FirstMatch(items, url, k) && EntryCrashes(items[k]))
  {
    MatchedOutcome(items, url, videoId, seriesRss, c);
    var m := FindEntry(items, url, 0);
    if m.LinkMissing? {
      FindEntryIsFirstMissingLink(items, url, m.index);
    }
    forall k: nat | FirstMissingLink(items, url, k) ensures m == LinkMissing(k) {
      FindEntryIsFirstMissingLink(items, url, k);
    }
  }

  /** A result exactly when the first matching item reads cleanly and has an
      enclosure of known type; the result then carries that item's fields,
      its formats in enclosure order, and never an empty format list. */
  lemma SuccessExactly(items: Items, url: string, k: nat, videoId: string, seriesRss: string, c: Collaborators)
    requires FirstMatch(items, url, k)
    ensures ExtractFromFeed(items, url, videoId, seriesRss, c).Success? <==>
      !EntryCrashes(items[k]) && FormatsOf(items[k].enclosures) != []
    ensures ExtractFromFeed(items, url, videoId, seriesRss, c).Success? ==>
      var info := ExtractFromFeed(items, url, videoId, seriesRss, c).info;
      var it := items[k];
      && info.id == videoId
      && info.seriesRss == seriesRss
      && |info.formats| > 0
      && info.formats == FormatsOf(it.enclosures)
      && info.title == c.cleanHtml(it.title.text)
      && (it.contentEncoded.Present? ==> info.description == it.contentEncoded.text)
      && (it.contentEncoded.Missing? ==> info.description == c.cleanHtml(it.description.text))
      && (info.containsCopyright <==>
            it.containsCopyright.Present? && it.containsCopyright.text.Some? &&
            ParseBool(it.containsCopyright.text.value))
      && info.productionDate == IsoDate(ParseCbaDatetime(it.productionDate.text, c.strptimeFull, c.strptimeDate), c.isoformat)
      && (it.broadcastDate.Present? ==>
            info.broadcastDate == IsoDate(ParseCbaDatetime(it.broadcastDate.text, c.strptimeFull, c.strptimeDate), c.isoformat))
      && (it.broadcastDate.Missing? ==> info.broadcastDate.None?)
  {
    FindEntryIsFirstMatch(items, url, k);
    FormatsOfEmpty(items[k].enclosures);
  }

  /** A result comes back exactly when some item is the first match, reads
      cleanly and has an enclosure of known type. */
  lemma SuccessIff(items: Items, url: string, videoId: string, seriesRss: string, c: Collaborators)
    ensures ExtractFromFeed(items, url, videoId, seriesRss, c).Success? <==>
      exists k: nat :: FirstMatch(items, url, k) && !EntryCrashes(items[k]) && FormatsOf(items[k].enclosures) != []
  {
    MatchedOutcome(items, url, videoId, seriesRss, c);
    FindEntryIsNoMatch(items, url);
    forall k: nat | FirstMatch(items, url, k)
      ensures ExtractFromFeed(items, url, videoId, seriesRss, c).Success? <==>
        !EntryCrashes(items[k]) && FormatsOf(items[k].enclosures) != []
    {
      SuccessExactly(items, url, k, videoId, seriesRss, c);
    }
  }

  /** Every produced format comes from an enclosure of the matched item whose
      type is a key of `_FORMATS`, with that entry's id and preference. */
  lemma FormatProvenance(items: Items, url: string, k: nat, videoId: string, seriesRss: string, c: Collaborators, f: Format)
    requires FirstMatch(items, url, k)
    requires ExtractFromFeed(items, url, videoId, seriesRss, c).Success?
    requires f in ExtractFromFeed(items, url, videoId, seriesRss, c).info.formats
    ensures exists e :: (e in items[k].enclosures && e.mimeType.Some? && e.mimeType.value in FormatTable &&
      f == Format(e.url, e.mimeType, FormatTable[e.mimeType.value].id, FormatTable[e.mimeType.value].preference, e.length))
  {
    FindEntryIsFirstMatch(items, url, k);
    FormatsOfMembers(items[k].enclosures, f);
  }

  /** The outcome is decided by the scan and the matched item alone. */
  lemma MatchedOutcome(items: Items, url: string, videoId: string, seriesRss: string, c: Collaborators)
    ensures NoItemMatches(items, url) ==> ExtractFromFeed(items, url, videoId, seriesRss, c) == Failure(EntryNotFound)
    ensures forall k: nat :: FirstMatch(items, url, k) ==>
      ExtractFromFeed(items, url, videoId, seriesRss, c) == ExtractEntry(items[k], videoId, seriesRss, c)
    ensures ExtractFromFeed(items, url, videoId, seriesRss, c) != Failure(Crash) && !NoItemMatches(items, url) ==>
      exists k: nat :: FirstMatch(items, url, k)
  {
    FindEntryIsNoMatch(items, url);
    forall k: nat | FirstMatch(items, url, k)
      ensures ExtractFromFeed(items, url, videoId, seriesRss, c) == ExtractEntry(items[k], videoId, seriesRss, c)
    {
      FindEntryIsFirstMatch(items, url, k);
    }
    var m := FindEntry(items, url, 0);
    if m.Match? {
      FindEntryIsFirstMatch(items, url, m.index);
    }
  }

  // ---------------------------------------------------------------------
  // The API key

  /** The feed URL is rewritten with `c=<key>` exactly when a non-empty key
      is configured; an empty key behaves like no key. */
  lemma ApiKeyRewrite(seriesRss: string, apiKey: Option<string>, c: Collaborators, url: string, videoId: string)
    ensures apiKey.None? || apiKey == Some("") ==> SeriesRssUrl(seriesRss, apiKey, c.updateUrlQuery) == seriesRss
    ensures apiKey.Some? && apiKey.value != "" ==>
      SeriesRssUrl(seriesRss, apiKey, c.updateUrlQuery) == c.updateUrlQuery(seriesRss, "c", apiKey.value)
    ensures Extract(Some(""), url, videoId, seriesRss, c) == Extract(None, url, videoId, seriesRss, c)
  {
  }
}
