/** The bookkeeping of the Steam crawler: ids taken from URLs, the offsets
    of the result pages, and the counters and record list the producer keeps
    up to date. Fetching and HTML parsing are given as their outcomes. */
module SteamCrawler {
  import opened Common
  import opened Text
  import opened Store

  // ---------------------------------------------------------------------
  // Ids and URLs
  // ---------------------------------------------------------------------

  /** `int(url.split('/')[-3])`; None where Python raises (fewer than three
      segments, or a segment that is not an integer). */
  function GameIdOf(url: string): (r: Option<int>)
    ensures r.Some? ==> |Split(url, '/')| >= 3
    ensures |Split(url, '/')| >= 3 ==> r == ParseInt(Split(url, '/')[|Split(url, '/')| - 3])
    ensures '/' !in url ==> r.None?
  {
    if '/' !in url then SplitWithoutSeparator(url, '/'); None
    else
    var parts := Split(url, '/');
    if |parts| < 3 then None else ParseInt(parts[|parts| - 3])
  }

  /** get_game_ids: the id of every URL, in order, or None when any one of
      them raises. */
  function GetGameIds(urls: seq<string>): (ids: Option<seq<int>>)
    ensures ids.Some? <==> forall i :: 0 <= i < |urls| ==> GameIdOf(urls[i]).Some?
    ensures ids.Some? ==> |ids.value| == |urls| && forall i :: 0 <= i < |urls| ==> ids.value[i] == GameIdOf(urls[i]).value
    decreases |urls|
  {
    if urls == [] then Some([])
    else
      match (GameIdOf(urls[0]), GetGameIds(urls[1..]))
      case (Some(id), Some(rest)) => Some([id] + rest)
      case _ => None
  }

  /** A store URL `.../<id>/<slug>/<query>` yields its numeric id. */
  lemma AppUrlId(prefix: string, id: nat, slug: string, query: string)
    requires '/' !in slug && '/' !in query
    ensures GameIdOf(prefix + "/" + NatToString(id) + "/" + slug + "/" + query) == Some(id)
  {
    var digits := NatToString(id);
    assert '/' !in digits by {
      assert forall i :: 0 <= i < |digits| ==> IsDigit(digits[i]);
    }
    var url := prefix + "/" + digits + "/" + slug + "/" + query;
    assert url == prefix + ['/'] + (digits + ['/'] + (slug + ['/'] + query));
    SplitConcat(prefix, digits + ['/'] + (slug + ['/'] + query), '/');
    SplitConcat(digits, slug + ['/'] + query, '/');
    SplitConcat(slug, query, '/');
    SplitWithoutSeparator(digits, '/');
    SplitWithoutSeparator(slug, '/');
    SplitWithoutSeparator(query, '/');
    var parts := Split(url, '/');
    assert parts == Split(prefix, '/') + [digits] + [slug] + [query];
    assert parts[|parts| - 3] == digits;
    ParseIntOfString(id);
  }

  /** The infinite-scroll endpoint, `NUM` standing for the first result. */
  const ScrollPrefix: string := "https://store.steampowered.com/" + "search/results/?query=&start="
  const ScrollSuffix: string := "&count=50&filter=" + "topsellers&infinite=true"
  const ScrollTemplate: string := ScrollPrefix + "NUM" + ScrollSuffix

  /** Results per scroll page. */
  const PageSize: nat := 50

  /** fetch_scroll_page(num) requests the template with NUM replaced. */
  function ScrollPageUrl(num: nat): string
  {
    Replace(ScrollTemplate, "NUM", NatToString(num * PageSize))
  }

  /** Page i asks for the results from offset 50 i. */
  lemma ScrollPageOffset(num: nat)
    ensures ScrollPageUrl(num) == ScrollPrefix + NatToString(num * PageSize) + ScrollSuffix
  {
    assert 'N' !in "https://store.steampowered.com/" && 'N' !in "search/results/?query=&start=";
    assert 'N' !in "&count=50&filter=" && 'N' !in "topsellers&infinite=true";
    ReplaceSingle(ScrollPrefix, "NUM", ScrollSuffix, NatToString(num * PageSize));
  }

  /** The request run makes for the total is the URL of page 0. */
  lemma StartRequestIsFirstPage()
    ensures Replace(ScrollTemplate, "NUM", "0") == ScrollPageUrl(0)
  {
    assert NatToString(0 * PageSize) == "0";
  }

  /** run requests pages 0 to total // 50; Python's range is empty when the
      bound is not positive. */
  function PageCount(total: int): (n: nat)
    ensures total >= 0 ==> n == total / PageSize + 1
    ensures total < 0 ==> n == 0
  {
    if total / PageSize + 1 > 0 then total / PageSize + 1 else 0
  }

  /** For a non-negative total, the requested pages start at or below the
      total and together cover every offset up to it. */
  lemma PagesCoverTotal(total: int)
    requires total >= 0
    ensures PageSize * (PageCount(total) - 1) <= total < PageSize * PageCount(total)
  {
  }

  // ---------------------------------------------------------------------
  // Records
  // ---------------------------------------------------------------------

  /** What _get_game_info_main reads from the result row. */
  datatype MainInfo = MainInfo(title: string, supportsWin: bool, supportsMac: bool, supportsLinux: bool, price: Price)

  /** What _get_game_info_detail reads from the game page. */
  datatype DetailInfo = DetailInfo(releaseDate: Option<string>, names: PerKind<seq<string>>,
    totalReviews: Option<int>, positiveReviews: Option<int>)

  /** The dict get_games_info emits: get_game_info's merge of the two parts
      and the steam_id, then the link. The two parts have no key in common,
      so the merge order decides nothing but that steam_id is the argument. */
  datatype RawRecord = RawRecord(steamId: int, main: MainInfo, detail: DetailInfo, link: string)

  /** How parsing one game went. A missing element makes BeautifulSoup
      return None and the next access raise AttributeError, which the page
      loop catches; a malformed number raises ValueError, which it does
      not. */
  datatype ParseOutcome = Parsed(main: MainInfo, detail: DetailInfo) | MissingElement | BadNumber

  datatype Entry = Entry(url: string, outcome: ParseOutcome)

  /** A scroll page: failed (HTTP status, `success` false, or a game page
      that failed to load), or its game URLs with their parse outcomes. */
  datatype ScrollResponse = FetchFailed | Scroll(entries: seq<Entry>)

  datatype PageResult = PageOk(records: seq<RawRecord>) | PageCrashed

  function Urls(entries: seq<Entry>): (urls: seq<string>)
    ensures |urls| == |entries| && forall i :: 0 <= i < |entries| ==> urls[i] == entries[i].url
  {
    seq(|entries|, i requires 0 <= i < |entries| => entries[i].url)
  }

  /** The records of a page's entries, parsed games in page order and games
      with a missing element skipped; a malformed number aborts the page,
      and nothing else does. */
  function Collect(entries: seq<Entry>, ids: seq<int>): (r: PageResult)
    requires |ids| == |entries|
    ensures r.PageCrashed? <==> exists i :: 0 <= i < |entries| && entries[i].outcome.BadNumber?
    ensures r.PageOk? ==> |r.records| <= |entries|
    decreases |entries|
  {
    if entries == [] then PageOk([])
    else
      var n := |entries| - 1;
      assert forall i :: 0 <= i < n ==> entries[..n][i] == entries[i];
      match Collect(entries[..n], ids[..n])
      case PageCrashed => PageCrashed
      case PageOk(rs) =>
        match entries[n].outcome
        case Parsed(m, d) => PageOk(rs + [RawRecord(ids[n], m, d, entries[n].url)])
        case MissingElement => PageOk(rs)
        case BadNumber => PageCrashed
  }

  /** The positions of the games of a page that parsed, in page order. */
  function ParsedIndices(entries: seq<Entry>): (idx: seq<nat>)
    ensures forall k :: 0 <= k < |idx| ==> idx[k] < |entries| && entries[idx[k]].outcome.Parsed?
    ensures forall k, l :: 0 <= k < l < |idx| ==> idx[k] < idx[l]
    ensures forall i :: 0 <= i < |entries| && entries[i].outcome.Parsed? ==> i in idx
    decreases |entries|
  {
    if entries == [] then []
    else
      var n := |entries| - 1;
      assert forall i :: 0 <= i < n ==> entries[..n][i] == entries[i];
      var rest := ParsedIndices(entries[..n]);
      if entries[n].outcome.Parsed? then rest + [n] else rest
  }

  /** The records are the parsed games of the page, one each and in page
      order, each with its own URL as link and its own id as steam_id. */
  predicate YieldsParsed(entries: seq<Entry>, ids: seq<int>, records: seq<RawRecord>)
    requires |ids| == |entries|
  {
    var idx := ParsedIndices(entries);
    |records| == |idx|
    && forall k :: 0 <= k < |idx| ==>
         records[k] == RawRecord(ids[idx[k]], entries[idx[k]].outcome.main, entries[idx[k]].outcome.detail, entries[idx[k]].url)
  }

  /** A page that goes through yields exactly its parsed games. */
  lemma {:induction false} CollectYieldsParsed(entries: seq<Entry>, ids: seq<int>)
    requires |ids| == |entries|
    ensures Collect(entries, ids).PageOk? ==> YieldsParsed(entries, ids, Collect(entries, ids).records)
    decreases |entries|
  {
    if entries != [] {
      var n := |entries| - 1;
      assert forall i :: 0 <= i < n ==> entries[..n][i] == entries[i] && ids[..n][i] == ids[i];
      CollectYieldsParsed(entries[..n], ids[..n]);
    }
  }

  /** Every record of a page carries the URL it came from as its link and
      the id extracted from that URL as its steam_id. */
  lemma {:induction false} CollectRecordsMatchUrls(entries: seq<Entry>, ids: seq<int>)
    requires |ids| == |entries|
    requires forall i :: 0 <= i < |entries| ==> GameIdOf(entries[i].url) == Some(ids[i])
    ensures Collect(entries, ids).PageOk? ==>
      forall r :: r in Collect(entries, ids).records ==> GameIdOf(r.link) == Some(r.steamId)
    ensures Collect(entries, ids).PageOk? ==> |Collect(entries, ids).records| <= |entries|
    decreases |entries|
  {
    if entries != [] {
      var n := |entries| - 1;
      assert forall i :: 0 <= i < n ==> entries[..n][i] == entries[i] && ids[..n][i] == ids[i];
      CollectRecordsMatchUrls(entries[..n], ids[..n]);
    }
  }

  /** What get_games_info returns for a response: the page aborts if the
      fetch or an id fails, and is collected otherwise. */
  function PageOutcome(resp: ScrollResponse): PageResult
  {
    match resp
    case FetchFailed => PageCrashed
    case Scroll(entries) =>
      match GetGameIds(Urls(entries))
      case None => PageCrashed
      case Some(ids) => Collect(entries, ids)
  }

  /** A page aborts exactly when its fetch or one of its ids fails or one
      of its games has a malformed number; otherwise its records are its
      parsed games in page order, each with its own URL and the id that URL
      gives. */
  lemma PageOutcomeMeaning(resp: ScrollResponse)
    ensures PageOutcome(resp).PageCrashed? <==>
      resp.FetchFailed? || GetGameIds(Urls(resp.entries)).None?
      || exists i :: 0 <= i < |resp.entries| && resp.entries[i].outcome.BadNumber?
    ensures PageOutcome(resp).PageOk? ==>
      resp.Scroll? && GetGameIds(Urls(resp.entries)).Some?
      && YieldsParsed(resp.entries, GetGameIds(Urls(resp.entries)).value, PageOutcome(resp).records)
      && forall rec :: rec in PageOutcome(resp).records ==> GameIdOf(rec.link) == Some(rec.steamId)
  {
    if resp.Scroll? && GetGameIds(Urls(resp.entries)).Some? {
      CollectRecordsMatchUrls(resp.entries, GetGameIds(Urls(resp.entries)).value);
      CollectYieldsParsed(resp.entries, GetGameIds(Urls(resp.entries)).value);
    }
  }

  /** The games the page loop counts before it ends: every game, or those up
      to and including the first with a malformed number. */
  function CountedUpToAbort(entries: seq<Entry>): (n: nat)
    ensures n <= |entries|
    ensures (forall k :: 0 <= k < |entries| ==> !entries[k].outcome.BadNumber?) ==> n == |entries|
    ensures n < |entries| ==> 0 < n && entries[n - 1].outcome.BadNumber?
    decreases |entries|
  {
    if entries == [] then 0
    else if entries[0].outcome.BadNumber? then 1
    else
      assert forall k :: 0 <= k < |entries| - 1 ==> entries[1..][k] == entries[k + 1];
      1 + CountedUpToAbort(entries[1..])
  }

  /** Games before the first malformed number are counted one by one. */
  lemma {:induction false} CountedPrefix(entries: seq<Entry>, i: nat)
    requires i <= |entries| && forall k :: 0 <= k < i ==> !entries[k].outcome.BadNumber?
    ensures CountedUpToAbort(entries) == i + CountedUpToAbort(entries[i..])
    decreases i
  {
    if i > 0 {
      assert entries[1..][i - 1..] == entries[i..];
      assert forall k :: 0 <= k < i - 1 ==> entries[1..][k] == entries[k + 1];
      CountedPrefix(entries[1..], i - 1);
    }
  }

  /** The games get_games_info counts for a response: none when it aborts
      before its loop, all of them when the page goes through. */
  function Counted(resp: ScrollResponse): (n: nat)
    ensures resp.FetchFailed? || GetGameIds(Urls(resp.entries)).None? ==> n == 0
    ensures PageOutcome(resp).PageOk? ==> n == |resp.entries|
    ensures resp.Scroll? ==> n <= |resp.entries|
  {
    match resp
    case FetchFailed => 0
    case Scroll(entries) => if GetGameIds(Urls(entries)).None? then 0 else CountedUpToAbort(entries)
  }

  // ---------------------------------------------------------------------
  // The page loop as the source writes it
  // ---------------------------------------------------------------------

  predicate AnyParsed(entries: seq<Entry>)
  {
    exists i :: 0 <= i < |entries| && entries[i].outcome.Parsed?
  }

  /** The page loop of get_games_info as written: the handler of the
      AttributeError prints `game_info['title']`, a variable bound only by
      an earlier successful parse on the same page; when there is none the
      handler itself raises UnboundLocalError and the page aborts. */
  function CollectAsWritten(entries: seq<Entry>, ids: seq<int>): PageResult
    requires |ids| == |entries|
    decreases |entries|
  {
    if entries == [] then PageOk([])
    else
      var n := |entries| - 1;
      match CollectAsWritten(entries[..n], ids[..n])
      case PageCrashed => PageCrashed
      case PageOk(rs) =>
        match entries[n].outcome
        case Parsed(m, d) => PageOk(rs + [RawRecord(ids[n], m, d, entries[n].url)])
        case MissingElement => if AnyParsed(entries[..n]) then PageOk(rs) else PageCrashed
        case BadNumber => PageCrashed
  }

  /** As written, a page whose first game lacks an element aborts whatever
      follows, where the loop means to skip that game. */
  lemma {:induction false} FirstMissingAbortsPage(entries: seq<Entry>, ids: seq<int>)
    requires |ids| == |entries| && |entries| > 0 && entries[0].outcome.MissingElement?
    ensures CollectAsWritten(entries, ids) == PageCrashed
    ensures Collect(entries[..1], ids[..1]) == PageOk([])
    decreases |entries|
  {
    var n := |entries| - 1;
    if n == 0 {
      assert !AnyParsed(entries[..0]);
    } else {
      assert entries[..n][0] == entries[0];
      FirstMissingAbortsPage(entries[..n], ids[..n]);
    }
    assert entries[..1][..0] == [];
  }

  /** The written loop aborts where the intended one does and more often:
      when it goes through, it gives the intended records. */
  lemma {:induction false} AsWrittenOkIsIntended(entries: seq<Entry>, ids: seq<int>)
    requires |ids| == |entries|
    ensures CollectAsWritten(entries, ids).PageOk? ==> CollectAsWritten(entries, ids) == Collect(entries, ids)
    decreases |entries|
  {
    if entries != [] {
      var n := |entries| - 1;
      AsWrittenOkIsIntended(entries[..n], ids[..n]);
    }
  }

  /** Once a game of the page has parsed, the written loop and the intended
      one agree. */
  lemma {:induction false} AsWrittenAgreesAfterParse(entries: seq<Entry>, ids: seq<int>)
    requires |ids| == |entries| && |entries| > 0 && entries[0].outcome.Parsed?
    ensures CollectAsWritten(entries, ids) == Collect(entries, ids)
    decreases |entries|
  {
    var n := |entries| - 1;
    if n > 0 {
      assert entries[..n][0] == entries[0];
      AsWrittenAgreesAfterParse(entries[..n], ids[..n]);
      assert AnyParsed(entries[..n]) by {
        assert entries[..n][0].outcome.Parsed?;
      }
    }
  }

  // ---------------------------------------------------------------------
  // The crawler object
  // ---------------------------------------------------------------------

  /** The records of pages 0 to n - 1, in page order, as far as they went
      through. */
  function Fetched(fetch: string -> ScrollResponse, n: nat): seq<RawRecord>
    decreases n
  {
    if n == 0 then []
    else
      match PageOutcome(fetch(ScrollPageUrl(n - 1)))
      case PageOk(rs) => Fetched(fetch, n - 1) + rs
      case PageCrashed => Fetched(fetch, n - 1)
  }

  /** The number of games of pages 0 to n - 1. */
  function Attempted(fetch: string -> ScrollResponse, n: nat): nat
    decreases n
  {
    if n == 0 then 0
    else
      match fetch(ScrollPageUrl(n - 1))
      case FetchFailed => Attempted(fetch, n - 1)
      case Scroll(entries) => Attempted(fetch, n - 1) + |entries|
  }

  /** The first of pages 0 to n - 1 that aborts, if one does. */
  function FirstAbort(fetch: string -> ScrollResponse, n: nat): (r: Option<nat>)
    ensures r.Some? ==> r.value < n && PageOutcome(fetch(ScrollPageUrl(r.value))).PageCrashed?
    decreases n
  {
    if n == 0 then None
    else
      match FirstAbort(fetch, n - 1)
      case Some(j) => Some(j)
      case None =>
        match PageOutcome(fetch(ScrollPageUrl(n - 1)))
        case PageOk(_) => None
        case PageCrashed => Some(n - 1)
  }

  /** While no page has aborted, the next page decides. */
  lemma FirstAbortStep(fetch: string -> ScrollResponse, i: nat)
    requires FirstAbort(fetch, i).None?
    ensures FirstAbort(fetch, i + 1) == if PageOutcome(fetch(ScrollPageUrl(i))).PageOk? then None else Some(i)
  {
  }

  /** Once a page has aborted, later pages change nothing. */
  lemma {:induction false} FirstAbortStays(fetch: string -> ScrollResponse, m: nat, n: nat)
    requires m <= n && FirstAbort(fetch, m).Some?
    ensures FirstAbort(fetch, n) == FirstAbort(fetch, m)
    decreases n - m
  {
    if m < n {
      FirstAbortStays(fetch, m, n - 1);
      assert FirstAbort(fetch, n - 1).Some?;
    }
  }

  /** No page before the first aborting one aborts, and when none of pages 0
      to n - 1 aborts, each of them goes through. */
  lemma {:induction false} FirstAbortIsFirst(fetch: string -> ScrollResponse, n: nat, j: nat)
    requires j < n
    ensures FirstAbort(fetch, n).None? ==> PageOutcome(fetch(ScrollPageUrl(j))).PageOk?
    ensures FirstAbort(fetch, n).Some? && j < FirstAbort(fetch, n).value ==> PageOutcome(fetch(ScrollPageUrl(j))).PageOk?
    decreases n
  {
    if j < n - 1 {
      FirstAbortIsFirst(fetch, n - 1, j);
    }
  }

  lemma FetchedStep(fetch: string -> ScrollResponse, i: nat)
    ensures PageOutcome(fetch(ScrollPageUrl(i))).PageOk? ==>
      fetch(ScrollPageUrl(i)).Scroll?
      && Fetched(fetch, i + 1) == Fetched(fetch, i) + PageOutcome(fetch(ScrollPageUrl(i))).records
      && Attempted(fetch, i + 1) == Attempted(fetch, i) + |fetch(ScrollPageUrl(i)).entries|
  {
  }

  datatype RunOutcome = Finished | Crashed

  class SteamCrawler {
    /** Records ready for the consumer, oldest first. */
    var datastream: seq<RawRecord>
    /** Games whose parsing was attempted. */
    var gamesProcessed: int
    /** The total the first response announced. */
    var totalGames: int

    /** Until the first response, one game is expected and none seen, so
        the consumer keeps waiting. */
    constructor ()
      ensures datastream == [] && gamesProcessed == 0 && totalGames == 1
    {
      datastream := [];
      gamesProcessed := 0;
      totalGames := 1;
    }

    /** The page loop of get_games_info: one count per game whatever came
        of its parsing, and the records of the games that parsed. A game
        with a missing element is skipped; see CollectAsWritten for the
        handler as the source writes it. */
    method CollectEntries(entries: seq<Entry>, ids: seq<int>) returns (out: PageResult)
      requires |ids| == |entries|
      modifies this`gamesProcessed
      ensures out == Collect(entries, ids)
      ensures out.PageOk? ==> YieldsParsed(entries, ids, out.records)
      ensures gamesProcessed == old(gamesProcessed) + CountedUpToAbort(entries)
      ensures out.PageOk? ==> gamesProcessed == old(gamesProcessed) + |entries|
      ensures out.PageCrashed? ==>
        var j := gamesProcessed - old(gamesProcessed) - 1;
        0 <= j < |entries| && entries[j].outcome.BadNumber?
        && forall k :: 0 <= k < j ==> !entries[k].outcome.BadNumber?
    {
      var records: seq<RawRecord> := [];
      var i := 0;
      while i < |entries|
        invariant 0 <= i <= |entries|
        invariant Collect(entries[..i], ids[..i]) == PageOk(records)
        invariant gamesProcessed == old(gamesProcessed) + i
        invariant forall k :: 0 <= k < i ==> !entries[k].outcome.BadNumber?
      {
        assert entries[..i + 1][..i] == entries[..i] && ids[..i + 1][..i] == ids[..i];
        gamesProcessed := gamesProcessed + 1;
        if entries[i].outcome.BadNumber? {
          CountedPrefix(entries, i);
          return PageCrashed;
        }
        if entries[i].outcome.Parsed? {
          records := records + [RawRecord(ids[i], entries[i].outcome.main, entries[i].outcome.detail, entries[i].url)];
        }
        i := i + 1;
      }
      assert entries[..i] == entries && ids[..i] == ids;
      CountedPrefix(entries, i);
      CollectYieldsParsed(entries, ids);
      out := PageOk(records);
    }

    /** get_games_info: the page aborts before its loop when the fetch
        or one of its ids fails. */
    method GetGamesInfo(resp: ScrollResponse) returns (out: PageResult)
      modifies this`gamesProcessed
      ensures out == PageOutcome(resp)
      ensures out.PageOk? ==>
        resp.Scroll? && GetGameIds(Urls(resp.entries)).Some?
        && YieldsParsed(resp.entries, GetGameIds(Urls(resp.entries)).value, out.records)
      ensures gamesProcessed == old(gamesProcessed) + Counted(resp)
      ensures out.PageOk? ==> resp.Scroll? && gamesProcessed == old(gamesProcessed) + |resp.entries|
      ensures resp.FetchFailed? || GetGameIds(Urls(resp.entries)).None? ==> gamesProcessed == old(gamesProcessed)
    {
      if resp.FetchFailed? {
        return PageCrashed;
      }
      var maybeIds := GetGameIds(Urls(resp.entries));
      if maybeIds.None? {
        return PageCrashed;
      }
      out := CollectEntries(resp.entries, maybeIds.value);
    }

    /** One iteration of run: page `num` is fetched and, unless it aborts,
        its records are appended to the stream, which holds the records of
        the pages before it after `base`. */
    method FetchPage(fetch: string -> ScrollResponse, num: nat, ghost base: seq<RawRecord>, ghost count: int)
      returns (ok: bool)
      requires datastream == base + Fetched(fetch, num)
      requires gamesProcessed == count + Attempted(fetch, num)
      modifies this`datastream, this`gamesProcessed
      ensures ok ==> datastream == base + Fetched(fetch, num + 1) && gamesProcessed == count + Attempted(fetch, num + 1)
      ensures ok <==> PageOutcome(fetch(ScrollPageUrl(num))).PageOk?
      ensures !ok ==>
        datastream == old(datastream) && gamesProcessed == old(gamesProcessed) + Counted(fetch(ScrollPageUrl(num)))
    {
      var resp := fetch(ScrollPageUrl(num));
      var page := GetGamesInfo(resp);
      ok := page.PageOk?;
      if ok {
        FetchedStep(fetch, num);
        AppendAssoc(base, Fetched(fetch, num), page.records);
        datastream := datastream + page.records;
      }
    }

    /** The loop of run: pages 0 to n - 1 in order, stopping at the first
        that aborts, whose number is returned; the games of the aborted page
        counted before it stopped stay counted. */
    method FetchPages(fetch: string -> ScrollResponse, n: nat) returns (abortedAt: Option<nat>)
      modifies this`datastream, this`gamesProcessed
      ensures abortedAt == FirstAbort(fetch, n)
      ensures abortedAt.None? ==>
        datastream == old(datastream) + Fetched(fetch, n)
        && gamesProcessed == old(gamesProcessed) + Attempted(fetch, n)
      ensures abortedAt.Some? ==>
        abortedAt.value < n && PageOutcome(fetch(ScrollPageUrl(abortedAt.value))).PageCrashed?
        && datastream == old(datastream) + Fetched(fetch, abortedAt.value)
        && gamesProcessed == old(gamesProcessed) + Attempted(fetch, abortedAt.value) + Counted(fetch(ScrollPageUrl(abortedAt.value)))
    {
      for i := 0 to n
        invariant datastream == old(datastream) + Fetched(fetch, i)
        invariant gamesProcessed == old(gamesProcessed) + Attempted(fetch, i)
        invariant FirstAbort(fetch, i).None?
      {
        ghost var stream, count := datastream, gamesProcessed;
        FirstAbortStep(fetch, i);
        var ok := FetchPage(fetch, i, old(datastream), old(gamesProcessed));
        if !ok {
          assert datastream == stream && gamesProcessed == count + Counted(fetch(ScrollPageUrl(i)));
          FirstAbortStays(fetch, i + 1, n);
          return Some(i);
        }

      }
      abortedAt := None;
    }

    /** run: read the total from the first response, then fetch pages 0 to
        total // 50 in order, appending each page's records to the stream.
        A failed start or an aborted page ends the producer. */
    method Run(start: string -> Option<int>, fetch: string -> ScrollResponse) returns (outcome: RunOutcome)
      modifies this`datastream, this`gamesProcessed, this`totalGames
      ensures start(ScrollPageUrl(0)).None? ==>
        (outcome == Crashed && totalGames == old(totalGames)
         && datastream == old(datastream) && gamesProcessed == old(gamesProcessed))
      ensures start(ScrollPageUrl(0)).Some? ==> totalGames == start(ScrollPageUrl(0)).value
      ensures outcome == Finished ==>
        FirstAbort(fetch, PageCount(totalGames)).None?
        && datastream == old(datastream) + Fetched(fetch, PageCount(totalGames))
        && gamesProcessed == old(gamesProcessed) + Attempted(fetch, PageCount(totalGames))
      ensures outcome == Crashed && start(ScrollPageUrl(0)).Some? ==>
        exists j :: 0 <= j < PageCount(totalGames) && PageOutcome(fetch(ScrollPageUrl(j))).PageCrashed?
          && FirstAbort(fetch, PageCount(totalGames)) == Some(j)
          && datastream == old(datastream) + Fetched(fetch, j)
          && gamesProcessed == old(gamesProcessed) + Attempted(fetch, j) + Counted(fetch(ScrollPageUrl(j)))
    {
      StartRequestIsFirstPage();
      var total := start(Replace(ScrollTemplate, "NUM", "0"));
      if total.None? {
        return Crashed;
      }
      totalGames := total.value;
      var abortedAt := FetchPages(fetch, PageCount(totalGames));
      outcome := if abortedAt.None? then Finished else Crashed;
    }
  }
}
