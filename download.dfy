/** `POST /api/download`: validate the request, try the private tracker (MAM) when
    it is configured, otherwise or on its failure fall back to the indexer
    aggregator (Prowlarr), pick the best ebook release and hand its link to
    qBittorrent. Every network call is an outcome supplied from outside. */
module Download {
  import opened Options
  import opened Releases
  import opened Indexers
  import opened Qbit

  datatype DownloadRequest = DownloadRequest(
    title: Option<string>,
    author: Option<string>,
    isbn: Option<string>,
    year: Option<string>)

  /** How the indexer search ends: an error with its message (the search rethrows),
      or a response whose body may be missing. */
  datatype IndexerReply = IndexerFailed(message: string) | IndexerOk(results: Option<seq<Release>>)

  /** The answers of every upstream the handler may reach, in the order it would
      reach them. Answers of calls the handler does not make are ignored. */
  datatype Upstream = Upstream(
    mamSearch: MamReply,        // the MAM search
    mamFetched: bool,           // the fetch of the MAM torrent file succeeded
    mamLogin: LoginOutcome,     // a qBittorrent login on the MAM path
    mamUpload: AddStatus,       // the qBittorrent upload of the MAM torrent file
    indexer: IndexerReply,      // the Prowlarr search
    qbit: seq<Attempt>)         // the passes of the add of the Prowlarr link

  /** The calls the handler makes to the outside, in order. */
  datatype Call = MamSearch(text: string) | MamDownload(hit: MamHit) | IndexerSearch(query: string) | TorrentAdd(link: string)

  datatype Source = Mam | Prowlarr

  datatype Details = MamDetails(hit: MamHit) | IndexerDetails(release: Release)

  /** The JSON reply: a refusal with its HTTP status, a `success: false` reply
      with status 200, a started download, or no reply yet because the add of the
      Prowlarr link is still retrying after a 403 on every supplied pass. */
  datatype Reply =
    | Refused(status: nat, error: string)
    | NotStarted(error: string)
    | Started(source: Source, message: string, details: Details)
    | Pending

  const TitleRequired := "Book title is required"
  const NoResultsFound := "No results found in indexers"
  const NoEbooksFound := "No ebook results found (only audiobooks available)"
  const NoDownloadLink := "No download link available"
  const AddFailedMessage := "Failed to add torrent to qBittorrent"
  const MamStarted := "Download started via MAM"
  const ProwlarrStarted := "Download started successfully"

  datatype Handled = Handled(reply: Reply, calls: seq<Call>, cookie: Option<string>)

  /** The Prowlarr stage, entered with the stored cookie and the calls made so far. */
  function IndexerStage(cookie: Option<string>, title: string, author: Option<string>, up: Upstream, calls: seq<Call>): (h: Handled)
    ensures !(h.reply.Started? && h.reply.source == Mam)
    ensures h.reply.Refused? ==> h.reply.status == 500
    ensures |h.calls| > |calls| && h.calls[..|calls| + 1] == calls + [IndexerSearch(SearchQuery(title, author))]
    ensures forall i :: |calls| < i < |h.calls| ==> h.calls[i].TorrentAdd?
  {
    var searched := calls + [IndexerSearch(SearchQuery(title, author))];
    match up.indexer
    case IndexerFailed(message) => Handled(Refused(500, message), searched, cookie)
    case IndexerOk(results) =>
      match SelectBest(results)
      case NoResults => Handled(NotStarted(NoResultsFound), searched, cookie)
      case NoEbooks => Handled(NotStarted(NoEbooksFound), searched, cookie)
      case Best(best) =>
        match DownloadLink(best)
        case None => Handled(NotStarted(NoDownloadLink), searched, cookie)
        case Some(link) =>
          var run := RunAdd(cookie, link, up.qbit);
          var added := searched + [TorrentAdd(link)];
          match run.outcome
          case Added => Handled(Started(Prowlarr, ProwlarrStarted, IndexerDetails(best)), added, run.cookie)
          case NotAdded => Handled(NotStarted(AddFailedMessage), added, run.cookie)
          case StillRetrying => Handled(Pending, added, run.cookie)
  }

  /** The whole handler, from the stored qBittorrent cookie, the MAM configuration
      flag, the request body and the upstream answers to the reply, the calls
      made and the stored cookie afterwards. */
  function HandleDownload(cookie: Option<string>, mamConfigured: bool, req: DownloadRequest, up: Upstream): (h: Handled)
    ensures h.calls == [] <==> !Truthy(req.title)
    ensures h.reply.Refused? && h.reply.status == 400 <==> !Truthy(req.title)
  {
    if !Truthy(req.title) then Handled(Refused(400, TitleRequired), [], cookie)
    else
      var title := req.title.value;
      if !mamConfigured then IndexerStage(cookie, title, req.author, up, [])
      else
        match SearchMam(true, up.mamSearch)
        case None => IndexerStage(cookie, title, req.author, up, [MamSearch(title)])
        case Some(hit) =>
          var calls := [MamSearch(title), MamDownload(hit)];
          var cookie' := CookieAfterUpload(cookie, up.mamFetched, up.mamLogin);
          if up.mamFetched && up.mamUpload == AddAccepted then
            Handled(Started(Mam, MamStarted, MamDetails(hit)), calls, cookie')
          else IndexerStage(cookie', title, req.author, up, calls)
  }

  /** A request without a title is refused with 400 before any call is made. */
  lemma MissingTitle(cookie: Option<string>, mamConfigured: bool, req: DownloadRequest, up: Upstream)
    requires !Truthy(req.title)
    ensures HandleDownload(cookie, mamConfigured, req, up) == Handled(Refused(400, TitleRequired), [], cookie)
  {
  }

  /** The download starts via MAM exactly when MAM is configured, its search
      returns a hit and both the torrent fetch and the upload succeed; MAM is
      never contacted when it is not configured. */
  lemma MamPath(cookie: Option<string>, mamConfigured: bool, req: DownloadRequest, up: Upstream)
    ensures var h := HandleDownload(cookie, mamConfigured, req, up);
      && (h.reply.Started? && h.reply.source == Mam <==>
            Truthy(req.title) && mamConfigured && SearchMam(true, up.mamSearch).Some? && up.mamFetched && up.mamUpload == AddAccepted)
      && (!mamConfigured ==> forall c :: c in h.calls ==> !c.MamSearch? && !c.MamDownload?)
  {
    var h := HandleDownload(cookie, mamConfigured, req, up);
    if !mamConfigured && Truthy(req.title) {
      forall c | c in h.calls ensures !c.MamSearch? && !c.MamDownload? {
        var i :| 0 <= i < |h.calls| && h.calls[i] == c;
        if i == 0 {
          assert h.calls[..1][0] == c;
        }
      }
    }
  }

  /** Whenever the download does not start via MAM, the handler goes on to search
      Prowlarr with the title and, when usable, the author. */
  lemma FallsBackToIndexer(cookie: Option<string>, mamConfigured: bool, req: DownloadRequest, up: Upstream)
    requires Truthy(req.title)
    requires !(mamConfigured && SearchMam(true, up.mamSearch).Some? && up.mamFetched && up.mamUpload == AddAccepted)
    ensures IndexerSearch(SearchQuery(req.title.value, req.author)) in HandleDownload(cookie, mamConfigured, req, up).calls
    ensures HandleDownload(cookie, mamConfigured, req, up) ==
            IndexerStage(
              if mamConfigured && SearchMam(true, up.mamSearch).Some?
              then CookieAfterUpload(cookie, up.mamFetched, up.mamLogin) else cookie,
              req.title.value, req.author, up,
              if !mamConfigured then []
              else if SearchMam(true, up.mamSearch).None? then [MamSearch(req.title.value)]
              else [MamSearch(req.title.value), MamDownload(SearchMam(true, up.mamSearch).value)])
  {
    var title := req.title.value;
    var query := IndexerSearch(SearchQuery(title, req.author));
    var prior := if !mamConfigured then []
                 else if SearchMam(true, up.mamSearch).None? then [MamSearch(title)]
                 else [MamSearch(title), MamDownload(SearchMam(true, up.mamSearch).value)];
    var start := if mamConfigured && SearchMam(true, up.mamSearch).Some? then CookieAfterUpload(cookie, up.mamFetched, up.mamLogin) else cookie;
    var h := IndexerStage(start, title, req.author, up, prior);
    assert HandleDownload(cookie, mamConfigured, req, up) == h;
    assert h.calls[..|prior| + 1][|prior|] == query;
  }

  /** What the Prowlarr stage replies: 500 with the message of a failed search;
      "No results found in indexers" for an absent or empty result list; the
      distinct "only audiobooks" error when results exist but none is a usable
      ebook; "No download link available" with no add attempted; and
      "Failed to add torrent to qBittorrent" only after an add that failed. The
      last two are corollaries of `IndexerLinkOutcome`, stated here from the reply. */
  lemma IndexerOutcome(cookie: Option<string>, title: string, author: Option<string>, up: Upstream, calls: seq<Call>)
    ensures var h := IndexerStage(cookie, title, author, up, calls);
      && (up.indexer.IndexerFailed? ==> h.reply == Refused(500, up.indexer.message))
      && (up.indexer.IndexerOk? && (up.indexer.results.None? || up.indexer.results.value == []) ==>
            h.reply == NotStarted(NoResultsFound))
      && (up.indexer.IndexerOk? && up.indexer.results.Some? && up.indexer.results.value != [] &&
          (forall r :: r in up.indexer.results.value ==> !IsEbookRelease(r)) ==>
            h.reply == NotStarted(NoEbooksFound))
      && (h.reply == NotStarted(NoDownloadLink) ==> h.cookie == cookie && forall c :: c in h.calls ==> c in calls || c.IndexerSearch?)
      && (h.reply == NotStarted(AddFailedMessage) ==>
            exists link :: TorrentAdd(link) in h.calls && RunAdd(cookie, link, up.qbit).outcome == NotAdded)
  {
    var h := IndexerStage(cookie, title, author, up, calls);
    if up.indexer.IndexerOk? {
      var sel := SelectBest(up.indexer.results);
      if sel.Best? {
        match DownloadLink(sel.release)
        case None =>
        case Some(link) =>
          assert h.calls[|h.calls| - 1] == TorrentAdd(link);
      }
    }
  }

  /** A Prowlarr start adds the link of an ebook release from the results that
      no other usable result outranks. */
  lemma IndexerStartPick(cookie: Option<string>, title: string, author: Option<string>, up: Upstream, calls: seq<Call>)
    ensures var h := IndexerStage(cookie, title, author, up, calls);
      h.reply.Started? ==>
        && up.indexer.IndexerOk? && up.indexer.results.Some?
        && var best := h.reply.details.release;
        && best in up.indexer.results.value && IsEbookRelease(best)
        && (forall q :: q in up.indexer.results.value && IsEbookRelease(q) ==> Compare(best, q) <= 0)
        && DownloadLink(best).Some?
        && h.calls == calls + [IndexerSearch(SearchQuery(title, author)), TorrentAdd(DownloadLink(best).value)]
        && RunAdd(cookie, DownloadLink(best).value, up.qbit).outcome == Added
  {
    if up.indexer.IndexerOk? && SelectBest(up.indexer.results).Best? {
      var best := SelectBest(up.indexer.results).release;
      assert up.indexer.results == Some(up.indexer.results.value);
      BestIsFirst(up.indexer.results.value);
      IndexerLinkOutcome(cookie, title, author, up, calls, best);
    }
  }

  /** Once a best release is picked: without a link the reply is "No download
      link available" and no add is attempted; with one, its link is added, and
      the reply is a start, "Failed to add torrent to qBittorrent" or still
      pending exactly as the add ends, which also decides the cookie left behind. */
  lemma IndexerLinkOutcome(cookie: Option<string>, title: string, author: Option<string>, up: Upstream, calls: seq<Call>, best: Release)
    requires up.indexer.IndexerOk? && SelectBest(up.indexer.results) == Best(best)
    ensures var h := IndexerStage(cookie, title, author, up, calls);
      var searched := calls + [IndexerSearch(SearchQuery(title, author))];
      && (DownloadLink(best).None? ==> h == Handled(NotStarted(NoDownloadLink), searched, cookie))
      && (DownloadLink(best).Some? ==>
            var run := RunAdd(cookie, DownloadLink(best).value, up.qbit);
            && h.calls == searched + [TorrentAdd(DownloadLink(best).value)]
            && h.cookie == run.cookie
            && (h.reply == Started(Prowlarr, ProwlarrStarted, IndexerDetails(best)) <==> run.outcome == Added)
            && (h.reply == NotStarted(AddFailedMessage) <==> run.outcome == NotAdded)
            && (h.reply == Pending <==> run.outcome == StillRetrying))
  {
    var searched := calls + [IndexerSearch(SearchQuery(title, author))];
    var h := IndexerStage(cookie, title, author, up, calls);
    if DownloadLink(best).Some? {
      var link := DownloadLink(best).value;
      var run := RunAdd(cookie, link, up.qbit);
      var added := searched + [TorrentAdd(link)];
      match run.outcome
      case Added => assert h == Handled(Started(Prowlarr, ProwlarrStarted, IndexerDetails(best)), added, run.cookie);
      case NotAdded => assert h == Handled(NotStarted(AddFailedMessage), added, run.cookie);
      case StillRetrying => assert h == Handled(Pending, added, run.cookie);
    }
  }

  /** The server process: its MAM configuration and its qBittorrent session. */
  class Server {
    const mamConfigured: bool
    const session: Session

    constructor (mamConfigured: bool)
      ensures this.mamConfigured == mamConfigured
      ensures fresh(session) && session.cookie == None
    {
      this.mamConfigured := mamConfigured;
      session := new Session();
    }

    /** The `/api/download` handler, step by step with its early returns. */
    method Download(req: DownloadRequest, up: Upstream) returns (reply: Reply, calls: seq<Call>)
      modifies session
      ensures HandleDownload(old(session.cookie), mamConfigured, req, up) == Handled(reply, calls, session.cookie)
    {
      calls := [];
      if !Truthy(req.title) {
        return Refused(400, TitleRequired), calls;
      }
      var title := req.title.value;
      ghost var start := session.cookie;

      if mamConfigured {
        calls := [MamSearch(title)];
        var hit := SearchMam(mamConfigured, up.mamSearch);
        if hit.Some? {
          calls := calls + [MamDownload(hit.value)];
          var downloaded := session.DownloadFromMam(up.mamFetched, up.mamLogin, up.mamUpload);
          if downloaded {
            return Started(Mam, MamStarted, MamDetails(hit.value)), calls;
          }
          assert SearchMam(true, up.mamSearch) == hit;
          assert calls == [MamSearch(title), MamDownload(hit.value)];
          assert session.cookie == CookieAfterUpload(start, up.mamFetched, up.mamLogin);
          assert !(up.mamFetched && up.mamUpload == AddAccepted);
          assert HandleDownload(start, mamConfigured, req, up) == IndexerStage(session.cookie, title, req.author, up, calls);
        } else {
          assert HandleDownload(start, mamConfigured, req, up) == IndexerStage(session.cookie, title, req.author, up, calls);
        }
      } else {
        assert HandleDownload(start, mamConfigured, req, up) == IndexerStage(session.cookie, title, req.author, up, calls);
      }

      reply, calls := FallBack(title, req.author, up, calls);
    }

    /** The Prowlarr part of the handler, entered with the calls made so far. */
    method FallBack(title: string, author: Option<string>, up: Upstream, calls0: seq<Call>) returns (reply: Reply, calls: seq<Call>)
      modifies session
      ensures IndexerStage(old(session.cookie), title, author, up, calls0) == Handled(reply, calls, session.cookie)
    {
      calls := calls0 + [IndexerSearch(SearchQuery(title, author))];
      if up.indexer.IndexerFailed? {
        return Refused(500, up.indexer.message), calls;
      }
      var results := up.indexer.results;
      if results.None? || |results.value| == 0 {
        return NotStarted(NoResultsFound), calls;
      }

      var sorted := RankedEbooks(results.value);
      if |sorted| == 0 {
        return NotStarted(NoEbooksFound), calls;
      }
      var best := sorted[0];
      assert SelectBest(results) == Best(best);

      var link := DownloadLink(best);
      if link.None? {
        return NotStarted(NoDownloadLink), calls;
      }

      calls := calls + [TorrentAdd(link.value)];
      var added, _ := session.AddTorrent(link.value, up.qbit);
      if added == StillRetrying {
        return Pending, calls;
      }
      if added == NotAdded {
        return NotStarted(AddFailedMessage), calls;
      }
      reply := Started(Prowlarr, ProwlarrStarted, IndexerDetails(best));
    }
  }
}
