/**
 The insight pages of an ad account (campaign-reports.service.ts): single pages and the CSV export
 share one cache, whose entries may expire at any moment.
 */
module InsightsExport {
  import opened Prelude
  import opened CacheKey

  /** What the thumbnail enrichment adds to a row. */
  datatype Creative = Creative(thumbnailUrl: string, imageUrl: string, permalinkUrl: string)

  datatype Row = Row(adId: string, metrics: string, creative: Option<Creative>)

  datatype Page = Page(rows: seq<Row>, next: Option<string>)

  /** The page Meta gives for a request. */
  type Upstream = Request -> Page

  /** It does not depend on the order or spacing of the breakdowns, and knows nothing of thumbnails. */
  ghost predicate Respects(up: Upstream) {
    && (forall r, q :: Agree(r, q) ==> up(r) == up(q))
    && (forall r :: up(r) == up(r.(thumbnails := false)))
  }

  // ---------- Thumbnails ----------

  /** Adds the creatives that were found; nothing when fetching them failed. */
  function Enrich(rows: seq<Row>, creatives: Option<map<string, Creative>>): seq<Row> {
    match creatives
    case None => rows
    case Some(found) =>
      seq(|rows|, i requires 0 <= i < |rows| =>
        if rows[i].adId != "" && rows[i].adId in found
        then rows[i].(creative := Some(found[rows[i].adId])) else rows[i])
  }

  function Bare(rows: seq<Row>): seq<Row> {
    seq(|rows|, i requires 0 <= i < |rows| => rows[i].(creative := None))
  }

  lemma EnrichKeepsTheRest(rows: seq<Row>, creatives: Option<map<string, Creative>>)
    ensures Bare(Enrich(rows, creatives)) == Bare(rows)
  {
  }

  /** A row gets the creative that was found for its ad, and only then is it changed. */
  lemma EnrichAt(rows: seq<Row>, creatives: Option<map<string, Creative>>, i: nat)
    requires i < |rows|
    ensures var r := Enrich(rows, creatives);
      && |r| == |rows|
      && (creatives.Some? && rows[i].adId != "" && rows[i].adId in creatives.value ==>
          r[i].creative == Some(creatives.value[rows[i].adId]))
      && (!(creatives.Some? && rows[i].adId != "" && rows[i].adId in creatives.value) ==> r[i] == rows[i])
  {
  }

  // ---------- The cache ----------

  /** `page` is what request `r` should get. With thumbnails the creatives may differ: they are best effort. */
  ghost predicate Serves(up: Upstream, page: Page, r: Request) {
    if r.thumbnails
    then page.next == up(r).next && Bare(page.rows) == Bare(up(r).rows)
    else page == up(r)
  }

  /** The cache holds for every request of `used` only what it should get. */
  ghost predicate CacheServes(up: Upstream, cache: map<string, Page>, used: iset<Request>) {
    forall r :: r in used && Key(r) in cache ==> Serves(up, cache[Key(r)], r)
  }

  /** Requests that share a key ask the same. */
  ghost predicate Apart(used: iset<Request>) {
    forall r, q :: r in used && q in used && Key(r) == Key(q) ==> Agree(r, q)
  }

  /** It is so exactly when the breakdown text or account of none of them blurs into the rest of another's key. */
  lemma ApartIff(used: iset<Request>)
    requires forall r :: r in used ==> Framed(r)
    ensures Apart(used) <==> forall r, q :: r in used && q in used ==> !Blurs(r, q)
  {
    hide Key, Agree, Blurs, Framed;
    forall r, q | r in used && q in used
      ensures Key(r) == Key(q) <==> Agree(r, q) || Blurs(r, q) || Blurs(q, r)
      ensures !(Agree(r, q) && Blurs(r, q))
    {
      KeysMeetIff(r, q);
      BlurringDisagrees(r, q);
    }
    if Apart(used) {
      forall r, q | r in used && q in used
        ensures !Blurs(r, q)
      {
        assert Key(r) == Key(q) ==> Agree(r, q);
      }
    }
  }

  lemma BlurringDisagrees(r: Request, q: Request)
    ensures !(Agree(r, q) && Blurs(r, q))
  {
    hide SortedTokens, Tokens, AfterAccount;
    if Truthy(r.breakdowns).Some? && Truthy(q.breakdowns).Some? {
      SortedTokensIff(r.breakdowns.value, q.breakdowns.value);
    }
  }

  predicate SameButThumbnails(r: Request, q: Request) {
    Agree(r.(thumbnails := false), q.(thumbnails := false))
  }

  /**
   Being apart is needed: where two requests that ask different things share a key, the page of one is
   wrong for the other.
   */
  lemma SharedKeyMisleads(r: Request, q: Request) returns (up: Upstream)
    requires Framed(r) && Framed(q) && Key(r) == Key(q) && !Agree(r, q)
    ensures Respects(up) && !Serves(up, up(r), q)
  {
    hide Key, SortedTokens, Tokens, Framed, Blurs;
    KeysMeetIff(r, q);
    if Blurs(r, q) { BlurringDiffers(r, q); } else { BlurringDiffers(q, r); }
    up := (x: Request) => if SameButThumbnails(x, r) then Page([], None) else Page([], Some("more"));
  }

  lemma BlurringDiffers(r: Request, q: Request)
    requires Blurs(r, q)
    ensures !SameButThumbnails(r, q) && !SameButThumbnails(q, r)
  {
    hide SortedTokens, Tokens, AfterAccount;
    if Truthy(r.breakdowns).Some? && Truthy(q.breakdowns).Some? {
      SortedTokensIff(r.breakdowns.value, q.breakdowns.value);
    }
  }

  /** Requests with the documented accounts and breakdowns are apart. */
  lemma PlainRequestsApart()
    ensures Apart(iset r: Request | WellFormed(r))
  {
    hide Key, Agree, WellFormed;
    forall r, q | WellFormed(r) && WellFormed(q) && Key(r) == Key(q)
      ensures Agree(r, q)
    {
      PlainKeysMeetIff(r, q);
    }
  }

  lemma StoringKeepsServing(up: Upstream, cache: map<string, Page>, used: iset<Request>, r: Request, page: Page)
    requires Respects(up) && Apart(used) && CacheServes(up, cache, used) && r in used && Serves(up, page, r)
    ensures CacheServes(up, cache[Key(r) := page], used)
  {
    hide Key;
    forall q | q in used && Key(q) in cache[Key(r) := page]
      ensures Serves(up, cache[Key(r) := page][Key(q)], q)
    {
      if Key(q) == Key(r) {
        assert Agree(q, r);
        assert up(q) == up(r);
      }
    }
  }

  // ---------- The pages of an export ----------

  /** At most `limit` pages, following the cursors, with no cache. */
  function Walk(up: Upstream, r: Request, cursor: Option<string>, limit: nat): (pages: seq<Page>)
    ensures |pages| <= limit
    decreases limit
  {
    if limit == 0 then []
    else
      var page := up(r.(cursor := cursor));
      [page] + if Truthy(page.next).Some? then Walk(up, r, page.next, limit - 1) else []
  }

  function Rows(pages: seq<Page>): seq<Row> {
    if pages == [] then [] else pages[0].rows + Rows(pages[1..])
  }

  function CursorAt(pages: seq<Page>, i: nat, cursor: Option<string>): Option<string>
    requires i <= |pages|
  {
    if i == 0 then cursor else pages[i - 1].next
  }

  /**
   Each page is the upstream page at the cursor of the one before, and only a page without one ends the
   list early.
   */
  ghost predicate FollowsCursors(up: Upstream, r: Request, cursor: Option<string>, limit: nat, pages: seq<Page>) {
    && 1 <= |pages| <= limit
    && (forall i :: 0 <= i < |pages| ==> pages[i] == up(r.(cursor := CursorAt(pages, i, cursor))))
    && (forall i :: 0 <= i < |pages| - 1 ==> Truthy(pages[i].next).Some?)
    && (|pages| < limit ==> Truthy(pages[|pages| - 1].next).None?)
  }

  lemma {:induction false} WalkFollowsCursors(up: Upstream, r: Request, cursor: Option<string>, limit: nat)
    requires limit >= 1
    ensures FollowsCursors(up, r, cursor, limit, Walk(up, r, cursor, limit))
    decreases limit
  {
    hide Truthy, FollowsCursors;
    var page := up(r.(cursor := cursor));
    if Truthy(page.next).Some? && limit > 1 {
      var rest := Walk(up, r, page.next, limit - 1);
      WalkFollowsCursors(up, r, page.next, limit - 1);
      OnePageMore(up, r, cursor, limit, rest);
    } else {
      OnePage(up, r, cursor, limit);
      assert Walk(up, r, cursor, limit) == [page];
    }
  }

  lemma OnePage(up: Upstream, r: Request, cursor: Option<string>, limit: nat)
    requires limit >= 1 && (limit == 1 || Truthy(up(r.(cursor := cursor)).next).None?)
    ensures FollowsCursors(up, r, cursor, limit, [up(r.(cursor := cursor))])
  {
    hide Truthy;
  }

  lemma OnePageMore(up: Upstream, r: Request, cursor: Option<string>, limit: nat, rest: seq<Page>)
    requires limit > 1 && Truthy(up(r.(cursor := cursor)).next).Some?
    requires FollowsCursors(up, r, up(r.(cursor := cursor)).next, limit - 1, rest)
    ensures FollowsCursors(up, r, cursor, limit, [up(r.(cursor := cursor))] + rest)
  {
    hide Truthy, CursorAt;
    var page := up(r.(cursor := cursor));
    var pages := [page] + rest;
    forall i | 0 <= i < |pages|
      ensures pages[i] == up(r.(cursor := CursorAt(pages, i, cursor)))
      ensures i < |pages| - 1 ==> Truthy(pages[i].next).Some?
    {
      CursorShift(page, rest, i, cursor);
      assert i > 0 ==> pages[i] == rest[i - 1];
    }
    assert pages[|pages| - 1] == rest[|rest| - 1];
  }

  lemma CursorShift(page: Page, rest: seq<Page>, i: nat, cursor: Option<string>)
    requires i <= |rest|
    ensures CursorAt([page] + rest, i, cursor) == if i == 0 then cursor else CursorAt(rest, i - 1, page.next)
  {
  }

  /** A larger limit only adds pages at the end: the walk is the first pages of the complete one. */
  lemma {:induction false} WalkIsPrefix(up: Upstream, r: Request, cursor: Option<string>, limit: nat, larger: nat)
    requires limit <= larger
    ensures var all := Walk(up, r, cursor, larger);
      Walk(up, r, cursor, limit) == all[..if |all| < limit then |all| else limit]
    decreases limit
  {
    var page := up(r.(cursor := cursor));
    if limit > 0 && Truthy(page.next).Some? {
      WalkIsPrefix(up, r, page.next, limit - 1, larger - 1);
    }
  }

  // ---------- The service ----------

  const MAX_EXPORT_PAGES := 1000

  datatype Query = Query(
    account: string, datePreset: Option<string>, since: Option<string>, until: Option<string>,
    level: Option<string>, timeIncrement: Option<string>, breakdowns: Option<string>,
    includeThumbnails: Option<bool>, cursor: Option<string>)

  /** What the account lookup finds. */
  datatype Account = Unknown | Inactive | Active

  datatype Error = BadRequest | NotFound | InactiveAccount | UpstreamFailed

  predicate Rejected(q: Query) {
    || (Truthy(q.datePreset).Some? && (Truthy(q.since).Some? || Truthy(q.until).Some?))
    || Truthy(q.since).Some? != Truthy(q.until).Some?
    || (q.includeThumbnails.GetOr(false) && q.level.GetOr("campaign") != "ad")
  }

  function PeriodOf(q: Query): Period {
    if Truthy(q.since).Some? && Truthy(q.until).Some? then Range(q.since.value, q.until.value)
    else Preset(q.datePreset.GetOr("last_30d"))
  }

  function RequestOf(q: Query): Request {
    Request(q.account, q.level.GetOr("campaign"), PeriodOf(q), q.timeIncrement, q.breakdowns,
            q.includeThumbnails.GetOr(false), q.cursor)
  }

  /** An export starts at the first page and its pages carry no thumbnails. */
  function ExportOf(q: Query): Request {
    RequestOf(q).(thumbnails := false, cursor := None)
  }

  /** Both ends of a range are given. */
  predicate GivesRange(q: Query) {
    q.since.Some? && q.until.Some? && q.since.value != "" && q.until.value != ""
  }

  /** What a query asks for, field by field, but for thumbnails and cursor. */
  predicate Asks(q: Query, r: Request) {
    && r.account == q.account
    && (q.level.Some? ==> r.level == q.level.value)
    && (q.level.None? ==> r.level == "campaign")
    && (GivesRange(q) ==> r.period == Range(q.since.value, q.until.value))
    && (!GivesRange(q) && q.datePreset.Some? ==> r.period == Preset(q.datePreset.value))
    && (!GivesRange(q) && q.datePreset.None? ==> r.period == Preset("last_30d"))
    && r.timeIncrement == q.timeIncrement && r.breakdowns == q.breakdowns
  }

  predicate AsksPage(q: Query, r: Request) {
    Asks(q, r) && r.cursor == q.cursor && (r.thumbnails <==> q.includeThumbnails == Some(true))
  }

  /** The request of a query is the one that asks for what the query says. */
  lemma RequestIs(q: Query, r: Request)
    ensures r == RequestOf(q) <==> AsksPage(q, r)
    ensures r == ExportOf(q) <==> Asks(q, r) && !r.thumbnails && r.cursor == None
  {
  }

  /**
   A query is accepted with a whole range and no preset, or with no end of a range; and with thumbnails
   only for ads.
   */
  lemma AcceptedIff(q: Query)
    ensures !Rejected(q) <==>
      && ((GivesRange(q) && (q.datePreset == None || q.datePreset == Some("")))
          || ((q.since == None || q.since == Some("")) && (q.until == None || q.until == Some(""))))
      && (q.includeThumbnails == Some(true) ==> q.level == Some("ad"))
  {
  }

  /** The key of a query says what the query says: before the breakdowns always, and all of it if they are plain. */
  lemma KeySaysQuery(q: Query)
    requires Framed(RequestOf(q))
    ensures var r := RequestOf(q); var head := ReadHead(AfterAccount(r)[1..]);
      && Key(r) == "meta:insights:" + (q.account + AfterAccount(r))
      && head.level == q.level.GetOr("campaign")
      && (GivesRange(q) ==> head.period == Range(q.since.value, q.until.value))
      && (!GivesRange(q) ==> head.period == Preset(q.datePreset.GetOr("last_30d")))
      && head.timeIncrement == Truthy(q.timeIncrement)
    ensures WellFormed(RequestOf(q)) ==>
      && "meta:insights:" <= Key(RequestOf(q))
      && var said := Read(Key(RequestOf(q)));
         && said.account == q.account && said.thumbnails == (q.includeThumbnails == Some(true))
         && (GivesRange(q) ==> said.period == Range(q.since.value, q.until.value))
         && said.cursor == Truthy(q.cursor) && said.breakdowns.Some? == Truthy(q.breakdowns).Some?
         && (said.breakdowns.Some? ==> said.breakdowns.value == SortedTokens(q.breakdowns.value))
  {
    hide Key, ReadHead, Read, AfterAccount, SortedTokens, Framed, WellFormed;
    var r := RequestOf(q);
    KeyShape(r);
    HeadReadsBack(r);
    PlainIsFramed(r);
    if WellFormed(r) {
      KeyReadsBack(r);
    }
  }

  lemma PlainIsFramed(r: Request)
    ensures WellFormed(r) ==> Framed(r)
  {
  }

  /** The rows of an export with no cache: its first 1000 pages in order, with thumbnails added at the end. */
  function Exported(up: Upstream, q: Query, creatives: Option<map<string, Creative>>): seq<Row> {
    var rows := Rows(ExportPages(up, q));
    if q.includeThumbnails.GetOr(false) then Enrich(rows, creatives) else rows
  }

  /**
   They are the rows, in order, of the first pages of what the query asks for, 1000 at most and all of
   them if there are fewer.
   */
  lemma ExportedIs(up: Upstream, q: Query, creatives: Option<map<string, Creative>>)
    returns (r: Request, pages: seq<Page>)
    ensures Asks(q, r) && !r.thumbnails && FollowsCursors(up, r, None, 1000, pages)
    ensures Exported(up, q, creatives)
      == if q.includeThumbnails == Some(true) then Enrich(Rows(pages), creatives) else Rows(pages)
  {
    hide Walk, Rows, Enrich, FollowsCursors;
    r := ExportOf(q);
    RequestIs(q, r);
    pages := ExportPages(up, q);
    WalkFollowsCursors(up, r, None, MAX_EXPORT_PAGES);
  }

  lemma {:induction false} RowsOfBoth(a: seq<Page>, b: seq<Page>)
    ensures Rows(a + b) == Rows(a) + Rows(b)
    ensures |a| == 1 ==> Rows(a) == a[0].rows
  {
    if a == [] {
      assert a + b == b;
    } else {
      RowsOfBoth(a[1..], b);
      assert (a + b)[1..] == a[1..] + b;
    }
  }

  /** The request for page `i` of an export. */
  function PageRequest(up: Upstream, q: Query, i: nat): Request
    requires i <= |ExportPages(up, q)|
  {
    ExportOf(q).(cursor := CursorAt(ExportPages(up, q), i, None))
  }

  function ExportPages(up: Upstream, q: Query): seq<Page> {
    Walk(up, ExportOf(q), None, MAX_EXPORT_PAGES)
  }

  /** What the cache holds when page `i` of an export is asked for, `keys` having been there at the start. */
  function KeysAt(up: Upstream, q: Query, keys: set<string>, gone: nat -> set<string>, i: nat): set<string>
    requires i <= |ExportPages(up, q)|
  {
    if i == 0 then keys else KeysAt(up, q, keys, gone, i - 1) - gone(i - 1) + {Key(PageRequest(up, q, i - 1))}
  }

  /** Page `i` cannot be had: it has vanished from the cache or was never there, and Meta does not answer. */
  predicate Missing(up: Upstream, q: Query, keys: set<string>, gone: nat -> set<string>, online: nat -> bool, i: nat)
    requires i < |ExportPages(up, q)|
  {
    !online(i) && Key(PageRequest(up, q, i)) !in KeysAt(up, q, keys, gone, i) - gone(i)
  }

  lemma NoKeysYet(up: Upstream, q: Query, keys: set<string>, gone: nat -> set<string>)
    ensures KeysAt(up, q, keys, gone, 0) == keys
  {
  }

  lemma KeysNext(up: Upstream, q: Query, keys: set<string>, gone: nat -> set<string>, online: nat -> bool, i: nat)
    requires i < |ExportPages(up, q)|
    ensures KeysAt(up, q, keys, gone, i + 1) == KeysAt(up, q, keys, gone, i) - gone(i) + {Key(PageRequest(up, q, i))}
    ensures Missing(up, q, keys, gone, online, i)
      == (!online(i) && Key(PageRequest(up, q, i)) !in KeysAt(up, q, keys, gone, i) - gone(i))
  {
  }

  /** An entry is there that was there from the start or came with an earlier page, and has not vanished since. */
  lemma {:induction false} KeysAtIff(up: Upstream, q: Query, keys: set<string>, gone: nat -> set<string>,
                                     i: nat, key: string)
    requires i <= |ExportPages(up, q)|
    ensures key in KeysAt(up, q, keys, gone, i) <==>
      || (key in keys && forall m :: 0 <= m < i ==> key !in gone(m))
      || (exists j :: 0 <= j < i && Key(PageRequest(up, q, j)) == key && forall m :: j < m < i ==> key !in gone(m))
  {
    hide PageRequest, Key, ExportPages;
    if i > 0 {
      KeysAtIff(up, q, keys, gone, i - 1, key);
      assert Key(PageRequest(up, q, i - 1)) == key ==> key in KeysAt(up, q, keys, gone, i);
    }
  }

  /** `used`: the requests this cache is asked for; no two of them that ask different things share a key. */
  class CampaignReports {
    const up: Upstream
    ghost const used: iset<Request>
    var cache: map<string, Page>

    ghost predicate Valid()
      reads this
    {
      Respects(up) && Apart(used) && CacheServes(up, cache, used)
    }

    constructor (up: Upstream, ghost used: iset<Request>)
      requires Respects(up) && Apart(used)
      ensures Valid() && this.up == up && this.used == used && cache == map[]
    {
      this.up := up;
      this.used := used;
      cache := map[];
    }

    /** Any entries may be `gone` by the time the cache is read. */
    method Lookup(key: string, gone: set<string>) returns (page: Option<Page>)
      requires Valid()
      modifies this
      ensures Valid() && cache == old(cache) - gone
      ensures page == if key in cache then Some(cache[key]) else None
    {
      cache := cache - gone;
      page := if key in cache then Some(cache[key]) else None;
    }

    method Fetch(r: Request, online: bool) returns (page: Result<Page, Error>)
      ensures page == if online then Ok(up(r)) else Err(UpstreamFailed)
    {
      page := if online then Ok(up(r)) else Err(UpstreamFailed);
    }

    /** One page of an export, from the cache or from Meta. */
    method ExportPage(r: Request, online: bool, gone: set<string>) returns (page: Result<Page, Error>)
      requires Valid() && r in used && !r.thumbnails
      modifies this
      ensures Valid() && (page.Ok? ==> cache.Keys == old(cache).Keys - gone + {Key(r)})
      ensures page == if Key(r) in old(cache) - gone || online then Ok(up(r)) else Err(UpstreamFailed)
    {
      hide Key;
      var cached := Lookup(Key(r), gone);
      if cached.Some? {
        return Ok(cached.value);
      }
      page := Fetch(r, online);
      if page.Ok? {
        StoringKeepsServing(up, cache, used, r, page.value);
        cache := cache[Key(r) := page.value];
      }
    }

    /**
     `online`: Meta answers; `creatives`: what the thumbnail fetch finds. A page in the cache is served
     without a look at the account.
     */
    method GetInsights(q: Query, account: Account, online: bool, creatives: Option<map<string, Creative>>,
                       gone: set<string>)
      returns (result: Result<Page, Error>)
      requires Valid() && RequestOf(q) in used
      modifies this
      ensures Valid()
      ensures result.Ok? ==> exists r :: AsksPage(q, r) && Serves(up, result.value, r)
      ensures var key := Key(RequestOf(q)); var left := old(cache) - gone; var miss := key !in left;
        && (result == Err(BadRequest) <==> Rejected(q))
        && (result == Err(NotFound) <==> !Rejected(q) && miss && account == Unknown)
        && (result == Err(InactiveAccount) <==> !Rejected(q) && miss && account == Inactive)
        && (result == Err(UpstreamFailed) <==> !Rejected(q) && miss && account == Active && !online)
        && (!Rejected(q) && !miss ==> result == Ok(left[key]) && cache == left)
        && (!Rejected(q) && miss && result.Ok? ==> cache == left[key := result.value])
    {
      hide Key;
      if Rejected(q) {
        return Err(BadRequest);
      }
      var r := RequestOf(q);
      RequestIs(q, r);
      var cached := Lookup(Key(r), gone);
      if cached.Some? {
        return Ok(cached.value);
      }
      if account == Unknown {
        return Err(NotFound);
      }
      if account == Inactive {
        return Err(InactiveAccount);
      }
      var fetched := Fetch(r, online);
      if fetched.Err? {
        return fetched;
      }
      var rows := if r.thumbnails then Enrich(fetched.value.rows, creatives) else fetched.value.rows;
      EnrichKeepsTheRest(fetched.value.rows, creatives);
      var page := Page(rows, fetched.value.next);
      StoringKeepsServing(up, cache, used, r, page);
      cache := cache[Key(r) := page];
      result := Ok(page);
    }

    /**
     `online(i)`, `gone(i)`: Meta answers, and what has vanished, when page `i` is asked for. An export
     fails exactly when one of its pages is missing then.
     */
    method ExportInsights(q: Query, account: Account, online: nat -> bool, creatives: Option<map<string, Creative>>,
                          gone: nat -> set<string>)
      returns (result: Result<seq<Row>, Error>)
      requires Valid() && forall cursor :: ExportOf(q).(cursor := cursor) in used
      modifies this
      ensures Valid()
      ensures result.Ok? ==> result.value == Exported(up, q, creatives)
      ensures result.Ok? ==> exists r, pages ::
        && Asks(q, r) && !r.thumbnails && FollowsCursors(up, r, None, 1000, pages)
        && Bare(result.value) == Bare(Rows(pages))
        && (q.includeThumbnails != Some(true) ==> result.value == Rows(pages))
      ensures result == Err(BadRequest) <==> Rejected(q)
      ensures result == Err(NotFound) <==> !Rejected(q) && account == Unknown
      ensures result == Err(InactiveAccount) <==> !Rejected(q) && account == Inactive
      ensures result == Err(UpstreamFailed) <==>
        && !Rejected(q) && account == Active
        && exists i :: 0 <= i < |ExportPages(up, q)| && Missing(up, q, old(cache).Keys, gone, online, i)
    {
      hide Key, Walk, Rows, Enrich, Bare, Asks, FollowsCursors, Truthy, Respects, CacheServes, Apart, Rejected;
      hide KeysAt, Missing;
      if Rejected(q) {
        return Err(BadRequest);
      }
      if account == Unknown {
        return Err(NotFound);
      }
      if account == Inactive {
        return Err(InactiveAccount);
      }
      var r := ExportOf(q);
      var allRows: seq<Row> := [];
      var cursor: Option<string> := None;
      var pageCount: nat := 0;
      ghost var pages := ExportPages(up, q);
      ghost var keys := cache.Keys;
      WalkIsNotEmpty(up, r, None, MAX_EXPORT_PAGES);
      NoKeysYet(up, q, keys, gone);
      while true
        invariant Valid()
        invariant pageCount < MAX_EXPORT_PAGES && pageCount < |pages|
        invariant pages[pageCount..] == Walk(up, r, cursor, MAX_EXPORT_PAGES - pageCount)
        invariant cursor == CursorAt(pages, pageCount, None)
        invariant allRows + Rows(pages[pageCount..]) == Rows(pages)
        invariant cache.Keys == KeysAt(up, q, keys, gone, pageCount)
        invariant forall i :: 0 <= i < pageCount ==> !Missing(up, q, keys, gone, online, i)
        decreases MAX_EXPORT_PAGES - pageCount
      {
        assert r.(cursor := cursor) == PageRequest(up, q, pageCount);
        KeysNext(up, q, keys, gone, online, pageCount);
        var fetched := ExportPage(r.(cursor := cursor), online(pageCount), gone(pageCount));
        if fetched.Err? {
          return Err(UpstreamFailed);
        }
        var page := fetched.value;
        NextPage(up, r, cursor, MAX_EXPORT_PAGES - pageCount, pages, pageCount, allRows);
        allRows := allRows + page.rows;
        cursor := page.next;
        pageCount := pageCount + 1;
        if pageCount >= MAX_EXPORT_PAGES || Truthy(cursor).None? {
          assert pageCount == |pages|;
          break;
        }
      }
      result := Ok(if q.includeThumbnails.GetOr(false) then Enrich(allRows, creatives) else allRows);
      ghost var asked, followed := ExportedIs(up, q, creatives);
      EnrichKeepsTheRest(Rows(followed), creatives);
    }
  }

  lemma WalkIsNotEmpty(up: Upstream, r: Request, cursor: Option<string>, limit: nat)
    requires limit >= 1
    ensures Walk(up, r, cursor, limit) != []
  {
  }

  lemma NextPage(up: Upstream, r: Request, cursor: Option<string>, limit: nat,
                 pages: seq<Page>, i: nat, before: seq<Row>)
    requires limit >= 1 && i < |pages| && pages[i..] == Walk(up, r, cursor, limit)
    requires before + Rows(pages[i..]) == Rows(pages)
    ensures var page := up(r.(cursor := cursor));
      && pages[i] == page
      && before + page.rows + Rows(pages[i + 1..]) == Rows(pages)
      && pages[i + 1..] == (if Truthy(page.next).Some? then Walk(up, r, page.next, limit - 1) else [])
      && (limit > 1 && Truthy(page.next).Some? ==> i + 1 < |pages|)
      && (limit == 1 || Truthy(page.next).None? ==> before + page.rows == Rows(pages) && |pages| == i + 1)
  {
    hide Truthy;
    var page := up(r.(cursor := cursor));
    var rest := if Truthy(page.next).Some? then Walk(up, r, page.next, limit - 1) else [];
    assert Walk(up, r, cursor, limit) == [page] + rest;
    assert pages[i..][1..] == pages[i + 1..];
    assert limit > 1 && Truthy(page.next).Some? ==> rest != [];
    hide Walk;
    RowsOfFirst(page, rest);
  }

  lemma RowsOfFirst(page: Page, rest: seq<Page>)
    ensures Rows([page] + rest) == page.rows + Rows(rest)
    ensures rest == [] ==> Rows([page] + rest) == page.rows
  {
    assert ([page] + rest)[1..] == rest;
  }

  // ---------- Other keys of the same store ----------

  /** The key of the insights of one campaign. */
  function CampaignKey(campaignId: string, preset: string, timeIncrement: Option<string>, breakdowns: Option<string>)
    : string
  {
    BuildInsightsCacheKey("meta:insights:campaign:" + campaignId + ":" + preset, None, timeIncrement, breakdowns, false)
  }

  /** It never is the key of an account's page, whatever it holds: no account begins with the segment "campaign". */
  lemma CampaignKeysApart(r: Request, campaignId: string, preset: string,
                          timeIncrement: Option<string>, breakdowns: Option<string>)
    requires Cut(r.account).0 != "campaign"
    ensures Key(r) != CampaignKey(campaignId, preset, timeIncrement, breakdowns)
  {
    hide Key, CampaignKey, AfterAccount;
    KeyShape(r);
    assert Key(r)[14..] == r.account + AfterAccount(r);
    CutFirst(r.account, AfterAccount(r));
    var key := CampaignKey(campaignId, preset, timeIncrement, breakdowns);
    var rest := CampaignKeyStarts(campaignId, preset, timeIncrement, breakdowns);
    assert key[14..] == "campaign" + ":" + rest;
    CutColon("campaign", rest);
  }

  lemma CampaignKeyStarts(campaignId: string, preset: string,
                          timeIncrement: Option<string>, breakdowns: Option<string>)
    returns (rest: string)
    ensures CampaignKey(campaignId, preset, timeIncrement, breakdowns) == "meta:insights:" + ("campaign" + ":" + rest)
  {
    var q := Request("", "", Preset(""), timeIncrement, breakdowns, false, None);
    BuiltFromTail("meta:insights:campaign:" + campaignId + ":" + preset, q);
    rest := campaignId + ":" + preset + IncrementTail(q);
  }
}
