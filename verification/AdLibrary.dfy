/** The search of the ad library (ad-library.service.ts). */
module AdLibrary {
  import opened Prelude
  import opened Sorting

  /** `spendFrom`, `impressionsFrom`: the lower bounds as parsed; the inner `None` is a bound that is not a number. */
  datatype Ad = Ad(id: string, pageId: string, startTime: string,
                   spendFrom: Option<Option<int>>, impressionsFrom: Option<Option<int>>)

  // ---------- Keeping the latest ad of each page ----------

  /** The pages in the order of their first ads. */
  function Pages(ads: seq<Ad>): (pages: seq<string>)
    ensures forall p :: p in pages <==> exists ad :: ad in ads && ad.pageId == p
  {
    if ads == [] then []
    else
      var n := |ads| - 1;
      var before := Pages(ads[..n]);
      assert ads == ads[..n] + [ads[n]];
      if ads[n].pageId in before then before else before + [ads[n].pageId]
  }

  /** `pages` are the pages of the ads at the increasing positions `at`, each the first of its page. */
  predicate FirstsAt(ads: seq<Ad>, at: seq<nat>, pages: seq<string>) {
    && |at| == |pages|
    && (forall i :: 0 <= i < |at| ==> at[i] < |ads| && ads[at[i]].pageId == pages[i])
    && (forall i, j :: 0 <= i < |at| && 0 <= j < at[i] ==> ads[j].pageId != pages[i])
    && (forall i, j :: 0 <= i < j < |at| ==> at[i] < at[j])
  }

  /** They are listed once each, in the order in which they first appear. */
  lemma {:induction false} PagesInOrder(ads: seq<Ad>) returns (at: seq<nat>)
    ensures FirstsAt(ads, at, Pages(ads))
  {
    hide FirstsAt;
    at := [];
    if ads == [] {
      NoFirsts();
    } else {
      var n := |ads| - 1;
      at := PagesInOrder(ads[..n]);
      assert forall j :: 0 <= j < n ==> ads[j] in ads[..n];
      OneFirstMore(ads, at, Pages(ads[..n]));
      if ads[n].pageId !in Pages(ads[..n]) {
        at := at + [n];
      }
    }
  }

  lemma NoFirsts()
    ensures FirstsAt([], [], [])
  {
  }

  lemma OneFirstMore(ads: seq<Ad>, at: seq<nat>, pages: seq<string>)
    requires ads != [] && FirstsAt(ads[..|ads| - 1], at, pages)
    requires forall j :: 0 <= j < |ads| - 1 ==> ads[j].pageId in pages
    ensures var n := |ads| - 1;
      && FirstsAt(ads, at, pages)
      && (ads[n].pageId !in pages ==> FirstsAt(ads, at + [n], pages + [ads[n].pageId]))
  {
    var n := |ads| - 1;
    assert forall i :: 0 <= i < n ==> ads[..n][i] == ads[i];
  }

  /** The ad at `k` is the first ad of its page with the greatest start time. */
  ghost predicate IsLatest(ads: seq<Ad>, k: nat) {
    && k < |ads|
    && (forall j :: 0 <= j < |ads| && ads[j].pageId == ads[k].pageId ==> LexLe(ads[j].startTime, ads[k].startTime))
    && (forall j :: 0 <= j < k && ads[j].pageId == ads[k].pageId ==> !LexLe(ads[k].startTime, ads[j].startTime))
  }

  ghost predicate IsLatestAd(ads: seq<Ad>, ad: Ad) {
    exists k :: 0 <= k < |ads| && IsLatest(ads, k) && ads[k] == ad
  }

  /** One ad for each page, in the order of the pages, each the latest of its page. */
  ghost predicate KeepsLatest(ads: seq<Ad>, kept: seq<Ad>) {
    && |kept| == |Pages(ads)|
    && forall i :: 0 <= i < |kept| ==> kept[i].pageId == Pages(ads)[i] && IsLatestAd(ads, kept[i])
  }

  /** A map and the order in which its keys were first set. */
  ghost predicate InOrder(order: seq<string>, entries: map<string, Ad>) {
    && (forall p :: p in order <==> p in entries)
    && (forall p :: p in entries ==> entries[p].pageId == p)
  }

  function Values(order: seq<string>, entries: map<string, Ad>): (r: seq<Ad>)
    requires InOrder(order, entries)
    ensures |r| == |order| && forall i :: 0 <= i < |r| ==> r[i].pageId == order[i] && r[i] == entries[order[i]]
  {
    seq(|order|, i requires 0 <= i < |order| => entries[order[i]])
  }

  /** Every entry is the latest ad of its page. */
  ghost predicate AllLatest(ads: seq<Ad>, entries: map<string, Ad>) {
    forall p :: p in entries ==> IsLatestAd(ads, entries[p])
  }

  method Deduplicate(ads: seq<Ad>) returns (kept: seq<Ad>)
    ensures KeepsLatest(ads, kept)
  {
    hide IsLatestAd;
    var order: seq<string>, entries: map<string, Ad> := [], map[];
    for n := 0 to |ads|
      invariant order == Pages(ads[..n]) && InOrder(order, entries)
      invariant AllLatest(ads[..n], entries)
    {
      var ad := ads[n];
      NextEntry(ads, n, entries);
      assert ads[..n + 1][..n] == ads[..n];
      if ad.pageId !in entries {
        order := order + [ad.pageId];
        entries := entries[ad.pageId := ad];
      } else if !LexLe(ad.startTime, entries[ad.pageId].startTime) {
        entries := entries[ad.pageId := ad];
      }
    }
    assert ads[..|ads|] == ads;
    kept := Values(order, entries);
  }

  lemma NextEntry(ads: seq<Ad>, n: nat, entries: map<string, Ad>)
    requires n < |ads| && InOrder(Pages(ads[..n]), entries) && AllLatest(ads[..n], entries)
    ensures var ad := ads[n];
      var newer := ad.pageId !in entries || !LexLe(ad.startTime, entries[ad.pageId].startTime);
      AllLatest(ads[..n + 1], if newer then entries[ad.pageId := ad] else entries)
  {
    hide IsLatestAd;
    var ad := ads[n];
    forall p | p in entries && p != ad.pageId
      ensures IsLatestAd(ads[..n + 1], entries[p])
    {
      StillLatest(ads, n, entries[p]);
    }
    if ad.pageId in entries {
      LaterOfTwo(ads, n, entries[ad.pageId]);
    } else {
      FirstOfPage(ads, n);
    }
  }

  lemma StillLatest(ads: seq<Ad>, n: nat, ad: Ad)
    requires n < |ads| && IsLatestAd(ads[..n], ad) && ads[n].pageId != ad.pageId
    ensures IsLatestAd(ads[..n + 1], ad)
  {
    var k :| 0 <= k < n && IsLatest(ads[..n], k) && ads[k] == ad;
    assert forall j :: 0 <= j < n ==> ads[..n][j] == ads[j] == ads[..n + 1][j];
    assert IsLatest(ads[..n + 1], k);
  }

  lemma FirstOfPage(ads: seq<Ad>, n: nat)
    requires n < |ads| && ads[n].pageId !in Pages(ads[..n])
    ensures IsLatestAd(ads[..n + 1], ads[n])
  {
    LexReflexive(ads[n].startTime);
    forall j | 0 <= j < n
      ensures ads[j].pageId != ads[n].pageId
    {
      assert ads[j] in ads[..n];
    }
    assert IsLatest(ads[..n + 1], n);
  }

  lemma LaterOfTwo(ads: seq<Ad>, n: nat, held: Ad)
    requires n < |ads| && IsLatestAd(ads[..n], held) && held.pageId == ads[n].pageId
    ensures IsLatestAd(ads[..n + 1], if LexLe(ads[n].startTime, held.startTime) then held else ads[n])
  {
    hide LexLe;
    var k :| 0 <= k < n && IsLatest(ads[..n], k) && ads[k] == held;
    assert forall j :: 0 <= j < n ==> ads[..n][j] == ads[j] == ads[..n + 1][j];
    var t := ads[n].startTime;
    if LexLe(t, held.startTime) {
      assert IsLatest(ads[..n + 1], k);
    } else {
      LexTotal(t, held.startTime);
      LexReflexive(t);
      forall j | 0 <= j < n && ads[j].pageId == ads[n].pageId
        ensures LexLe(ads[j].startTime, t) && !LexLe(t, ads[j].startTime)
      {
        LexTransitive(ads[j].startTime, held.startTime, t);
        if LexLe(t, ads[j].startTime) {
          LexTransitive(t, ads[j].startTime, held.startTime);
        }
      }
      assert IsLatest(ads[..n + 1], n);
    }
  }

  /** A page has one latest ad. */
  lemma LatestUnique(ads: seq<Ad>, a: Ad, b: Ad)
    requires IsLatestAd(ads, a) && IsLatestAd(ads, b) && a.pageId == b.pageId
    ensures a == b
  {
    hide LexLe;
    var i :| 0 <= i < |ads| && IsLatest(ads, i) && ads[i] == a;
    var j :| 0 <= j < |ads| && IsLatest(ads, j) && ads[j] == b;
  }

  /** So what is kept is determined. */
  lemma KeptUnique(ads: seq<Ad>, a: seq<Ad>, b: seq<Ad>)
    requires KeepsLatest(ads, a) && KeepsLatest(ads, b)
    ensures a == b
  {
    hide IsLatestAd;
    forall i | 0 <= i < |a|
      ensures a[i] == b[i]
    {
      LatestUnique(ads, a[i], b[i]);
    }
  }

  predicate DistinctPages(ads: seq<Ad>) {
    forall i, j :: 0 <= i < j < |ads| ==> ads[i].pageId != ads[j].pageId
  }

  lemma {:induction false} PagesDistinct(ads: seq<Ad>, i: nat, j: nat)
    requires i < j < |Pages(ads)|
    ensures Pages(ads)[i] != Pages(ads)[j]
  {
    var before := Pages(ads[..|ads| - 1]);
    if j < |before| {
      PagesDistinct(ads[..|ads| - 1], i, j);
    } else {
      assert before[i] in before;
    }
  }

  lemma {:induction false} PagesOfDistinct(ads: seq<Ad>)
    requires DistinctPages(ads)
    ensures |Pages(ads)| == |ads| && forall i :: 0 <= i < |ads| ==> Pages(ads)[i] == ads[i].pageId
  {
    if ads != [] {
      var n := |ads| - 1;
      PagesOfDistinct(ads[..n]);
      assert forall ad :: ad in ads[..n] ==> ad.pageId != ads[n].pageId;
    }
  }

  /** The latest ads of ads that have distinct pages are these ads, so keeping the latest twice changes nothing. */
  lemma KeepingAgain(ads: seq<Ad>, kept: seq<Ad>)
    requires KeepsLatest(ads, kept)
    ensures DistinctPages(kept) && KeepsLatest(kept, kept)
  {
    KeptDistinct(ads, kept);
    PagesOfDistinct(kept);
    forall i | 0 <= i < |kept|
      ensures IsLatestAd(kept, kept[i])
    {
      LexReflexive(kept[i].startTime);
      assert IsLatest(kept, i);
    }
  }

  lemma KeptDistinct(ads: seq<Ad>, kept: seq<Ad>)
    requires KeepsLatest(ads, kept)
    ensures DistinctPages(kept)
  {
    hide IsLatestAd;
    forall i, j | 0 <= i < j < |kept|
      ensures kept[i].pageId != kept[j].pageId
    {
      PagesDistinct(ads, i, j);
    }
  }

  // ---------- The search ----------

  datatype Query = Query(minSpend: Option<int>, minImpressions: Option<int>, limit: Option<nat>)

  /** A bound that is not a number is not below anything. */
  predicate Below(from: Option<Option<int>>, least: Option<int>) {
    least.Some? && from.Some? && from.value.Some? && from.value.value < least.value
  }

  predicate Passes(ad: Ad, q: Query) {
    !Below(ad.spendFrom, q.minSpend) && !Below(ad.impressionsFrom, q.minImpressions)
  }

  function ApplyClientFilters(ads: seq<Ad>, q: Query): (r: seq<Ad>)
    ensures forall ad :: ad in r <==> ad in ads && Passes(ad, q)
    ensures DistinctPages(ads) ==> DistinctPages(r)
  {
    if ads == [] then []
    else
      var n := |ads| - 1;
      var rest := ApplyClientFilters(ads[..n], q);
      assert ads == ads[..n] + [ads[n]];
      assert DistinctPages(ads) ==> forall ad :: ad in rest ==> ad.pageId != ads[n].pageId;
      if Passes(ads[n], q) then rest + [ads[n]] else rest
  }

  /** A bound that is a number and below the minimum asked for keeps an ad out, and nothing else does. */
  lemma PassesIff(ad: Ad, q: Query)
    ensures Passes(ad, q) <==>
      && (forall least, bound :: q.minSpend == Some(least) && ad.spendFrom == Some(Some(bound)) ==> least <= bound)
      && (forall least, bound :: q.minImpressions == Some(least) && ad.impressionsFrom == Some(Some(bound)) ==>
            least <= bound)
  {
  }

  /** The ads that stay are those at the positions that pass, each once and in their order. */
  lemma {:induction false} FiltersInOrder(ads: seq<Ad>, q: Query) returns (at: seq<nat>)
    ensures Picks(ads, at, ApplyClientFilters(ads, q))
    ensures forall i :: 0 <= i < |ads| ==> (i in at <==> Passes(ads[i], q))
  {
    hide Passes, Picks;
    if ads == [] {
      at := [];
      NothingPicked<Ad>();
    } else {
      var n := |ads| - 1;
      var before := FiltersInOrder(ads[..n], q);
      PickOneMore(ads, before, ApplyClientFilters(ads[..n], q));
      assert forall i :: 0 <= i < n ==> ads[..n][i] == ads[i];
      at := if Passes(ads[n], q) then before + [n] else before;
    }
  }

  function FirstOf(ads: seq<Ad>, limit: nat): seq<Ad> {
    if |ads| <= limit then ads else ads[..limit]
  }

  method Search(found: seq<Ad>, q: Query) returns (data: seq<Ad>)
    ensures |data| <= q.limit.GetOr(50)
    ensures exists kept ::
      && KeepsLatest(found, kept) && data <= ApplyClientFilters(kept, q)
      && (|data| == q.limit.GetOr(50) || data == ApplyClientFilters(kept, q))
    ensures DistinctPages(data)
    ensures forall ad :: ad in data ==> IsLatestAd(found, ad) && Passes(ad, q)
    ensures |data| < q.limit.GetOr(50) ==> forall ad :: IsLatestAd(found, ad) && Passes(ad, q) ==> ad in data
  {
    hide Passes, IsLatestAd;
    var deduplicated := Deduplicate(found);
    KeptDistinct(found, deduplicated);
    var filtered := ApplyClientFilters(deduplicated, q);
    data := FirstOf(filtered, q.limit.GetOr(50));
    forall ad | ad in data
      ensures IsLatestAd(found, ad) && Passes(ad, q)
    {
      assert ad in filtered && ad in deduplicated;
    }
    forall ad | IsLatestAd(found, ad)
      ensures ad in deduplicated
    {
      LatestIsKept(found, deduplicated, ad);
    }
  }

  lemma LatestIsKept(ads: seq<Ad>, kept: seq<Ad>, ad: Ad)
    requires KeepsLatest(ads, kept) && IsLatestAd(ads, ad)
    ensures ad in kept
  {
    var k :| 0 <= k < |ads| && IsLatest(ads, k) && ads[k] == ad;
    hide IsLatestAd, IsLatest;
    assert ad.pageId in Pages(ads);
    var i :| 0 <= i < |kept| && Pages(ads)[i] == ad.pageId;
    LatestUnique(ads, kept[i], ad);
  }

  /**
   A page is shown (there being room) exactly when its latest ad passes; an older ad that does never
   stands in for it.
   */
  lemma ShownIff(found: seq<Ad>, kept: seq<Ad>, q: Query, ad: Ad)
    requires KeepsLatest(found, kept) && IsLatestAd(found, ad)
    requires |ApplyClientFilters(kept, q)| <= q.limit.GetOr(50)
    ensures Passes(ad, q) <==>
      exists other :: other in FirstOf(ApplyClientFilters(kept, q), q.limit.GetOr(50)) && other.pageId == ad.pageId
  {
    hide IsLatestAd, Passes;
    LatestIsKept(found, kept, ad);
    KeptDistinct(found, kept);
  }
}
