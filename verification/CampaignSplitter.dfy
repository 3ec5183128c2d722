/** Insight rows split by campaign name and summed (campaign-splitter.ts). */
module CampaignSplitter {
  import opened Prelude

  datatype Action = Action(actionType: string, value: int)

  /** One row of insights, its figures parsed; a figure that is absent is 0. */
  datatype Row = Row(campaignName: Option<string>, spend: real, impressions: int, clicks: int, reach: int,
                     actions: Option<seq<Action>>)

  // ---------- Which campaigns acquire ----------

  function Upper(c: char): char {
    if 'a' <= c <= 'z' then 'A' + (c - 'a') else c
  }

  /** `word` stands at `i`, ignoring case. */
  predicate StandsAt(s: string, i: nat, word: string) {
    i + |word| <= |s| && forall k :: 0 <= k < |word| ==> Upper(s[i + k]) == word[k]
  }

  predicate StartsToken(s: string, i: nat) {
    i == 0 || (i <= |s| && s[i - 1] == '_')
  }

  predicate EndsToken(s: string, i: nat) {
    i == |s| || (i < |s| && s[i] == '_')
  }

  /** The pattern matches at `i`: CAP, an optional T, and then the end of the token. */
  predicate MatchesAt(s: string, i: nat) {
    && StartsToken(s, i)
    && ((StandsAt(s, i, "CAP") && EndsToken(s, i + 3)) || (StandsAt(s, i, "CAPT") && EndsToken(s, i + 4)))
  }

  predicate AcquisitionName(s: string) {
    exists i :: 0 <= i < |s| && MatchesAt(s, i)
  }

  predicate IsAcquisition(row: Row) {
    AcquisitionName(row.campaignName.GetOr(""))
  }

  /** The whole of `t` is CAP or CAPT, ignoring case. */
  predicate IsCap(t: string) {
    && (|t| == 3 || (|t| == 4 && (t[3] == 'T' || t[3] == 't')))
    && (t[0] == 'C' || t[0] == 'c') && (t[1] == 'A' || t[1] == 'a') && (t[2] == 'P' || t[2] == 'p')
  }

  lemma CapStandsIff(t: string)
    ensures IsCap(t) <==> (|t| == 3 && StandsAt(t, 0, "CAP")) || (|t| == 4 && StandsAt(t, 0, "CAPT"))
  {
    assert |t| >= 3 ==> (StandsAt(t, 0, "CAP") <==>
      Upper(t[0 + 0]) == "CAP"[0] && Upper(t[0 + 1]) == "CAP"[1] && Upper(t[0 + 2]) == "CAP"[2]);
    assert |t| >= 4 ==> (StandsAt(t, 0, "CAPT") <==>
      Upper(t[0 + 0]) == "CAPT"[0] && Upper(t[0 + 1]) == "CAPT"[1] && Upper(t[0 + 2]) == "CAPT"[2]
      && Upper(t[0 + 3]) == "CAPT"[3]);
  }

  predicate HasCap(tokens: seq<string>) {
    exists k :: 0 <= k < |tokens| && IsCap(tokens[k])
  }

  /** A name is one of acquisition exactly when some token between its underscores is CAP or CAPT. */
  lemma {:induction false} AcquisitionIff(s: string)
    ensures AcquisitionName(s) <==> HasCap(Split(s, '_'))
    decreases |s|
  {
    hide MatchesAt, IsCap;
    var tokens := Split(s, '_');
    var a := tokens[0];
    SplitHead(s, '_');
    if |tokens| == 1 {
      OneToken(s);
    } else {
      var rest := s[|a| + 1..];
      AcquisitionIff(rest);
      FirstToken(s, a, rest);
      assert tokens == [a] + Split(rest, '_');
      assert HasCap(tokens) <==> IsCap(a) || HasCap(Split(rest, '_')) by {
        assert forall k :: 0 <= k < |Split(rest, '_')| ==> tokens[k + 1] == Split(rest, '_')[k];
      }
    }
  }

  /** The first token, and if there are more, a separator and the rest. */
  predicate StartsWithToken(s: string, sep: char, tokens: seq<string>)
    requires tokens != []
  {
    var n := |tokens[0]|;
    if |tokens| == 1 then s == tokens[0]
    else n < |s| && s == tokens[0] + [sep] + s[n + 1..] && tokens[1..] == Split(s[n + 1..], sep)
  }

  lemma {:induction false} SplitHead(s: string, sep: char)
    ensures StartsWithToken(s, sep, Split(s, sep))
  {
    if s != "" {
      SplitHead(s[1..], sep);
      if s[0] == sep {
        assert Split(s, sep)[1..] == Split(s[1..], sep) && s == "" + [sep] + s[1..];
      } else {
        SplitStep(s, sep);
        hide Split;
        OneCharMore(s, sep, Split(s[1..], sep));
      }
    }
  }

  lemma OneCharMore(s: string, sep: char, rest: seq<string>)
    requires s != "" && rest != [] && StartsWithToken(s[1..], sep, rest)
    ensures StartsWithToken(s, sep, [[s[0]] + rest[0]] + rest[1..])
  {
    hide Split;
    var n := |rest[0]|;
    assert s == [s[0]] + s[1..];
    if |rest| > 1 {
      assert s[1..][n + 1..] == s[n + 2..];
      assert [s[0]] + (rest[0] + [sep] + s[n + 2..]) == [s[0]] + rest[0] + [sep] + s[n + 2..];
    }
  }

  lemma OneToken(s: string)
    requires '_' !in s
    ensures AcquisitionName(s) <==> IsCap(s)
  {
    CapStandsIff(s);
    hide IsCap;
    assert forall i :: 0 < i < |s| ==> !MatchesAt(s, i);
    assert AcquisitionName(s) <==> 0 < |s| && MatchesAt(s, 0);
  }

  lemma FirstToken(s: string, a: string, rest: string)
    requires '_' !in a && s == a + "_" + rest
    ensures AcquisitionName(s) <==> IsCap(a) || AcquisitionName(rest)
  {
    var n := |a| + 1;
    assert MatchesAt(s, 0) <==> IsCap(a) by { FirstTokenMatches(s, a, rest); }
    forall i | 0 < i < |s|
      ensures MatchesAt(s, i) <==> i >= n && i - n < |rest| && MatchesAt(rest, i - n)
    {
      if i < n {
        assert s[i - 1] == a[i - 1];
      } else {
        ShiftedMatch(s, n, i - n, rest);
      }
    }
    if AcquisitionName(rest) {
      var i :| 0 <= i < |rest| && MatchesAt(rest, i);
      assert MatchesAt(s, i + n);
    }
  }

  lemma FirstTokenMatches(s: string, a: string, rest: string)
    requires '_' !in a && s == a + "_" + rest
    ensures MatchesAt(s, 0) <==> IsCap(a)
  {
    CapStandsIff(a);
    hide IsCap;
    assert s[|a|] == '_';
    assert forall k :: 0 <= k < |a| ==> s[k] == a[k] != '_';
    forall word: string | word == "CAP" || word == "CAPT"
      ensures StandsAt(s, 0, word) && EndsToken(s, |word|) <==> |a| == |word| && StandsAt(a, 0, word)
    {
      assert forall k :: 0 <= k < |word| ==> word[k] != '_';
      forall k | 0 <= k < |word| && StandsAt(s, 0, word)
        ensures s[k] != '_'
      {
        assert Upper(s[0 + k]) == word[k];
      }
    }
  }

  lemma ShiftedMatch(s: string, n: nat, j: nat, rest: string)
    requires 0 < n <= |s| && s[n - 1] == '_' && rest == s[n..] && j < |rest|
    ensures MatchesAt(s, n + j) <==> MatchesAt(rest, j)
  {
    assert forall k :: 0 <= k < |rest| ==> rest[k] == s[n + k];
    assert StandsAt(s, n + j, "CAP") <==> StandsAt(rest, j, "CAP");
    assert StandsAt(s, n + j, "CAPT") <==> StandsAt(rest, j, "CAPT");
  }

  // ---------- Sums ----------

  /** The metrics that are summed. */
  datatype Totals = Totals(
    spend: real, impressions: int, clicks: int, reach: int, purchases: int, addToCart: int,
    pageViews: int, contentViews: int, checkoutInitiated: int, messagesStarted: int, liveViews: int)

  const ZERO := Totals(0.0, 0, 0, 0, 0, 0, 0, 0, 0, 0, 0)

  function Plus(a: Totals, b: Totals): Totals {
    Totals(a.spend + b.spend, a.impressions + b.impressions, a.clicks + b.clicks, a.reach + b.reach,
           a.purchases + b.purchases, a.addToCart + b.addToCart, a.pageViews + b.pageViews,
           a.contentViews + b.contentViews, a.checkoutInitiated + b.checkoutInitiated,
           a.messagesStarted + b.messagesStarted, a.liveViews + b.liveViews)
  }

  /** The value of the first action of a type. */
  function FindAction(actions: Option<seq<Action>>, actionType: string): int {
    match actions
    case None => 0
    case Some(all) => FirstValue(all, actionType)
  }

  function FirstValue(actions: seq<Action>, actionType: string): int {
    if actions == [] then 0
    else if actions[0].actionType == actionType then actions[0].value
    else FirstValue(actions[1..], actionType)
  }

  /** It is 0 when there is none. */
  lemma {:induction false} FirstOfType(actions: seq<Action>, actionType: string, k: nat)
    requires k <= |actions| && forall j :: 0 <= j < k ==> actions[j].actionType != actionType
    requires k < |actions| ==> actions[k].actionType == actionType
    ensures FindAction(Some(actions), actionType) == if k < |actions| then actions[k].value else 0
  {
    if k > 0 {
      FirstOfType(actions[1..], actionType, k - 1);
    }
  }

  function TotalsOf(row: Row): Totals {
    Totals(row.spend, row.impressions, row.clicks, row.reach,
           FindAction(row.actions, "purchase"), FindAction(row.actions, "add_to_cart"),
           FindAction(row.actions, "landing_page_view"), FindAction(row.actions, "view_content"),
           FindAction(row.actions, "initiate_checkout"), FindAction(row.actions, "messaging_conversation_started_7d"),
           FindAction(row.actions, "video_play"))
  }

  function Sum(rows: seq<Row>): Totals {
    if rows == [] then ZERO else Plus(Sum(rows[..|rows| - 1]), TotalsOf(rows[|rows| - 1]))
  }

  function SumOf(rows: seq<Row>, metric: Row -> int): int {
    if rows == [] then 0 else metric(rows[0]) + SumOf(rows[1..], metric)
  }

  lemma {:induction false} SumOfLast(rows: seq<Row>, metric: Row -> int)
    requires rows != []
    ensures SumOf(rows, metric) == SumOf(rows[..|rows| - 1], metric) + metric(rows[|rows| - 1])
  {
    var n := |rows| - 1;
    if n > 0 {
      SumOfLast(rows[1..], metric);
      assert rows[1..][..n - 1] == rows[..n][1..];
    } else {
      assert rows[1..] == [] == rows[..n];
    }
  }

  function Counted(actionType: string): Row -> int {
    (r: Row) => FindAction(r.actions, actionType)
  }

  function SpendOf(rows: seq<Row>): real {
    if rows == [] then 0.0 else rows[0].spend + SpendOf(rows[1..])
  }

  lemma {:induction false} SpendOfLast(rows: seq<Row>)
    requires rows != []
    ensures SpendOf(rows) == SpendOf(rows[..|rows| - 1]) + rows[|rows| - 1].spend
  {
    var n := |rows| - 1;
    if n > 0 {
      SpendOfLast(rows[1..]);
      assert rows[1..][..n - 1] == rows[..n][1..];
    } else {
      assert rows[1..] == [] == rows[..n];
    }
  }

  predicate EachSummed(rows: seq<Row>, t: Totals) {
    && t.spend == SpendOf(rows)
    && t.impressions == SumOf(rows, (r: Row) => r.impressions)
    && t.clicks == SumOf(rows, (r: Row) => r.clicks)
    && t.reach == SumOf(rows, (r: Row) => r.reach)
    && t.purchases == SumOf(rows, Counted("purchase"))
    && t.addToCart == SumOf(rows, Counted("add_to_cart"))
    && t.pageViews == SumOf(rows, Counted("landing_page_view"))
    && t.contentViews == SumOf(rows, Counted("view_content"))
    && t.checkoutInitiated == SumOf(rows, Counted("initiate_checkout"))
    && t.messagesStarted == SumOf(rows, Counted("messaging_conversation_started_7d"))
    && t.liveViews == SumOf(rows, Counted("video_play"))
  }

  /** The spend and each count of the totals is the sum of its own metric over the rows. */
  lemma {:induction false} SumsEachMetric(rows: seq<Row>)
    ensures EachSummed(rows, Sum(rows))
  {
    hide FindAction;
    if rows != [] {
      SumsEachMetric(rows[..|rows| - 1]);
      SpendOfLast(rows);
      SumOfLast(rows, (r: Row) => r.impressions);
      SumOfLast(rows, (r: Row) => r.clicks);
      SumOfLast(rows, (r: Row) => r.reach);
      SumOfLast(rows, Counted("purchase"));
      SumOfLast(rows, Counted("add_to_cart"));
      SumOfLast(rows, Counted("landing_page_view"));
      SumOfLast(rows, Counted("view_content"));
      SumOfLast(rows, Counted("initiate_checkout"));
      SumOfLast(rows, Counted("messaging_conversation_started_7d"));
      SumOfLast(rows, Counted("video_play"));
      hide SumOf, SpendOf;
    }
  }

  function RoundPositive(x: real): real {
    (x * 100.0 + 0.5).Floor as real / 100.0
  }

  /** `parseFloat(x.toFixed(2))`: the nearest hundredth, halves away from zero. */
  function Round2(x: real): real {
    if x < 0.0 then -RoundPositive(-x) else RoundPositive(x)
  }

  function Ctr(t: Totals): real {
    if t.impressions > 0 then (t.clicks as real / t.impressions as real) * 100.0 else 0.0
  }

  function Cpm(t: Totals): real {
    if t.impressions > 0 then (t.spend / t.impressions as real) * 1000.0 else 0.0
  }

  datatype Summary = Summary(totals: Totals, ctr: real, cpm: real)

  function Aggregate(rows: seq<Row>): Summary {
    var t := Sum(rows);
    Summary(t, Round2(Ctr(t)), Round2(Cpm(t)))
  }

  method AggregateRows(rows: seq<Row>) returns (summary: Summary)
    ensures summary == Aggregate(rows)
  {
    hide FindAction;
    var spend, impressions, clicks, reach := 0.0, 0, 0, 0;
    var purchases, addToCart, pageViews := 0, 0, 0;
    var messagesStarted, contentViews, checkoutInitiated, liveViews := 0, 0, 0, 0;
    for i := 0 to |rows|
      invariant Sum(rows[..i]) == Totals(spend, impressions, clicks, reach, purchases, addToCart, pageViews,
                                         contentViews, checkoutInitiated, messagesStarted, liveViews)
    {
      var row := rows[i];
      assert rows[..i + 1][..i] == rows[..i];
      spend := spend + row.spend;
      impressions := impressions + row.impressions;
      clicks := clicks + row.clicks;
      reach := reach + row.reach;
      purchases := purchases + FindAction(row.actions, "purchase");
      addToCart := addToCart + FindAction(row.actions, "add_to_cart");
      pageViews := pageViews + FindAction(row.actions, "landing_page_view");
      contentViews := contentViews + FindAction(row.actions, "view_content");
      checkoutInitiated := checkoutInitiated + FindAction(row.actions, "initiate_checkout");
      messagesStarted := messagesStarted + FindAction(row.actions, "messaging_conversation_started_7d");
      liveViews := liveViews + FindAction(row.actions, "video_play");
    }
    assert rows[..|rows|] == rows;
    var ctr := if impressions > 0 then (clicks as real / impressions as real) * 100.0 else 0.0;
    var cpm := if impressions > 0 then (spend / impressions as real) * 1000.0 else 0.0;
    summary := Summary(
      Totals(spend, impressions, clicks, reach, purchases, addToCart, pageViews, contentViews, checkoutInitiated,
             messagesStarted, liveViews),
      Round2(ctr), Round2(cpm));
  }

  datatype Report = Report(acquisition: Option<Summary>, sales: Option<Summary>, total: Summary)

  /** The rows that are of acquisition, or those that are not. */
  function Part(rows: seq<Row>, acquisition: bool): seq<Row> {
    if rows == [] then []
    else
      var rest, last := Part(rows[..|rows| - 1], acquisition), rows[|rows| - 1];
      if IsAcquisition(last) == acquisition then rest + [last] else rest
  }

  function Optional(rows: seq<Row>): Option<Summary> {
    if |rows| > 0 then Some(Aggregate(rows)) else None
  }

  function ReportOf(rows: seq<Row>): Report {
    Report(Optional(Part(rows, true)), Optional(Part(rows, false)), Aggregate(rows))
  }

  method SplitAndAggregateCampaigns(rows: seq<Row>) returns (report: Report)
    ensures report == ReportOf(rows)
  {
    hide Sum, IsAcquisition;
    var acquisitionRows, salesRows := Part(rows, true), Part(rows, false);
    var acquisition: Option<Summary>, sales: Option<Summary> := None, None;
    if |acquisitionRows| > 0 {
      var summary := AggregateRows(acquisitionRows);
      acquisition := Some(summary);
    }
    if |salesRows| > 0 {
      var summary := AggregateRows(salesRows);
      sales := Some(summary);
    }
    var total := AggregateRows(rows);
    report := Report(acquisition, sales, total);
  }

  // ---------- Nothing is lost or counted twice ----------

  function TotalsIn(part: Option<Summary>): Totals {
    if part.Some? then part.value.totals else ZERO
  }

  lemma {:induction false} PartsSum(rows: seq<Row>)
    ensures Sum(rows) == Plus(Sum(Part(rows, true)), Sum(Part(rows, false)))
  {
    hide IsAcquisition, TotalsOf, Plus, Sum;
    if rows == [] {
      EmptySum(rows);
      assert Plus(ZERO, ZERO) == ZERO by { PlusLaws(ZERO, ZERO, ZERO); }
    } else {
      var n := |rows| - 1;
      var yes, no, last := Part(rows[..n], true), Part(rows[..n], false), TotalsOf(rows[n]);
      PartsSum(rows[..n]);
      assert rows == rows[..n] + [rows[n]];
      LastSummed(rows[..n], rows[n]);
      LastSummed(yes, rows[n]);
      LastSummed(no, rows[n]);
      PlusLaws(Sum(yes), Sum(no), last);
    }
  }

  lemma PlusLaws(a: Totals, b: Totals, c: Totals)
    ensures Plus(Plus(a, b), c) == Plus(Plus(a, c), b) == Plus(a, Plus(b, c))
    ensures Plus(a, ZERO) == a == Plus(ZERO, a)
  {
  }

  lemma LastSummed(rows: seq<Row>, row: Row)
    ensures Sum(rows + [row]) == Plus(Sum(rows), TotalsOf(row))
  {
    assert (rows + [row])[..|rows|] == rows;
  }

  /** Every summed metric of the total is that of acquisition plus that of sales, an absent part counting as zero. */
  lemma TotalIsSumOfParts(rows: seq<Row>)
    ensures var r := ReportOf(rows); r.total.totals == Plus(TotalsIn(r.acquisition), TotalsIn(r.sales))
  {
    hide Sum, TotalsOf, Part, Plus, Round2, Ctr, Cpm;
    PartsSum(rows);
    EmptySum(Part(rows, true));
    EmptySum(Part(rows, false));
  }

  lemma EmptySum(rows: seq<Row>)
    ensures |rows| == 0 ==> Sum(rows) == ZERO
  {
  }

  lemma {:induction false} SumWithout(rows: seq<Row>, i: nat)
    requires i < |rows|
    ensures Sum(rows) == Plus(Sum(rows[..i] + rows[i + 1..]), TotalsOf(rows[i]))
  {
    hide TotalsOf;
    var n := |rows| - 1;
    if i == n {
      assert rows[..i] + rows[i + 1..] == rows[..n];
    } else {
      SumWithout(rows[..n], i);
      var less := rows[..n][..i] + rows[..n][i + 1..];
      LastSummed(less, rows[n]);
      assert rows[..i] + rows[i + 1..] == less + [rows[n]];
    }
  }

  lemma {:induction false} SumIgnoresOrder(a: seq<Row>, b: seq<Row>)
    requires multiset(a) == multiset(b)
    ensures Sum(a) == Sum(b)
  {
    hide TotalsOf, Plus;
    assert |a| == |multiset(a)| == |multiset(b)| == |b|;
    if a != [] {
      var n := |a| - 1;
      assert a == a[..n] + [a[n]];
      assert a[n] in multiset(b);
      var i :| 0 <= i < |b| && b[i] == a[n];
      assert b == b[..i] + [b[i]] + b[i + 1..];
      assert multiset(b[..i] + b[i + 1..]) == multiset(b) - multiset{b[i]};
      assert multiset(a[..n]) == multiset(a) - multiset{a[n]};
      assert multiset(a[..n]) == multiset(b[..i] + b[i + 1..]);
      SumIgnoresOrder(a[..n], b[..i] + b[i + 1..]);
      SumWithout(b, i);
    }
  }

  lemma {:induction false} PartCount(rows: seq<Row>, acquisition: bool, row: Row)
    ensures multiset(Part(rows, acquisition))[row]
         == if IsAcquisition(row) == acquisition then multiset(rows)[row] else 0
  {
    hide IsAcquisition;
    if rows != [] {
      var n := |rows| - 1;
      PartCount(rows[..n], acquisition, row);
      assert rows == rows[..n] + [rows[n]];
    }
  }

  lemma PartIgnoresOrder(a: seq<Row>, b: seq<Row>, acquisition: bool)
    requires multiset(a) == multiset(b)
    ensures multiset(Part(a, acquisition)) == multiset(Part(b, acquisition))
  {
    forall row: Row
      ensures multiset(Part(a, acquisition))[row] == multiset(Part(b, acquisition))[row]
    {
      PartCount(a, acquisition, row);
      PartCount(b, acquisition, row);
    }
  }

  /** The report does not depend on the order of the rows. */
  lemma ReportIgnoresOrder(a: seq<Row>, b: seq<Row>)
    requires multiset(a) == multiset(b)
    ensures ReportOf(a) == ReportOf(b)
  {
    hide Sum, Part;
    PartIgnoresOrder(a, b, true);
    PartIgnoresOrder(a, b, false);
    SumIgnoresOrder(a, b);
    SumIgnoresOrder(Part(a, true), Part(b, true));
    SumIgnoresOrder(Part(a, false), Part(b, false));
    assert |Part(a, true)| == |multiset(Part(a, true))| == |multiset(Part(b, true))| == |Part(b, true)|;
    assert |Part(a, false)| == |multiset(Part(a, false))| == |multiset(Part(b, false))| == |Part(b, false)|;
  }

  // ---------- Which rows each part sums ----------

  /** Some token of the name of the campaign is CAP or CAPT; a missing name has none. */
  predicate HasToken(row: Row) {
    row.campaignName.Some? && HasCap(Split(row.campaignName.value, '_'))
  }

  lemma HasTokenIff(row: Row)
    ensures HasToken(row) <==> IsAcquisition(row)
  {
    AcquisitionIff(row.campaignName.GetOr(""));
  }

  /** The sum of a metric over the rows that have a token, or over the others. */
  function SumWhere(rows: seq<Row>, token: bool, metric: Row -> int): int {
    if rows == [] then 0
    else (if HasToken(rows[0]) == token then metric(rows[0]) else 0) + SumWhere(rows[1..], token, metric)
  }

  function SpendWhere(rows: seq<Row>, token: bool): real {
    if rows == [] then 0.0
    else (if HasToken(rows[0]) == token then rows[0].spend else 0.0) + SpendWhere(rows[1..], token)
  }

  lemma {:induction false} PartSums(rows: seq<Row>, token: bool, metric: Row -> int)
    ensures SumOf(Part(rows, token), metric) == SumWhere(rows, token, metric)
    ensures SpendOf(Part(rows, token)) == SpendWhere(rows, token)
  {
    if rows == [] {
      assert Part(rows, token) == [];
    } else {
      hide HasToken, IsAcquisition;
      HasTokenIff(rows[0]);
      PartFirst(rows, token);
      PartSums(rows[1..], token, metric);
      var rest := Part(rows[1..], token);
      assert Part(rows, token) == if HasToken(rows[0]) == token then [rows[0]] + rest else rest;
      assert ([rows[0]] + rest)[1..] == rest;
      hide Part, SumWhere, SpendWhere;
      WhereFirst(rows, token, metric);
    }
  }

  lemma WhereFirst(rows: seq<Row>, token: bool, metric: Row -> int)
    requires rows != []
    ensures SumWhere(rows, token, metric)
      == (if HasToken(rows[0]) == token then metric(rows[0]) else 0) + SumWhere(rows[1..], token, metric)
    ensures SpendWhere(rows, token)
      == (if HasToken(rows[0]) == token then rows[0].spend else 0.0) + SpendWhere(rows[1..], token)
  {
  }

  lemma {:induction false} PartFirst(rows: seq<Row>, token: bool)
    requires rows != []
    ensures Part(rows, token)
      == (if IsAcquisition(rows[0]) == token then [rows[0]] else []) + Part(rows[1..], token)
  {
    hide IsAcquisition;
    var n := |rows| - 1;
    if n > 0 {
      PartFirst(rows[..n], token);
      assert rows[..n][1..] == rows[1..][..n - 1];
    } else {
      assert rows[..n] == [] == rows[1..];
    }
  }

  predicate EachSummedWhere(rows: seq<Row>, token: bool, t: Totals) {
    && t.spend == SpendWhere(rows, token)
    && t.impressions == SumWhere(rows, token, (r: Row) => r.impressions)
    && t.clicks == SumWhere(rows, token, (r: Row) => r.clicks)
    && t.reach == SumWhere(rows, token, (r: Row) => r.reach)
    && t.purchases == SumWhere(rows, token, Counted("purchase"))
    && t.addToCart == SumWhere(rows, token, Counted("add_to_cart"))
    && t.pageViews == SumWhere(rows, token, Counted("landing_page_view"))
    && t.contentViews == SumWhere(rows, token, Counted("view_content"))
    && t.checkoutInitiated == SumWhere(rows, token, Counted("initiate_checkout"))
    && t.messagesStarted == SumWhere(rows, token, Counted("messaging_conversation_started_7d"))
    && t.liveViews == SumWhere(rows, token, Counted("video_play"))
  }

  lemma PartIsSummed(rows: seq<Row>, token: bool)
    ensures EachSummedWhere(rows, token, Sum(Part(rows, token)))
  {
    hide Sum, Part, SumOf, SpendOf, SumWhere, SpendWhere, FindAction;
    SumsEachMetric(Part(rows, token));
    PartSums(rows, token, (r: Row) => r.impressions);
    PartSums(rows, token, (r: Row) => r.clicks);
    PartSums(rows, token, (r: Row) => r.reach);
    PartSums(rows, token, Counted("purchase"));
    PartSums(rows, token, Counted("add_to_cart"));
    PartSums(rows, token, Counted("landing_page_view"));
    PartSums(rows, token, Counted("view_content"));
    PartSums(rows, token, Counted("initiate_checkout"));
    PartSums(rows, token, Counted("messaging_conversation_started_7d"));
    PartSums(rows, token, Counted("video_play"));
  }

  lemma {:induction false} PartIsThereIff(rows: seq<Row>, token: bool)
    ensures |Part(rows, token)| > 0 <==> exists i :: 0 <= i < |rows| && HasToken(rows[i]) == token
  {
    if rows != [] {
      hide HasToken, IsAcquisition;
      var n := |rows| - 1;
      HasTokenIff(rows[n]);
      PartIsThereIff(rows[..n], token);
      assert forall i :: 0 <= i < n ==> rows[..n][i] == rows[i];
    }
  }

  /**
   Acquisition is there exactly when some name has the token, and sums, metric by metric, over exactly
   the rows with it; sales is there exactly when some name has not, and sums over exactly the others.
   */
  lemma PartsOfReport(rows: seq<Row>)
    ensures var r := ReportOf(rows);
      && (r.acquisition.Some? <==> exists i :: 0 <= i < |rows| && HasToken(rows[i]))
      && (r.sales.Some? <==> exists i :: 0 <= i < |rows| && !HasToken(rows[i]))
      && (r.acquisition.Some? ==> EachSummedWhere(rows, true, r.acquisition.value.totals))
      && (r.sales.Some? ==> EachSummedWhere(rows, false, r.sales.value.totals))
      && EachSummed(rows, r.total.totals)
  {
    hide Sum, Part, HasToken, EachSummedWhere, EachSummed, Round2, Ctr, Cpm;
    PartIsThereIff(rows, true);
    PartIsThereIff(rows, false);
    PartIsSummed(rows, true);
    PartIsSummed(rows, false);
    SumsEachMetric(rows);
  }

  // ---------- Rates ----------

  /** `x` is `y` to the hundredth. */
  predicate About(x: real, y: real) {
    -0.005 <= x - y <= 0.005
  }

  /** Clicks per hundred impressions and spend per thousand, to the hundredth; none without impressions. */
  lemma RatesAre(rows: seq<Row>)
    ensures var s := Aggregate(rows); var n := s.totals.impressions;
      && (n > 0 ==> About(s.ctr, 100.0 * s.totals.clicks as real / n as real))
      && (n > 0 ==> About(s.cpm, 1000.0 * s.totals.spend / n as real))
      && (n <= 0 ==> s.ctr == 0.0 && s.cpm == 0.0)
  {
    hide Sum, RoundPositive;
    var t := Sum(rows);
    var _ := RoundNear(Ctr(t));
    var _ := RoundNear(Cpm(t));
    RoundZero();
    hide Round2;
    if t.impressions > 0 {
      Scaled(t.clicks as real, t.impressions as real, 100.0);
      Scaled(t.spend, t.impressions as real, 1000.0);
    }
  }

  lemma RoundZero()
    ensures Round2(0.0) == 0.0
  {
  }

  lemma Scaled(a: real, n: real, k: real)
    requires n > 0.0
    ensures (a / n) * k == k * a / n
  {
    var q := a / n;
    assert a == q * n;
    assert k * a == (k * q) * n;
  }

  predicate Between(x: real, a: real, b: real) {
    a <= x <= b || b <= x <= a
  }

  /** The quotient of sums lies between the quotients. */
  lemma Mediant(a: real, m: real, b: real, n: real)
    requires m > 0.0 && n > 0.0
    ensures Between((a + b) / (m + n), a / m, b / n)
  {
    var x, y, z := a / m, b / n, (a + b) / (m + n);
    assert a == x * m && b == y * n && a + b == z * (m + n);
    assert (z - x) * m == (y - z) * n;
    SameSign(z - x, m, y - z, n);
  }

  lemma SameSign(p: real, m: real, q: real, n: real)
    requires m > 0.0 && n > 0.0 && p * m == q * n
    ensures (p >= 0.0 && q >= 0.0) || (p <= 0.0 && q <= 0.0)
  {
    if p > 0.0 {
      assert p * m > 0.0;
    } else if p < 0.0 {
      assert (-p) * m > 0.0;
    }
  }

  lemma RoundPositiveMonotone(x: real, y: real)
    requires 0.0 <= x <= y
    ensures 0.0 <= RoundPositive(x) <= RoundPositive(y)
  {
    FloorMonotone(x * 100.0 + 0.5, y * 100.0 + 0.5);
    var p, q := (x * 100.0 + 0.5).Floor, (y * 100.0 + 0.5).Floor;
    assert 0 <= p <= q;
    assert 0.0 <= p as real <= q as real;
  }

  lemma FloorMonotone(u: real, v: real)
    requires u <= v
    ensures u.Floor <= v.Floor
  {
    assert (u.Floor as real) < (v.Floor + 1) as real;
  }

  lemma RoundMonotone(x: real, y: real)
    requires x <= y
    ensures Round2(x) <= Round2(y)
  {
    hide RoundPositive;
    if x >= 0.0 {
      RoundPositiveMonotone(x, y);
    } else if y < 0.0 {
      RoundPositiveMonotone(-y, -x);
    } else {
      RoundPositiveMonotone(y, y);
      RoundPositiveMonotone(-x, -x);
    }
  }

  lemma RoundBetween(x: real, a: real, b: real)
    requires Between(x, a, b)
    ensures Between(Round2(x), Round2(a), Round2(b))
  {
    hide Round2;
    if a <= x <= b {
      RoundMonotone(a, x);
      RoundMonotone(x, b);
    } else {
      RoundMonotone(b, x);
      RoundMonotone(x, a);
    }
  }

  /** A rounded rate is a whole number of hundredths, no more than half a hundredth away. */
  lemma RoundNear(x: real) returns (hundredths: int)
    ensures Round2(x) == hundredths as real / 100.0 && -0.005 <= Round2(x) - x <= 0.005
  {
    hundredths := if x < 0.0 then -(-x * 100.0 + 0.5).Floor else (x * 100.0 + 0.5).Floor;
  }

  /** When both parts were shown, the rates of the total, before and after rounding, lie between those of the parts. */
  lemma RatesBetweenParts(rows: seq<Row>)
    requires Sum(Part(rows, true)).impressions > 0 && Sum(Part(rows, false)).impressions > 0
    ensures var r := ReportOf(rows);
      && r.acquisition.Some? && r.sales.Some?
      && Between(Ctr(r.total.totals), Ctr(r.acquisition.value.totals), Ctr(r.sales.value.totals))
      && Between(Cpm(r.total.totals), Cpm(r.acquisition.value.totals), Cpm(r.sales.value.totals))
      && Between(r.total.ctr, r.acquisition.value.ctr, r.sales.value.ctr)
      && Between(r.total.cpm, r.acquisition.value.cpm, r.sales.value.cpm)
  {
    hide Sum, Part, Round2;
    EmptySum(Part(rows, true));
    EmptySum(Part(rows, false));
    PartsSum(rows);
    RatesBetween(Sum(Part(rows, true)), Sum(Part(rows, false)));
    var t, a, s := Sum(rows), Sum(Part(rows, true)), Sum(Part(rows, false));
    hide Ctr, Cpm;
    RoundBetween(Ctr(t), Ctr(a), Ctr(s));
    RoundBetween(Cpm(t), Cpm(a), Cpm(s));
  }

  lemma RatesBetween(a: Totals, s: Totals)
    requires a.impressions > 0 && s.impressions > 0
    ensures Between(Ctr(Plus(a, s)), Ctr(a), Ctr(s)) && Between(Cpm(Plus(a, s)), Cpm(a), Cpm(s))
  {
    Mediant(a.clicks as real, a.impressions as real, s.clicks as real, s.impressions as real);
    Mediant(a.spend, a.impressions as real, s.spend, s.impressions as real);
  }
}
