/** The cache keys of insight requests (campaign-reports.service.ts). */
module CacheKey {
  import opened Prelude
  import opened Sorting

  datatype Period = Range(since: string, until: string) | Preset(name: string)

  datatype Request = Request(
    account: string, level: string, period: Period,
    timeIncrement: Option<string>, breakdowns: Option<string>, thumbnails: bool,
    cursor: Option<string>)

  /** White space and line ends that `trim` removes (ECMA-262, sections 12.2 and 12.3). */
  predicate IsSpace(c: char) {
    c in "\t\n\r \U{B}\U{C}\U{A0}\U{1680}\U{2028}\U{2029}\U{202F}\U{205F}\U{3000}\U{FEFF}"
      || '\U{2000}' <= c <= '\U{200A}'
  }

  function TrimLeft(s: string): (r: string)
    ensures forall c :: c in r ==> c in s
  {
    if s != "" && IsSpace(s[0]) then TrimLeft(s[1..]) else s
  }

  function TrimRight(s: string): (r: string)
    ensures forall c :: c in r ==> c in s
  {
    if s != "" && IsSpace(s[|s| - 1]) then TrimRight(s[..|s| - 1]) else s
  }

  function Trim(s: string): (r: string)
    ensures forall c :: c in r ==> c in s
  {
    TrimRight(TrimLeft(s))
  }

  predicate AllSpace(s: string) {
    forall c :: c in s ==> IsSpace(c)
  }

  lemma {:induction false} TrimLeftIs(s: string) returns (before: string)
    ensures s == before + TrimLeft(s) && AllSpace(before)
    ensures TrimLeft(s) == "" || !IsSpace(TrimLeft(s)[0])
  {
    hide IsSpace;
    before := "";
    if s != "" && IsSpace(s[0]) {
      var rest := TrimLeftIs(s[1..]);
      before := [s[0]] + rest;
      assert s == [s[0]] + s[1..];
    }
  }

  lemma {:induction false} TrimRightIs(s: string) returns (after: string)
    ensures s == TrimRight(s) + after && AllSpace(after)
    ensures TrimRight(s) == "" || !IsSpace(TrimRight(s)[|TrimRight(s)| - 1])
  {
    hide IsSpace;
    after := "";
    if s != "" && IsSpace(s[|s| - 1]) {
      var rest := TrimRightIs(s[..|s| - 1]);
      after := rest + [s[|s| - 1]];
      assert s == s[..|s| - 1] + [s[|s| - 1]];
    }
  }

  /** Each token is what stands between two commas, without the white space around it. */
  lemma TokensAre(breakdowns: string, i: nat) returns (before: string, after: string)
    requires i < |Split(breakdowns, ',')|
    ensures |Tokens(breakdowns)| == |Split(breakdowns, ',')|
    ensures var token := Tokens(breakdowns)[i];
      && Split(breakdowns, ',')[i] == before + token + after && AllSpace(before) && AllSpace(after)
      && (token == "" || (!IsSpace(token[0]) && !IsSpace(token[|token| - 1])))
  {
    hide IsSpace, TrimLeft, TrimRight, Split;
    var part := Split(breakdowns, ',')[i];
    before := TrimLeftIs(part);
    after := TrimRightIs(TrimLeft(part));
    assert TrimRight(TrimLeft(part)) != "" ==> TrimRight(TrimLeft(part))[0] == TrimLeft(part)[0];
  }

  function Tokens(breakdowns: string): (tokens: seq<string>)
    ensures |tokens| >= 1
    ensures forall i :: 0 <= i < |tokens| ==> ',' !in tokens[i]
  {
    var parts := Split(breakdowns, ',');
    seq(|parts|, i requires 0 <= i < |parts| => Trim(parts[i]))
  }

  function SortedTokens(breakdowns: string): string {
    LexOrder();
    Join(Sort(Tokens(breakdowns), LexLe), ",")
  }

  function PeriodText(period: Period): string {
    match period
    case Range(since, until) => "since:" + since + ":until:" + until
    case Preset(name) => name
  }

  function Base(r: Request): string {
    "meta:insights:" + r.account + ":" + r.level + ":" + PeriodText(r.period)
  }

  function BuildInsightsCacheKey(base: string, cursor: Option<string>, timeIncrement: Option<string>,
                                 breakdowns: Option<string>, thumbnails: bool): string
  {
    var key := base;
    var key := if Truthy(timeIncrement).Some? then key + ":ti:" + timeIncrement.value else key;
    var key := if Truthy(breakdowns).Some? then key + ":bd:" + SortedTokens(breakdowns.value) else key;
    var key := if thumbnails then key + ":thumbs" else key;
    if Truthy(cursor).Some? then key + ":cursor:" + cursor.value else key
  }

  function Key(r: Request): string {
    BuildInsightsCacheKey(Base(r), r.cursor, r.timeIncrement, r.breakdowns, r.thumbnails)
  }

  // ---------- Reading a key ----------

  /** The text before the first colon, and the text after it if there is a colon. */
  function Cut(s: string): (string, Option<string>) {
    if s == "" then ("", None)
    else if s[0] == ':' then ("", Some(s[1..]))
    else var (a, rest) := Cut(s[1..]); ([s[0]] + a, rest)
  }

  /** Characters of the dates and times of ISO 8601, with any white space between date and time. */
  predicate IsDateChar(c: char) {
    '0' <= c <= '9' || c in "+-:.,TWZz" || IsSpace(c)
  }

  predicate DateText(s: string) {
    forall c :: c in s ==> IsDateChar(c)
  }

  /** A time holds colons too: the text before the first colon that no date goes on after. */
  function CutDate(s: string): (string, Option<string>) {
    if s == "" then ("", None)
    else if s[0] == ':' && |s| > 1 && !IsDateChar(s[1]) then ("", Some(s[1..]))
    else var (a, rest) := CutDate(s[1..]); ([s[0]] + a, rest)
  }

  /** What a key says about a request. */
  datatype Reading = Reading(
    account: string, level: string, period: Period,
    timeIncrement: Option<string>, breakdowns: Option<string>, thumbnails: bool,
    cursor: Option<string>)

  /** What it says between the account and the breakdowns, and the rest of it. */
  datatype Head = Head(level: string, period: Period, timeIncrement: Option<string>, rest: Option<string>)

  function ReadTagged(tag: string, s: Option<string>): (Option<string>, Option<string>) {
    match s
    case None => (None, None)
    case Some(t) =>
      if tag + ":" <= t then var (v, rest) := Cut(t[|tag| + 1..]); (Some(v), rest) else (None, s)
  }

  function ReadThumbs(s: Option<string>): (bool, Option<string>) {
    match s
    case None => (false, None)
    case Some(t) => if Cut(t).0 == "thumbs" then (true, Cut(t).1) else (false, s)
  }

  function ReadCursor(s: Option<string>): Option<string> {
    match s
    case None => None
    case Some(t) => if "cursor:" <= t then Some(t[7..]) else None
  }

  function ReadPeriod(s: string): (Period, Option<string>) {
    var (first, rest) := Cut(s);
    if first == "since" && rest.Some? then
      var (since, rest1) := CutDate(rest.value);
      var (_, rest2) := Cut(rest1.GetOr(""));
      var (until, rest3) := CutDate(rest2.GetOr(""));
      (Range(since, until), rest3)
    else (Preset(first), rest)
  }

  /** Reads what follows the account. */
  function ReadHead(s: string): Head {
    var (level, rest) := Cut(s);
    var (period, rest) := ReadPeriod(rest.GetOr(""));
    var (ti, rest) := ReadTagged("ti", rest);
    Head(level, period, ti, rest)
  }

  function Read(key: string): Reading
    requires "meta:insights:" <= key
  {
    var (account, rest) := Cut(key[14..]);
    var head := ReadHead(rest.GetOr(""));
    var (bd, rest) := ReadTagged("bd", head.rest);
    var (thumbs, rest) := ReadThumbs(rest);
    Reading(account, head.level, head.period, head.timeIncrement, bd, thumbs, ReadCursor(rest))
  }

  function Meant(r: Request): Reading {
    Reading(r.account, r.level, r.period, Truthy(r.timeIncrement),
            if Truthy(r.breakdowns).Some? then Some(SortedTokens(r.breakdowns.value)) else None,
            r.thumbnails, Truthy(r.cursor))
  }

  predicate Plain(s: string) {
    ':' !in s
  }

  /**
   Level, preset and increment hold no colon, as the enum values do not, and the dates are dates.
   Account, breakdowns and cursor are any text.
   */
  predicate Framed(r: Request) {
    && Plain(r.level)
    && (match r.period
        case Range(since, until) => DateText(since) && DateText(until)
        case Preset(name) => Plain(name) && name != "since")
    && (r.timeIncrement.Some? ==> Plain(r.timeIncrement.value))
  }

  /** Account and breakdowns hold no colon either, as `act_<digits>` and the documented breakdowns do not. */
  predicate WellFormed(r: Request) {
    Framed(r) && Plain(r.account) && (r.breakdowns.Some? ==> Plain(r.breakdowns.value))
  }

  /** The rest of a key: nothing, or a colon and more. */
  predicate IsTail(t: string) {
    t == "" || t[0] == ':'
  }

  function After(t: string): Option<string>
    requires IsTail(t)
  {
    if t == "" then None else Some(t[1..])
  }

  lemma {:induction false} CutAt(a: string, t: string)
    requires Plain(a) && IsTail(t)
    ensures Cut(a + t) == (a, After(t))
  {
    if a == "" {
      assert a + t == t;
    } else {
      CutAt(a[1..], t);
      assert (a + t)[1..] == a[1..] + t;
      assert [a[0]] + a[1..] == a;
    }
  }

  lemma {:induction false} CutFirst(a: string, t: string)
    requires IsTail(t)
    ensures Cut(a + t).0 == Cut(a).0
  {
    if a == "" {
      assert a + t == t;
    } else {
      CutFirst(a[1..], t);
      assert (a + t)[1..] == a[1..] + t;
    }
  }

  lemma {:induction false} CutDateAt(d: string, t: string)
    requires DateText(d) && (t == "" || (t[0] == ':' && |t| > 1 && !IsDateChar(t[1])))
    ensures CutDate(d + t) == (d, After(t))
  {
    hide IsDateChar;
    ColonInDate();
    if d == "" {
      assert d + t == t;
    } else {
      CutDateAt(d[1..], t);
      assert (d + t)[1..] == d[1..] + t;
      assert [d[0]] + d[1..] == d;
      assert |d| > 1 ==> d[1] in d;
    }
  }

  lemma ColonInDate()
    ensures IsDateChar(':')
  {
  }

  function CursorTail(cursor: Option<string>): (t: string)
    ensures IsTail(t)
  {
    if Truthy(cursor).Some? then ":cursor:" + cursor.value else ""
  }

  function ThumbsTail(r: Request): (t: string)
    ensures IsTail(t)
  {
    (if r.thumbnails then ":thumbs" else "") + CursorTail(r.cursor)
  }

  function BreakdownTail(r: Request): (t: string)
    ensures IsTail(t)
  {
    (if Truthy(r.breakdowns).Some? then ":bd:" + SortedTokens(r.breakdowns.value) else "") + ThumbsTail(r)
  }

  function IncrementTail(r: Request): (t: string)
    ensures IsTail(t)
  {
    (if Truthy(r.timeIncrement).Some? then ":ti:" + r.timeIncrement.value else "") + BreakdownTail(r)
  }

  // Appending part by part is appending the tail.
  lemma Glue(base: string, a: string, b: string, c: string, d: string)
    ensures base + a + b + c + d == base + (a + (b + (c + d)))
    ensures base + "" == base
  {
  }

  lemma BuiltFromTail(base: string, r: Request)
    ensures BuildInsightsCacheKey(base, r.cursor, r.timeIncrement, r.breakdowns, r.thumbnails)
      == base + IncrementTail(r)
  {
    hide SortedTokens;
    var a := if Truthy(r.timeIncrement).Some? then ":ti:" + r.timeIncrement.value else "";
    var b := if Truthy(r.breakdowns).Some? then ":bd:" + SortedTokens(r.breakdowns.value) else "";
    var c := if r.thumbnails then ":thumbs" else "";
    var d := CursorTail(r.cursor);
    Glue(base, a, b, c, d);
    Appended(base, a, ":ti:", r.timeIncrement);
    Glue(base + a, b, c, d, "");
    Glue(base + a + b, c, d, "", "");
    Glue(base + a + b + c, d, "", "", "");
    Appended(base + a, b, ":bd:", if Truthy(r.breakdowns).Some? then Some(SortedTokens(r.breakdowns.value)) else None);
    Appended(base + a + b + c, d, ":cursor:", r.cursor);
  }

  lemma KeyIsBaseAndTail(r: Request)
    ensures Key(r) == Base(r) + IncrementTail(r)
  {
    BuiltFromTail(Base(r), r);
  }

  lemma Appended(key: string, part: string, tag: string, o: Option<string>)
    requires o.Some? ==> part == tag + o.value || part == ""
    ensures o.Some? && part != "" ==> key + tag + o.value == key + part
  {
  }

  lemma CursorReadsBack(cursor: Option<string>)
    ensures ReadCursor(After(CursorTail(cursor))) == Truthy(cursor)
  {
    if Truthy(cursor).Some? {
      assert After(CursorTail(cursor)).value == "cursor:" + cursor.value;
    }
  }

  lemma ThumbsOf(segment: string, t: string)
    requires Plain(segment) && IsTail(t)
    ensures ReadThumbs(Some(segment + t))
      == if segment == "thumbs" then (true, After(t)) else (false, Some(segment + t))
  {
    CutAt(segment, t);
  }

  lemma ThumbsReadBack(r: Request)
    ensures ReadThumbs(After(ThumbsTail(r))) == (r.thumbnails, After(CursorTail(r.cursor)))
  {
    hide ReadThumbs;
    if r.thumbnails {
      ThumbsOf("thumbs", CursorTail(r.cursor));
      assert ThumbsTail(r)[1..] == "thumbs" + CursorTail(r.cursor);
    } else {
      assert ThumbsTail(r) == CursorTail(r.cursor);
      CursorIsNoThumbs(r.cursor);
    }
  }

  lemma CursorIsNoThumbs(cursor: Option<string>)
    ensures ReadThumbs(After(CursorTail(cursor))) == (false, After(CursorTail(cursor)))
  {
    if Truthy(cursor).Some? {
      ThumbsOf("cursor", ":" + cursor.value);
      assert "cursor"[0] != "thumbs"[0];
      assert CursorTail(cursor)[1..] == "cursor" + (":" + cursor.value);
    }
  }

  lemma TaggedReadsBack(tag: string, v: string, tail: string)
    requires Plain(v) && IsTail(tail)
    ensures ReadTagged(tag, Some(tag + ":" + v + tail)) == (Some(v), After(tail))
  {
    var t := tag + ":" + v + tail;
    CutAt(v, tail);
    assert t == (tag + ":") + (v + tail);
    assert t[|tag| + 1..] == v + tail;
  }

  // A text that differs from the tag at position `k` is left alone.
  lemma OtherTag(tag: string, t: string, k: nat)
    requires k < |tag| && k < |t| && t[k] != tag[k]
    ensures ReadTagged(tag, Some(t)) == (None, Some(t))
  {
    assert (tag + ":")[k] == tag[k];
  }

  lemma TailOfTag(marked: string, tag: string, v: string, tail: string)
    requires marked == ":" + tag
    ensures (marked + v + tail)[1..] == tag + v + tail
  {
  }

  lemma BreakdownReadsBack(r: Request)
    requires WellFormed(r)
    ensures ReadTagged("bd", After(BreakdownTail(r)))
      == (Meant(r).breakdowns, After(ThumbsTail(r)))
  {
    hide Join, Sort, Tokens;
    if Truthy(r.breakdowns).Some? {
      SortedTokensPlain(r.breakdowns.value);
      TaggedReadsBack("bd", SortedTokens(r.breakdowns.value), ThumbsTail(r));
      TailOfTag(":bd:", "bd" + ":", SortedTokens(r.breakdowns.value), ThumbsTail(r));
    } else if r.thumbnails {
      assert BreakdownTail(r) == ThumbsTail(r);
      OtherTag("bd", ThumbsTail(r)[1..], 0);
    } else if Truthy(r.cursor).Some? {
      assert BreakdownTail(r) == ThumbsTail(r);
      OtherTag("bd", ThumbsTail(r)[1..], 0);
    }
  }

  lemma IncrementReadsBack(r: Request)
    requires Framed(r)
    ensures ReadTagged("ti", After(IncrementTail(r)))
      == (Truthy(r.timeIncrement), After(BreakdownTail(r)))
  {
    hide Join, Sort, Tokens, ReadTagged, Cut;
    if Truthy(r.timeIncrement).Some? {
      TaggedReadsBack("ti", r.timeIncrement.value, BreakdownTail(r));
      assert IncrementTail(r)[1..] == "ti" + ":" + r.timeIncrement.value + BreakdownTail(r);
    } else {
      assert IncrementTail(r) == BreakdownTail(r);
      NoIncrement(r);
    }
  }

  lemma NoIncrement(r: Request)
    ensures ReadTagged("ti", After(BreakdownTail(r))) == (None, After(BreakdownTail(r)))
  {
    hide Join, Sort, Tokens;
    if Truthy(r.breakdowns).Some? {
      OtherTag("ti", BreakdownTail(r)[1..], 0);
    } else {
      assert BreakdownTail(r) == ThumbsTail(r);
      if r.thumbnails {
        OtherTag("ti", ThumbsTail(r)[1..], 1);
      } else if Truthy(r.cursor).Some? {
        OtherTag("ti", ThumbsTail(r)[1..], 0);
      }
    }
  }

  lemma {:induction false} JoinPlain(parts: seq<string>, sep: string)
    requires Plain(sep) && forall i :: 0 <= i < |parts| ==> Plain(parts[i])
    ensures Plain(Join(parts, sep))
  {
    if |parts| > 1 {
      JoinPlain(parts[1..], sep);
    }
  }

  lemma {:induction false} SplitPlain(s: string, sep: char)
    requires Plain(s)
    ensures forall i :: 0 <= i < |Split(s, sep)| ==> Plain(Split(s, sep)[i])
  {
    if s != "" {
      SplitPlain(s[1..], sep);
    }
  }

  lemma SortedTokensPlain(breakdowns: string)
    requires Plain(breakdowns)
    ensures Plain(SortedTokens(breakdowns))
  {
    hide Trim, Order, Sorted, LexLe, Sort;
    SplitPlain(breakdowns, ',');
    var tokens := Tokens(breakdowns);
    LexOrder();
    var sorted := Sort(tokens, LexLe);
    forall i | 0 <= i < |sorted|
      ensures Plain(sorted[i])
    {
      assert sorted[i] in multiset(tokens);
    }
    JoinPlain(sorted, ",");
  }

  // No tail goes on like a date.
  lemma TailIsNoDate(r: Request)
    ensures var t := IncrementTail(r); t == "" || (t[0] == ':' && |t| > 1 && !IsDateChar(t[1]))
  {
    hide SortedTokens;
    assert !IsDateChar('t') && !IsDateChar('b') && !IsDateChar('c');
  }

  lemma PeriodReadsBack(r: Request)
    requires Framed(r)
    ensures ReadPeriod(PeriodText(r.period) + IncrementTail(r)) == (r.period, After(IncrementTail(r)))
  {
    hide IncrementTail, Cut;
    match r.period
    case Preset(name) => CutAt(name, IncrementTail(r));
    case Range(since, until) =>
      TailIsNoDate(r);
      RangeReadsBack(since, until, IncrementTail(r));
  }

  lemma CutColon(a: string, rest: string)
    requires Plain(a)
    ensures Cut(a + ":" + rest) == (a, Some(rest))
  {
    CutAt(a, ":" + rest);
    assert a + ":" + rest == a + (":" + rest);
  }

  lemma RangeReadsBack(since: string, until: string, tail: string)
    requires DateText(since) && DateText(until)
    requires tail == "" || (tail[0] == ':' && |tail| > 1 && !IsDateChar(tail[1]))
    ensures ReadPeriod("since:" + since + ":until:" + until + tail) == (Range(since, until), After(tail))
  {
    var rest2 := until + tail;
    var rest1 := "until" + ":" + rest2;
    var rest0 := since + (":" + rest1);
    assert "since:" + since + ":until:" + until + tail == "since" + ":" + rest0;
    CutColon("since", rest0);
    assert !IsDateChar('u');
    CutDateAt(since, ":" + rest1);
    CutColon("until", rest2);
    CutDateAt(until, tail);
  }

  /** What a key says after the account. */
  function AfterAccount(r: Request): (t: string)
    ensures IsTail(t) && t != ""
  {
    ":" + (r.level + (":" + (PeriodText(r.period) + IncrementTail(r))))
  }

  lemma KeyShape(r: Request)
    ensures Key(r) == "meta:insights:" + (r.account + AfterAccount(r))
  {
    hide PeriodText, IncrementTail, BuildInsightsCacheKey;
    KeyIsBaseAndTail(r);
  }

  /** Everything between account and breakdowns can be read back, whatever these and the cursor hold. */
  lemma HeadReadsBack(r: Request)
    requires Framed(r)
    ensures ReadHead(AfterAccount(r)[1..])
      == Head(r.level, r.period, Truthy(r.timeIncrement), After(BreakdownTail(r)))
  {
    hide Cut, ReadTagged, ReadPeriod, IncrementTail, BreakdownTail, PeriodText;
    var afterLevel := ":" + (PeriodText(r.period) + IncrementTail(r));
    assert AfterAccount(r)[1..] == r.level + afterLevel;
    CutAt(r.level, afterLevel);
    assert afterLevel[1..] == PeriodText(r.period) + IncrementTail(r);
    PeriodReadsBack(r);
    IncrementReadsBack(r);
  }

  /** A key says all of the request, up to the order and spacing of the breakdowns. */
  lemma KeyReadsBack(r: Request)
    requires WellFormed(r)
    ensures "meta:insights:" <= Key(r) && Read(Key(r)) == Meant(r)
  {
    hide Key, Cut, ReadHead, ReadTagged, ReadThumbs, ReadCursor, SortedTokens, BreakdownTail, AfterAccount;
    KeyShape(r);
    assert Key(r)[14..] == r.account + AfterAccount(r);
    CutAt(r.account, AfterAccount(r));
    HeadReadsBack(r);
    BreakdownReadsBack(r);
    ThumbsReadBack(r);
    CursorReadsBack(r.cursor);
  }

  /** The two requests ask the same, up to the order and spacing of the breakdowns. */
  predicate Agree(r: Request, q: Request) {
    && SameHead(r, q)
    && r.thumbnails == q.thumbnails
    && Truthy(r.cursor) == Truthy(q.cursor)
    && Truthy(r.breakdowns).Some? == Truthy(q.breakdowns).Some?
    && (Truthy(r.breakdowns).Some? ==>
        multiset(Tokens(r.breakdowns.value)) == multiset(Tokens(q.breakdowns.value)))
  }

  lemma SortedTokensIff(b: string, c: string)
    ensures SortedTokens(b) == SortedTokens(c) <==> multiset(Tokens(b)) == multiset(Tokens(c))
  {
    LexOrder();
    SortIff(Tokens(b), Tokens(c));
    SplitSortedTokens(b);
    SplitSortedTokens(c);
  }

  lemma SplitSortedTokens(b: string)
    requires Order(LexLe)
    ensures Split(SortedTokens(b), ',') == Sort(Tokens(b), LexLe)
  {
    hide Trim, LexLe;
    var tokens := Tokens(b);
    var sorted := Sort(tokens, LexLe);
    assert |sorted| == |multiset(sorted)| == |multiset(tokens)| == |tokens|;
    forall i | 0 <= i < |sorted|
      ensures ',' !in sorted[i]
    {
      assert sorted[i] in multiset(tokens);
    }
    SplitJoin(sorted, ',');
  }

  // ---------- When keys meet ----------

  predicate SameHead(r: Request, q: Request) {
    && r.account == q.account && r.level == q.level && r.period == q.period
    && Truthy(r.timeIncrement) == Truthy(q.timeIncrement)
  }

  /**
   The breakdown text of `q` says what `r` says after its own: it is that of `r` and more, and the
   more, followed by what `q` says after it, is what `r` says of thumbnails and cursor.
   */
  predicate BreakdownsBlur(r: Request, q: Request) {
    && SameHead(r, q) && Truthy(r.breakdowns).Some? && Truthy(q.breakdowns).Some?
    && SortedTokens(r.breakdowns.value) < SortedTokens(q.breakdowns.value)
    && ThumbsTail(r) == SortedTokens(q.breakdowns.value)[|SortedTokens(r.breakdowns.value)|..] + ThumbsTail(q)
  }

  /** The account of `q` likewise says what `r` says after its own. */
  predicate AccountsBlur(r: Request, q: Request) {
    r.account < q.account && AfterAccount(r) == q.account[|r.account|..] + AfterAccount(q)
  }

  predicate Blurs(r: Request, q: Request) {
    BreakdownsBlur(r, q) || AccountsBlur(r, q)
  }

  /**
   Two requests share a key exactly when they ask the same, or the breakdown text or the account of one
   blurs into the rest of the other.
   */
  lemma KeysMeetIff(r: Request, q: Request)
    requires Framed(r) && Framed(q)
    ensures Key(r) == Key(q) <==> Agree(r, q) || Blurs(r, q) || Blurs(q, r)
  {
    hide Key, SortedTokens, Tokens, BreakdownTail, ThumbsTail, AfterAccount;
    SameKeyIff(r, q);
    SameRestIff(r, q);
    if SameHead(r, q) {
      BreakdownTailsMeetIff(r, q);
    }
  }

  lemma SameKeyIff(r: Request, q: Request)
    ensures Key(r) == Key(q)
      <==> (r.account == q.account && AfterAccount(r) == AfterAccount(q)) || AccountsBlur(r, q) || AccountsBlur(q, r)
  {
    hide Key, AfterAccount;
    KeyShape(r);
    KeyShape(q);
    assert Key(r)[14..] == r.account + AfterAccount(r) && Key(q)[14..] == q.account + AfterAccount(q);
    SplitOverIff(r.account, AfterAccount(r), q.account, AfterAccount(q));
  }

  lemma SameRestIff(r: Request, q: Request)
    requires Framed(r) && Framed(q)
    ensures r.account == q.account && AfterAccount(r) == AfterAccount(q)
      <==> SameHead(r, q) && BreakdownTail(r) == BreakdownTail(q)
  {
    if AfterAccount(r) == AfterAccount(q) {
      hide AfterAccount, ReadHead, BreakdownTail;
      HeadReadsBack(r);
      HeadReadsBack(q);
      AfterIsInjective(BreakdownTail(r), BreakdownTail(q));
    } else {
      hide BreakdownTail, PeriodText;
      assert Truthy(r.timeIncrement) == Truthy(q.timeIncrement) && BreakdownTail(r) == BreakdownTail(q)
        ==> IncrementTail(r) == IncrementTail(q);
    }
  }

  lemma AfterIsInjective(t: string, u: string)
    requires IsTail(t) && IsTail(u) && After(t) == After(u)
    ensures t == u
  {
    assert t != "" ==> t == ":" + t[1..];
    assert u != "" ==> u == ":" + u[1..];
  }

  lemma BreakdownTailsMeetIff(r: Request, q: Request)
    requires SameHead(r, q)
    ensures BreakdownTail(r) == BreakdownTail(q) <==> Agree(r, q) || BreakdownsBlur(r, q) || BreakdownsBlur(q, r)
  {
    hide SortedTokens, Tokens, ThumbsTail;
    TailsMeetIff(r, q);
    if Truthy(r.breakdowns).Some? && Truthy(q.breakdowns).Some? {
      var b, c := SortedTokens(r.breakdowns.value), SortedTokens(q.breakdowns.value);
      SortedTokensIff(r.breakdowns.value, q.breakdowns.value);
      assert BreakdownTail(r) == ":bd:" + (b + ThumbsTail(r));
      assert BreakdownTail(q) == ":bd:" + (c + ThumbsTail(q));
      assert (":bd:" + (b + ThumbsTail(r)))[4..] == b + ThumbsTail(r);
      assert (":bd:" + (c + ThumbsTail(q)))[4..] == c + ThumbsTail(q);
      SplitOverIff(b, ThumbsTail(r), c, ThumbsTail(q));
    } else {
      NoBreakdowns(r, q);
    }
  }

  // Where two texts that are cut at different places are equal.
  lemma SplitOverIff(a: string, s: string, b: string, t: string)
    ensures a + s == b + t
      <==> (a == b && s == t) || (a < b && s == b[|a|..] + t) || (b < a && t == a[|b|..] + s)
  {
    if a + s == b + t {
      assert (a + s)[..|a|] == a && (b + t)[..|b|] == b;
      assert (a + s)[|a|..] == s && (b + t)[|b|..] == t;
      if |a| <= |b| {
        assert (b + t)[..|a|] == b[..|a|];
        assert (b + t)[|a|..] == b[|a|..] + t;
      } else {
        assert (a + s)[..|b|] == a[..|b|];
        assert (a + s)[|b|..] == a[|b|..] + s;
      }
    } else {
      assert a <= b ==> a + (b[|a|..] + t) == b + t;
      assert b <= a ==> b + (a[|b|..] + s) == a + s;
    }
  }

  // The thumbnails and the cursor can be told from the end of a key.
  lemma TailsMeetIff(r: Request, q: Request)
    ensures ThumbsTail(r) == ThumbsTail(q)
      <==> r.thumbnails == q.thumbnails && Truthy(r.cursor) == Truthy(q.cursor)
  {
    hide ReadThumbs, ReadCursor, CursorTail;
    if ThumbsTail(r) == ThumbsTail(q) {
      ThumbsReadBack(r);
      ThumbsReadBack(q);
      CursorReadsBack(r.cursor);
      CursorReadsBack(q.cursor);
    } else {
      SameCursorTail(r.cursor, q.cursor);
    }
  }

  lemma SameCursorTail(c: Option<string>, d: Option<string>)
    ensures Truthy(c) == Truthy(d) ==> CursorTail(c) == CursorTail(d)
  {
  }

  // A key without breakdowns goes on differently from one with them.
  lemma NoBreakdowns(r: Request, q: Request)
    requires Truthy(r.breakdowns).None? || Truthy(q.breakdowns).None?
    ensures BreakdownTail(r) == BreakdownTail(q)
      <==> Truthy(r.breakdowns).None? && Truthy(q.breakdowns).None? && ThumbsTail(r) == ThumbsTail(q)
  {
    hide SortedTokens;
    NotMarked(r);
    NotMarked(q);
    assert "" + ThumbsTail(r) == ThumbsTail(r) && "" + ThumbsTail(q) == ThumbsTail(q);
    assert Truthy(r.breakdowns).Some? ==> BreakdownTail(r)[1] == 'b';
    assert Truthy(q.breakdowns).Some? ==> BreakdownTail(q)[1] == 'b';
  }

  lemma NotMarked(r: Request)
    ensures ThumbsTail(r) == "" || (|ThumbsTail(r)| > 1 && ThumbsTail(r)[1] != 'b')
  {
  }

  /**
   Blurring takes a colon in a breakdown text or an account, so without one two requests share a key
   exactly when they ask the same.
   */
  lemma PlainKeysMeetIff(r: Request, q: Request)
    requires WellFormed(r) && WellFormed(q)
    ensures Key(r) == Key(q) <==> Agree(r, q)
  {
    hide Key, Agree, SameHead, SortedTokens;
    KeysMeetIff(r, q);
    PlainDoesNotBlur(r, q);
    PlainDoesNotBlur(q, r);
  }

  lemma PlainDoesNotBlur(r: Request, q: Request)
    requires WellFormed(q)
    ensures !Blurs(r, q)
  {
    hide SortedTokens, SameHead, AfterAccount, Framed;
    if Truthy(r.breakdowns).Some? && Truthy(q.breakdowns).Some? {
      var b, c := SortedTokens(r.breakdowns.value), SortedTokens(q.breakdowns.value);
      SortedTokensPlain(q.breakdowns.value);
      assert b < c ==> c[|b|] in c && (c[|b|..] + ThumbsTail(q))[0] == c[|b|];
    }
    var n := |r.account|;
    assert r.account < q.account ==> q.account[n] in q.account && (q.account[n..] + AfterAccount(q))[0] == q.account[n];
  }

  /**
   The breakdowns are not checked to be the documented values. Free text with a colon makes two
   different requests meet: this one asks for no thumbnails, the other does.
   */
  lemma FreeTextBreakdownsMeet(r: Request)
    requires r.breakdowns == Some("age:thumbs") && !r.thumbnails
    ensures Key(r) == Key(r.(breakdowns := Some("age"), thumbnails := true))
  {
    var q := r.(breakdowns := Some("age"), thumbnails := true);
    hide Join, Sort, Tokens, BreakdownTail;
    SameTail(r, q);
    KeyIsBaseAndTail(r);
    KeyIsBaseAndTail(q);
  }

  lemma SameTail(r: Request, q: Request)
    requires r.breakdowns == Some("age:thumbs") && q.breakdowns == Some("age")
    requires !r.thumbnails && q.thumbnails && r.cursor == q.cursor
    ensures BreakdownTail(r) == BreakdownTail(q)
  {
    hide SortedTokens, Truthy;
    OneToken(q.breakdowns.value);
    OneToken(r.breakdowns.value);
    TruthyWhenSet(r.breakdowns);
    TruthyWhenSet(q.breakdowns);
    SameText(CursorTail(r.cursor));
  }

  lemma SameText(d: string)
    ensures ":bd:" + "age:thumbs" + ("" + d) == ":bd:" + "age" + (":thumbs" + d)
  {
  }

  lemma TruthyWhenSet(o: Option<string>)
    ensures o.Some? && |o.value| > 0 ==> Truthy(o) == o
  {
  }

  lemma OneToken(b: string)
    requires b != "" && ',' !in b && !IsSpace(b[0]) && !IsSpace(b[|b| - 1])
    ensures SortedTokens(b) == b
  {
    LexOrder();
    SplitPrefix(b, "", ',');
    assert b + "" == b;
    assert Tokens(b) == [b];
    assert Sort([b], LexLe) == [b];
  }
}
