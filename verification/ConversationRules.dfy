/**
 The auto-reply rules of the clients (conversation-rules.service.ts) and the icebreaker buttons that
 the Instagram page of each client shows (icebreaker-sync.service.ts).
 */
module ConversationRules {
  import opened Prelude

  datatype RuleType = PostComment | KeywordDm | Icebreaker | Default

  datatype Reply = Reply(text: string, quickReplies: seq<string>, buttonText: string, buttonUrl: string)

  datatype Rule = Rule(
    clientId: string, kind: RuleType, triggerValue: Option<string>, reply: Reply,
    commentKeyword: Option<string>, publicReply: Option<string>, question: Option<string>,
    isActive: bool, isDeleted: bool)

  /** A button of the page: what it asks, and what a tap on it sends back. */
  datatype Button = Button(question: string, payload: string)

  /** The rule table (a rule's id is its place), and the buttons of each client that has a page. */
  datatype World = World(rules: seq<Rule>, remote: map<string, seq<Button>>)

  /** `Duplicate`: the unique index of the table refuses the row. */
  datatype Error = BadRequest | Conflict | NotFound | SyncFailed | Duplicate

  /** `synced`: the buttons of the page were overwritten on the way. */
  datatype Outcome = Refused(error: Error) | Done(synced: bool)

  // ---------- Checks ----------

  predicate ReplyEmpty(r: Reply) {
    (r.text == "" && r.quickReplies == [] && r.buttonUrl == "")
    || ((r.buttonText != "" || r.buttonUrl != "") && r.text == "")
  }

  predicate ButtonOnPostComment(kind: RuleType, r: Reply) {
    kind == PostComment && (r.buttonText != "" || r.buttonUrl != "")
  }

  // ---------- The buttons ----------

  predicate Shows(r: Rule, clientId: string) {
    r.clientId == clientId && r.kind == Icebreaker && r.isActive && !r.isDeleted
  }

  function ButtonOf(r: Rule): Button {
    Button(r.question.GetOr(""), r.triggerValue.GetOr(""))
  }

  /** The buttons of the active icebreaker rules of a client, but for the rule `except`. */
  function ActiveButtons(rules: seq<Rule>, clientId: string, except: Option<nat>): seq<Button> {
    if rules == [] then []
    else
      var n := |rules| - 1;
      var rest := ActiveButtons(rules[..n], clientId, except);
      if Shows(rules[n], clientId) && except != Some(n) then rest + [ButtonOf(rules[n])] else rest
  }

  function Buttons(w: World, clientId: string): seq<Button> {
    ActiveButtons(w.rules, clientId, None)
  }

  const MAX_ICEBREAKERS := 4

  /** Overwrites the buttons of the client's page; a failed call leaves them as they are. */
  function Sync(w: World, clientId: string, buttons: seq<Button>, online: bool): Result<World, Error> {
    if clientId !in w.remote then Err(BadRequest)
    else if !online then Err(SyncFailed)
    else Ok(w.(remote := w.remote[clientId := buttons]))
  }

  function SyncIfIcebreaker(w: World, clientId: string, except: Option<nat>, addition: seq<Button>, online: bool)
    : Result<World, Error>
  {
    var prospective := ActiveButtons(w.rules, clientId, except) + addition;
    if |prospective| > MAX_ICEBREAKERS then Err(Conflict) else Sync(w, clientId, prospective, online)
  }

  // ---------- The operations ----------

  datatype CreateDto = CreateDto(
    clientId: string, kind: RuleType, triggerValue: Option<string>, reply: Reply,
    commentKeyword: Option<string>, publicReply: Option<string>, question: Option<string>)

  /** An icebreaker comes with its question; the checks on the request see to it. */
  predicate ValidDto(dto: CreateDto) {
    dto.kind == Icebreaker ==> dto.question.Some?
  }

  predicate Matches(r: Rule, clientId: string, kind: RuleType, triggerValue: Option<string>) {
    r.clientId == clientId && r.kind == kind && r.triggerValue == triggerValue && !r.isDeleted
  }

  predicate Exists(rules: seq<Rule>, clientId: string, kind: RuleType, triggerValue: Option<string>) {
    exists i :: 0 <= i < |rules| && Matches(rules[i], clientId, kind, triggerValue)
  }

  /** What the unique index sees of a trigger: a missing one is the empty text. */
  function IndexKey(r: Rule): string {
    r.triggerValue.GetOr("")
  }

  /** Two live rules that are one to the index. */
  predicate Clash(r: Rule, q: Rule) {
    && !r.isDeleted && !q.isDeleted
    && r.clientId == q.clientId && r.kind == q.kind && IndexKey(r) == IndexKey(q)
  }

  /** The table takes `r`, as a new row or in place of the row `at`. */
  predicate TableTakes(rules: seq<Rule>, r: Rule, at: Option<nat>) {
    forall i :: 0 <= i < |rules| && at != Some(i) ==> !Clash(rules[i], r)
  }

  function TriggerFor(dto: CreateDto, uuid: string): Option<string> {
    match dto.kind
    case Default => None
    case Icebreaker => Some(uuid)
    case _ => dto.triggerValue
  }

  function NewRule(dto: CreateDto, uuid: string): Rule {
    Rule(dto.clientId, dto.kind, TriggerFor(dto, uuid), dto.reply,
         if dto.kind == PostComment then dto.commentKeyword else None,
         if dto.kind == PostComment then dto.publicReply else None,
         if dto.kind == Icebreaker then dto.question else None, true, false)
  }

  function CreateStep(w: World, dto: CreateDto, uuid: string, online: bool): (World, Outcome) {
    var rule := NewRule(dto, uuid);
    if ReplyEmpty(dto.reply) || ButtonOnPostComment(dto.kind, dto.reply) then (w, Refused(BadRequest))
    else if Exists(w.rules, dto.clientId, dto.kind, rule.triggerValue) then (w, Refused(Conflict))
    else if dto.kind == Icebreaker then
      match SyncIfIcebreaker(w, dto.clientId, None, [ButtonOf(rule)], online)
      case Err(e) => (w, Refused(e))
      case Ok(synced) =>
        if !TableTakes(w.rules, rule, None) then (synced, Refused(Duplicate))
        else (synced.(rules := w.rules + [rule]), Done(true))
    else if !TableTakes(w.rules, rule, None) then (w, Refused(Duplicate))
    else (w.(rules := w.rules + [rule]), Done(false))
  }

  /** Fields that are absent stay as they are. */
  datatype UpdateDto = UpdateDto(
    isActive: Option<bool>, triggerValue: Option<string>, reply: Option<Reply>,
    commentKeyword: Option<string>, publicReply: Option<string>, question: Option<string>)

  function Or<T>(o: Option<T>, otherwise: Option<T>): Option<T> {
    if o.Some? then o else otherwise
  }

  function Merge(r: Rule, dto: UpdateDto): Rule {
    r.(isActive := dto.isActive.GetOr(r.isActive), triggerValue := Or(dto.triggerValue, r.triggerValue),
       reply := dto.reply.GetOr(r.reply), commentKeyword := Or(dto.commentKeyword, r.commentKeyword),
       publicReply := Or(dto.publicReply, r.publicReply), question := Or(dto.question, r.question))
  }

  predicate Owned(w: World, id: nat, clientId: string) {
    id < |w.rules| && w.rules[id].clientId == clientId && !w.rules[id].isDeleted
  }

  /** The trigger of such a rule is given on creation and stays. */
  predicate HasOneKey(kind: RuleType) {
    kind == Icebreaker || kind == Default
  }

  /** What the service checks before it saves an update. */
  function UpdateRefusal(w: World, id: nat, clientId: string, dto: UpdateDto): Option<Error> {
    if dto.reply.Some? && ReplyEmpty(dto.reply.value) then Some(BadRequest)
    else if !Owned(w, id, clientId) then Some(NotFound)
    else if dto.reply.Some? && ButtonOnPostComment(w.rules[id].kind, dto.reply.value) then Some(BadRequest)
    else if dto.triggerValue.Some? && HasOneKey(w.rules[id].kind) then Some(BadRequest)
    else None
  }

  /** The last step of an update: the rule is saved if the table takes it, with the page synced before or not. */
  function SaveUpdate(w: World, id: nat, r: Rule, synced: bool): (World, Outcome)
    requires id < |w.rules|
  {
    if TableTakes(w.rules, r, Some(id)) then (w.(rules := w.rules[id := r]), Done(synced))
    else (w, Refused(Duplicate))
  }

  function UpdateStep(w: World, id: nat, clientId: string, dto: UpdateDto, online: bool): (World, Outcome) {
    var refusal := UpdateRefusal(w, id, clientId, dto);
    if refusal.Some? then (w, Refused(refusal.value))
    else
      var rule, r := w.rules[id], Merge(w.rules[id], dto);
      if rule.kind != Icebreaker then SaveUpdate(w, id, r, false)
      else if dto.isActive.GetOr(rule.isActive) then
        match SyncIfIcebreaker(w, clientId, Some(id), [ButtonOf(r)], online)
        case Err(e) => (w, Refused(e))
        case Ok(synced) => SaveUpdate(synced, id, r, true)
      else
        match SyncIfIcebreaker(w, clientId, Some(id), [], online)
        case Err(_) => SaveUpdate(w, id, r, false)
        case Ok(synced) => SaveUpdate(synced, id, r, true)
  }

  function RemoveStep(w: World, id: nat, clientId: string, online: bool): (World, Outcome) {
    if !Owned(w, id, clientId) then (w, Refused(NotFound))
    else
      var after := w.rules[id := w.rules[id].(isDeleted := true)];
      if w.rules[id].kind != Icebreaker then (w.(rules := after), Done(false))
      else
        match SyncIfIcebreaker(w, clientId, Some(id), [], online)
        case Err(_) => (w.(rules := after), Done(false))
        case Ok(synced) => (synced.(rules := after), Done(true))
  }

  class ConversationRulesService {
    var rules: seq<Rule>
    var remote: map<string, seq<Button>>

    function Current(): World
      reads this
    {
      World(rules, remote)
    }

    constructor (pages: map<string, seq<Button>>)
      ensures Current() == World([], pages)
    {
      rules, remote := [], pages;
    }

    /** Overwrites the buttons of the client's page. */
    method SyncPage(clientId: string, activeRules: seq<Button>, online: bool) returns (failure: Option<Error>)
      modifies `remote
      ensures match Sync(old(Current()), clientId, activeRules, online)
        case Ok(after) => Current() == after && failure == None
        case Err(e) => Current() == old(Current()) && failure == Some(e)
    {
      if clientId !in remote {
        return Some(BadRequest);
      }
      if !online {
        return Some(SyncFailed);
      }
      remote := remote[clientId := activeRules];
      failure := None;
    }

    method SyncIfIcebreakerRule(clientId: string, excludeId: Option<nat>, addition: seq<Button>, online: bool)
      returns (failure: Option<Error>)
      modifies `remote
      ensures match SyncIfIcebreaker(old(Current()), clientId, excludeId, addition, online)
        case Ok(after) => Current() == after && failure == None
        case Err(e) => Current() == old(Current()) && failure == Some(e)
    {
      var remaining := ActiveButtons(rules, clientId, excludeId);
      var prospective := remaining + addition;
      if |prospective| > MAX_ICEBREAKERS {
        return Some(Conflict);
      }
      failure := SyncPage(clientId, prospective, online);
    }

    method Create(dto: CreateDto, uuid: string, online: bool) returns (outcome: Outcome)
      modifies this
      ensures (Current(), outcome) == CreateStep(old(Current()), dto, uuid, online)
    {
      if ReplyEmpty(dto.reply) || ButtonOnPostComment(dto.kind, dto.reply) {
        return Refused(BadRequest);
      }
      var rule := NewRule(dto, uuid);
      if Exists(rules, dto.clientId, dto.kind, rule.triggerValue) {
        return Refused(Conflict);
      }
      if dto.kind == Icebreaker {
        var failure := SyncIfIcebreakerRule(dto.clientId, None, [ButtonOf(rule)], online);
        if failure.Some? {
          return Refused(failure.value);
        }
      }
      if !TableTakes(rules, rule, None) {
        return Refused(Duplicate);
      }
      rules := rules + [rule];
      outcome := Done(dto.kind == Icebreaker);
    }

    method Update(id: nat, clientId: string, dto: UpdateDto, online: bool) returns (outcome: Outcome)
      modifies this
      ensures (Current(), outcome) == UpdateStep(old(Current()), id, clientId, dto, online)
    {
      if dto.reply.Some? && ReplyEmpty(dto.reply.value) {
        return Refused(BadRequest);
      }
      if !Owned(Current(), id, clientId) {
        return Refused(NotFound);
      }
      var rule := rules[id];
      if dto.reply.Some? && ButtonOnPostComment(rule.kind, dto.reply.value) {
        return Refused(BadRequest);
      }
      if dto.triggerValue.Some? && (rule.kind == Icebreaker || rule.kind == Default) {
        return Refused(BadRequest);
      }
      var synced := false;
      if rule.kind == Icebreaker {
        var willBeActive := dto.isActive.GetOr(rule.isActive);
        if willBeActive {
          var button := Button(Or(dto.question, rule.question).GetOr(""), rule.triggerValue.GetOr(""));
          var failure := SyncIfIcebreakerRule(clientId, Some(id), [button], online);
          if failure.Some? {
            return Refused(failure.value);
          }
          synced := true;
        } else {
          var failure := SyncIfIcebreakerRule(clientId, Some(id), [], online);
          synced := failure.None?;
        }
      }
      if !TableTakes(rules, Merge(rule, dto), Some(id)) {
        return Refused(Duplicate);
      }
      rules := rules[id := Merge(rule, dto)];
      outcome := Done(synced);
    }

    method Remove(id: nat, clientId: string, online: bool) returns (outcome: Outcome)
      modifies this
      ensures (Current(), outcome) == RemoveStep(old(Current()), id, clientId, online)
    {
      if !Owned(Current(), id, clientId) {
        return Refused(NotFound);
      }
      var synced := false;
      if rules[id].kind == Icebreaker {
        var failure := SyncIfIcebreakerRule(clientId, Some(id), [], online);
        synced := failure.None?;
      }
      rules := rules[id := rules[id].(isDeleted := true)];
      outcome := Done(synced);
    }
  }

  // ---------- What every step keeps ----------

  function OnPage(w: World, clientId: string): seq<Button> {
    if clientId in w.remote then w.remote[clientId] else []
  }

  /** The page of the client shows (at least) every active icebreaker rule, with its question and payload. */
  ghost predicate Covers(w: World, clientId: string) {
    multiset(Buttons(w, clientId)) <= multiset(OnPage(w, clientId))
  }

  /** The page shows exactly the active icebreaker rules. */
  ghost predicate InStep(w: World, clientId: string) {
    clientId in w.remote && multiset(w.remote[clientId]) == multiset(Buttons(w, clientId))
  }

  /** A client has one live rule per type and trigger. */
  ghost predicate TriggersUnique(rules: seq<Rule>) {
    forall i, j :: 0 <= i < j < |rules| ==> !Clash(rules[i], rules[j])
  }

  /** What never changes in a rule. */
  ghost predicate Follows(v: World, w: World) {
    && |v.rules| <= |w.rules| && v.remote.Keys == w.remote.Keys
    && forall i :: 0 <= i < |v.rules| ==>
      && w.rules[i].kind == v.rules[i].kind && w.rules[i].clientId == v.rules[i].clientId
      && (HasOneKey(v.rules[i].kind) ==> w.rules[i].triggerValue == v.rules[i].triggerValue)
      && (v.rules[i].isDeleted ==> w.rules[i] == v.rules[i])
  }

  /** The button of one rule, if the page should show it. */
  function Own(r: Rule, c: string): multiset<Button> {
    if Shows(r, c) then multiset{ButtonOf(r)} else multiset{}
  }

  lemma {:induction false} NotExcepted(rules: seq<Rule>, c: string, i: nat)
    requires |rules| <= i
    ensures ActiveButtons(rules, c, Some(i)) == ActiveButtons(rules, c, None)
  {
    if rules != [] {
      NotExcepted(rules[..|rules| - 1], c, i);
    }
  }

  lemma {:induction false} ExceptedDoesNotMatter(rules: seq<Rule>, i: nat, r: Rule, c: string)
    requires i < |rules|
    ensures ActiveButtons(rules[i := r], c, Some(i)) == ActiveButtons(rules, c, Some(i))
  {
    hide Shows, ButtonOf;
    var n := |rules| - 1;
    var after := rules[i := r];
    if i < n {
      ExceptedDoesNotMatter(rules[..n], i, r, c);
      assert after[..n] == rules[..n][i := r];
    } else {
      assert after[..n] == rules[..n];
    }
  }

  lemma {:induction false} OneByOne(rules: seq<Rule>, i: nat, c: string)
    requires i < |rules|
    ensures multiset(ActiveButtons(rules, c, None)) == multiset(ActiveButtons(rules, c, Some(i))) + Own(rules[i], c)
  {
    hide ActiveButtons, Own;
    var n := |rules| - 1;
    if i < n {
      OneByOne(rules[..n], i, c);
      LastButton(rules, c, None);
      LastButton(rules, c, Some(i));
    } else {
      LastButton(rules, c, None);
      LastButton(rules, c, Some(i));
      NotExcepted(rules[..n], c, n);
    }
  }

  lemma LastButton(rules: seq<Rule>, c: string, except: Option<nat>)
    requires rules != []
    ensures var n := |rules| - 1;
      multiset(ActiveButtons(rules, c, except))
        == multiset(ActiveButtons(rules[..n], c, except)) + if except == Some(n) then multiset{} else Own(rules[n], c)
  {
  }

  // Changing one rule moves at most its own button.
  lemma ButtonsAfterChange(rules: seq<Rule>, i: nat, r: Rule, c: string)
    requires i < |rules|
    ensures multiset(ActiveButtons(rules[i := r], c, None)) == multiset(ActiveButtons(rules, c, Some(i))) + Own(r, c)
    ensures multiset(ActiveButtons(rules, c, None)) == multiset(ActiveButtons(rules, c, Some(i))) + Own(rules[i], c)
  {
    hide ActiveButtons, Own;
    OneByOne(rules, i, c);
    OneByOne(rules[i := r], i, c);
    ExceptedDoesNotMatter(rules, i, r, c);
  }

  lemma ButtonsAfterAppend(rules: seq<Rule>, r: Rule, c: string)
    ensures multiset(ActiveButtons(rules + [r], c, None)) == multiset(ActiveButtons(rules, c, None)) + Own(r, c)
    ensures ActiveButtons(rules + [r], c, None)
      == ActiveButtons(rules, c, None) + (if Shows(r, c) then [ButtonOf(r)] else [])
  {
    assert (rules + [r])[..|rules|] == rules;
  }

  lemma Sizes(a: seq<Button>, b: seq<Button>)
    requires multiset(a) <= multiset(b)
    ensures |a| <= |b|
  {
    assert |multiset(a)| == |a| && |multiset(b)| == |b|;
    assert multiset(b) == multiset(a) + (multiset(b) - multiset(a));
  }

  ghost predicate ButtonsInv(w: World) {
    forall c :: |Buttons(w, c)| <= MAX_ICEBREAKERS && Covers(w, c)
  }

  /** After overwriting the page of `c` with the buttons its rules are about to have, it is in step. */
  lemma SyncedKeepsButtons(w: World, rules: seq<Rule>, c: string, buttons: seq<Button>)
    requires ButtonsInv(w) && c in w.remote && |buttons| <= MAX_ICEBREAKERS
    requires multiset(ActiveButtons(rules, c, None)) == multiset(buttons)
    requires forall d :: d != c ==> multiset(ActiveButtons(rules, d, None)) == multiset(Buttons(w, d))
    ensures var after := World(rules, w.remote[c := buttons]); ButtonsInv(after) && InStep(after, c)
  {
    hide ActiveButtons;
    var after := World(rules, w.remote[c := buttons]);
    Sizes(Buttons(after, c), buttons);
    forall d | d != c
      ensures |Buttons(after, d)| <= MAX_ICEBREAKERS && Covers(after, d)
    {
      assert Covers(w, d) && OnPage(after, d) == OnPage(w, d);
      Sizes(Buttons(after, d), Buttons(w, d));
    }
  }

  /** A page may show more than its rules: that of a rule that the table then refuses. */
  lemma MoreShownKeepsButtons(w: World, c: string, buttons: seq<Button>)
    requires ButtonsInv(w) && c in w.remote && multiset(Buttons(w, c)) <= multiset(buttons)
    ensures ButtonsInv(w.(remote := w.remote[c := buttons]))
  {
    hide ActiveButtons;
    var after := w.(remote := w.remote[c := buttons]);
    forall d
      ensures |Buttons(after, d)| <= MAX_ICEBREAKERS && Covers(after, d)
    {
      assert Covers(w, d) && |Buttons(w, d)| <= MAX_ICEBREAKERS;
    }
  }

  /** With the page left as it is, taking buttons away keeps it covering the rest. */
  lemma FewerKeepsButtons(w: World, rules: seq<Rule>)
    requires ButtonsInv(w)
    requires forall d :: multiset(ActiveButtons(rules, d, None)) <= multiset(Buttons(w, d))
    ensures ButtonsInv(w.(rules := rules))
  {
    forall d
      ensures |Buttons(w.(rules := rules), d)| <= MAX_ICEBREAKERS && Covers(w.(rules := rules), d)
    {
      assert Covers(w, d);
      Sizes(ActiveButtons(rules, d, None), Buttons(w, d));
    }
  }

  /** One changed rule: what it does to the buttons of every client. */
  lemma ChangeMoves(rules: seq<Rule>, i: nat, r: Rule)
    requires i < |rules| && r.clientId == rules[i].clientId
    ensures forall d :: d != r.clientId ==>
      multiset(ActiveButtons(rules[i := r], d, None)) == multiset(ActiveButtons(rules, d, None))
    ensures !Shows(r, r.clientId) ==>
      forall d :: multiset(ActiveButtons(rules[i := r], d, None)) <= multiset(ActiveButtons(rules, d, None))
  {
    hide ActiveButtons;
    forall d
      ensures d != r.clientId ==>
        multiset(ActiveButtons(rules[i := r], d, None)) == multiset(ActiveButtons(rules, d, None))
      ensures !Shows(r, r.clientId) ==>
        multiset(ActiveButtons(rules[i := r], d, None)) <= multiset(ActiveButtons(rules, d, None))
    {
      ButtonsAfterChange(rules, i, r, d);
    }
  }

  // ---------- Every step ----------

  lemma CreateKeepsButtons(w: World, dto: CreateDto, uuid: string, online: bool)
    requires ButtonsInv(w)
    ensures var (after, outcome) := CreateStep(w, dto, uuid, online);
      ButtonsInv(after) && (outcome == Done(true) ==> InStep(after, dto.clientId))
  {
    hide ActiveButtons, ButtonsInv, InStep;
    var rule := NewRule(dto, uuid);
    var rules := w.rules + [rule];
    var (after, outcome) := CreateStep(w, dto, uuid, online);
    var buttons := Buttons(w, dto.clientId) + [ButtonOf(rule)];
    if outcome == Done(true) {
      AppendMoves(w.rules, rule);
      SyncedKeepsButtons(w, rules, dto.clientId, buttons);
    } else if outcome == Refused(Duplicate) && dto.kind == Icebreaker {
      MoreShownKeepsButtons(w, dto.clientId, buttons);
    } else if outcome == Done(false) {
      AppendMoves(w.rules, rule);
      FewerKeepsButtons(w, rules);
    }
  }

  /** A new rule moves at most the buttons of its own client. */
  lemma AppendMoves(rules: seq<Rule>, rule: Rule)
    ensures forall d :: d != rule.clientId || !Shows(rule, d) ==>
      multiset(ActiveButtons(rules + [rule], d, None)) == multiset(ActiveButtons(rules, d, None))
    ensures Shows(rule, rule.clientId) ==>
      multiset(ActiveButtons(rules + [rule], rule.clientId, None))
        == multiset(ActiveButtons(rules, rule.clientId, None) + [ButtonOf(rule)])
  {
    hide ActiveButtons;
    forall d
      ensures multiset(ActiveButtons(rules + [rule], d, None)) == multiset(ActiveButtons(rules, d, None)) + Own(rule, d)
    {
      ButtonsAfterAppend(rules, rule, d);
    }
  }

  // The shared end of an update or removal: the rule is replaced, with the page synced or not.
  lemma ReplaceKeepsButtons(w: World, i: nat, r: Rule, addition: seq<Button>, online: bool)
    requires ButtonsInv(w) && i < |w.rules| && r.clientId == w.rules[i].clientId
    requires addition == if Shows(r, r.clientId) then [ButtonOf(r)] else []
    ensures match SyncIfIcebreaker(w, r.clientId, Some(i), addition, online)
      case Ok(synced) =>
        var after := synced.(rules := w.rules[i := r]); ButtonsInv(after) && InStep(after, r.clientId)
      case Err(_) => addition == [] ==> ButtonsInv(w.(rules := w.rules[i := r]))
  {
    hide ActiveButtons;
    var c := r.clientId;
    var buttons := ActiveButtons(w.rules, c, Some(i)) + addition;
    ButtonsAfterChange(w.rules, i, r, c);
    ChangeMoves(w.rules, i, r);
    var result := SyncIfIcebreaker(w, c, Some(i), addition, online);
    if result.Ok? {
      SyncedKeepsButtons(w, w.rules[i := r], c, buttons);
    } else if addition == [] {
      FewerKeepsButtons(w, w.rules[i := r]);
    }
  }

  // An icebreaker keeps its trigger, so the table takes it back.
  lemma IcebreakerIsTaken(rules: seq<Rule>, id: nat, r: Rule)
    requires TriggersUnique(rules) && id < |rules| && !rules[id].isDeleted
    requires r.clientId == rules[id].clientId && r.kind == rules[id].kind && r.triggerValue == rules[id].triggerValue
    ensures TableTakes(rules, r, Some(id))
  {
    forall i | 0 <= i < |rules| && i != id
      ensures !Clash(rules[i], r)
    {
      assert if i < id then !Clash(rules[i], rules[id]) else !Clash(rules[id], rules[i]);
    }
  }

  lemma UpdateKeepsButtons(w: World, id: nat, clientId: string, dto: UpdateDto, online: bool)
    requires ButtonsInv(w) && TriggersUnique(w.rules)
    ensures var (after, outcome) := UpdateStep(w, id, clientId, dto, online);
      ButtonsInv(after) && (outcome == Done(true) ==> InStep(after, clientId))
  {
    hide ActiveButtons, ButtonsInv, InStep, TriggersUnique, TableTakes, SyncIfIcebreaker;
    if UpdateRefusal(w, id, clientId, dto).None? {
      var rule := w.rules[id];
      var r := Merge(rule, dto);
      if rule.kind != Icebreaker {
        ChangeMoves(w.rules, id, r);
        FewerKeepsButtons(w, w.rules[id := r]);
      } else {
        IcebreakerIsTaken(w.rules, id, r);
        SyncKeepsRules(w, clientId, Some(id), if Shows(r, clientId) then [ButtonOf(r)] else [], online);
        ReplaceKeepsButtons(w, id, r, if Shows(r, clientId) then [ButtonOf(r)] else [], online);
      }
    }
  }

  lemma SyncKeepsRules(w: World, clientId: string, except: Option<nat>, addition: seq<Button>, online: bool)
    ensures var result := SyncIfIcebreaker(w, clientId, except, addition, online);
      result.Ok? ==> result.value.rules == w.rules && result.value.remote.Keys == w.remote.Keys
  {
  }

  lemma RemoveKeepsButtons(w: World, id: nat, clientId: string, online: bool)
    requires ButtonsInv(w)
    ensures var (after, outcome) := RemoveStep(w, id, clientId, online);
      ButtonsInv(after) && (outcome == Done(true) ==> InStep(after, clientId))
  {
    if Owned(w, id, clientId) {
      var r := w.rules[id].(isDeleted := true);
      ReplaceKeepsButtons(w, id, r, [], online);
      ChangeMoves(w.rules, id, r);
      FewerKeepsButtons(w, w.rules[id := r]);
    }
  }

  datatype Op =
    | Create(dto: CreateDto, uuid: string, online: bool)
    | Update(id: nat, clientId: string, change: UpdateDto, online: bool)
    | Remove(id: nat, clientId: string, online: bool)

  function Step(w: World, op: Op): (World, Outcome) {
    match op
    case Create(dto, uuid, online) => CreateStep(w, dto, uuid, online)
    case Update(id, clientId, change, online) => UpdateStep(w, id, clientId, change, online)
    case Remove(id, clientId, online) => RemoveStep(w, id, clientId, online)
  }

  function ClientOf(op: Op): string {
    if op.Create? then op.dto.clientId else op.clientId
  }

  lemma StepKeepsButtons(w: World, op: Op)
    requires ButtonsInv(w) && TriggersUnique(w.rules)
    ensures var (after, outcome) := Step(w, op);
      ButtonsInv(after) && (outcome == Done(true) ==> InStep(after, ClientOf(op)))
  {
    match op
    case Create(dto, uuid, online) => CreateKeepsButtons(w, dto, uuid, online);
    case Update(id, clientId, change, online) => UpdateKeepsButtons(w, id, clientId, change, online);
    case Remove(id, clientId, online) => RemoveKeepsButtons(w, id, clientId, online);
  }

  ghost predicate RulesInv(rules: seq<Rule>) {
    && (forall r :: r in rules && r.kind == Icebreaker ==> r.triggerValue.Some? && r.question.Some?)
    && (forall r :: r in rules && r.kind == Default ==> r.triggerValue == None)
    && TriggersUnique(rules)
  }

  lemma NewRuleKeepsRules(rules: seq<Rule>, dto: CreateDto, uuid: string)
    requires RulesInv(rules) && ValidDto(dto) && TableTakes(rules, NewRule(dto, uuid), None)
    ensures RulesInv(rules + [NewRule(dto, uuid)])
  {
  }

  lemma ChangeKeepsRules(rules: seq<Rule>, i: nat, r: Rule)
    requires RulesInv(rules) && i < |rules| && !rules[i].isDeleted
    requires r.kind == rules[i].kind && r.clientId == rules[i].clientId
    requires r.isDeleted || TableTakes(rules, r, Some(i))
    requires HasOneKey(r.kind) ==> r.triggerValue == rules[i].triggerValue
    requires rules[i].question.Some? ==> r.question.Some?
    ensures RulesInv(rules[i := r])
  {
  }

  lemma CreateKeepsRules(w: World, dto: CreateDto, uuid: string, online: bool)
    requires RulesInv(w.rules) && ValidDto(dto)
    ensures var after := CreateStep(w, dto, uuid, online).0; RulesInv(after.rules) && Follows(w, after)
  {
    hide RulesInv, SyncIfIcebreaker, TableTakes;
    SyncKeepsRules(w, dto.clientId, None, [ButtonOf(NewRule(dto, uuid))], online);
    if CreateStep(w, dto, uuid, online).1.Done? {
      NewRuleKeepsRules(w.rules, dto, uuid);
    }
  }

  lemma UpdateKeepsRules(w: World, id: nat, clientId: string, dto: UpdateDto, online: bool)
    requires RulesInv(w.rules)
    ensures var after := UpdateStep(w, id, clientId, dto, online).0; RulesInv(after.rules) && Follows(w, after)
  {
    hide RulesInv, SyncIfIcebreaker, TableTakes;
    if UpdateRefusal(w, id, clientId, dto).None? {
      var r := Merge(w.rules[id], dto);
      SyncKeepsRules(w, clientId, Some(id), [ButtonOf(r)], online);
      SyncKeepsRules(w, clientId, Some(id), [], online);
      if UpdateStep(w, id, clientId, dto, online).1.Done? {
        ChangeKeepsRules(w.rules, id, r);
      }
    }
  }

  lemma RemoveKeepsRules(w: World, id: nat, clientId: string, online: bool)
    requires RulesInv(w.rules)
    ensures var after := RemoveStep(w, id, clientId, online).0; RulesInv(after.rules) && Follows(w, after)
  {
    hide RulesInv, SyncIfIcebreaker;
    SyncKeepsRules(w, clientId, Some(id), [], online);
    if Owned(w, id, clientId) {
      ChangeKeepsRules(w.rules, id, w.rules[id].(isDeleted := true));
    }
  }

  lemma StepKeepsRules(w: World, op: Op)
    requires RulesInv(w.rules) && (op.Create? ==> ValidDto(op.dto))
    ensures RulesInv(Step(w, op).0.rules) && Follows(w, Step(w, op).0)
  {
    match op
    case Create(dto, uuid, online) => CreateKeepsRules(w, dto, uuid, online);
    case Update(id, clientId, change, online) => UpdateKeepsRules(w, id, clientId, change, online);
    case Remove(id, clientId, online) => RemoveKeepsRules(w, id, clientId, online);
  }

  function Run(pages: map<string, seq<Button>>, ops: seq<Op>): World {
    if ops == [] then World([], pages) else Step(Run(pages, ops[..|ops| - 1]), ops[|ops| - 1]).0
  }

  predicate ValidRun(ops: seq<Op>) {
    forall op :: op in ops && op.Create? ==> ValidDto(op.dto)
  }

  /**
   In every reachable state, whatever syncs failed on the way, the page of a client shows every active
   icebreaker rule, of which there are at most four, and a client has one rule per type and trigger.
   */
  lemma {:induction false} EveryRunKeepsInv(pages: map<string, seq<Button>>, ops: seq<Op>)
    requires ValidRun(ops)
    ensures ButtonsInv(Run(pages, ops)) && RulesInv(Run(pages, ops).rules)
  {
    if ops != [] {
      EveryRunKeepsInv(pages, ops[..|ops| - 1]);
      StepKeepsButtons(Run(pages, ops[..|ops| - 1]), ops[|ops| - 1]);
      StepKeepsRules(Run(pages, ops[..|ops| - 1]), ops[|ops| - 1]);
    }
  }

  /** Right after an operation that synced, the page shows exactly the active rules of its client. */
  lemma SyncedRunIsInStep(pages: map<string, seq<Button>>, ops: seq<Op>, op: Op)
    requires ValidRun(ops) && Step(Run(pages, ops), op).1 == Done(true)
    ensures InStep(Step(Run(pages, ops), op).0, ClientOf(op))
  {
    EveryRunKeepsInv(pages, ops);
    StepKeepsButtons(Run(pages, ops), op);
  }

  /** Over any stretch of a run the type of a rule, and the trigger of an icebreaker, stay the same. */
  lemma {:induction false} EveryRunFollows(pages: map<string, seq<Button>>, ops: seq<Op>, n: nat)
    requires ValidRun(ops) && n <= |ops|
    ensures Follows(Run(pages, ops[..n]), Run(pages, ops))
    decreases |ops|
  {
    hide Step, ValidDto;
    var last := |ops| - 1;
    if n == |ops| {
      assert ops[..n] == ops;
    } else {
      EveryRunFollows(pages, ops[..last], n);
      assert ops[..last][..n] == ops[..n];
      EveryRunKeepsInv(pages, ops[..last]);
      StepKeepsRules(Run(pages, ops[..last]), ops[last]);
    }
  }

  // ---------- Looking rules up ----------

  function FirstWhere(rules: seq<Rule>, p: Rule -> bool): (r: Option<Rule>)
    ensures r.Some? ==> p(r.value) && r.value in rules
    ensures r.None? ==> forall q :: q in rules ==> !p(q)
  {
    if rules == [] then None
    else if p(rules[0]) then Some(rules[0])
    else FirstWhere(rules[1..], p)
  }

  predicate Contains(s: string, part: string) {
    part <= s || (s != "" && Contains(s[1..], part))
  }

  predicate OccursAt(part: string, s: string, i: int) {
    0 <= i <= |s| - |part| && s[i..i + |part|] == part
  }

  /** `part` stands somewhere in `s`. */
  ghost predicate Occurs(part: string, s: string) {
    exists i :: OccursAt(part, s, i)
  }

  lemma {:induction false} ContainsIff(s: string, part: string)
    ensures Contains(s, part) <==> Occurs(part, s)
  {
    AtFrontIff(s, part);
    if part <= s {
      assert OccursAt(part, s, 0);
    } else if s != "" {
      ContainsIff(s[1..], part);
      forall i
        ensures OccursAt(part, s, i + 1) <==> i >= 0 && OccursAt(part, s[1..], i)
      {
        OccursLater(s, part, i);
      }
      if Occurs(part, s[1..]) {
        var i :| OccursAt(part, s[1..], i);
        assert OccursAt(part, s, i + 1);
      }
      if Occurs(part, s) {
        var i :| OccursAt(part, s, i);
        assert OccursAt(part, s, (i - 1) + 1);
        assert i > 0 ==> OccursAt(part, s[1..], i - 1);
      }
    }
  }

  lemma AtFrontIff(s: string, part: string)
    ensures OccursAt(part, s, 0) <==> part <= s
  {
  }

  lemma OccursLater(s: string, part: string, i: int)
    requires s != "" && !(part <= s)
    ensures OccursAt(part, s, i + 1) <==> i >= 0 && OccursAt(part, s[1..], i)
  {
    assert 0 <= i <= |s| - 1 - |part| ==> s[1..][i..i + |part|] == s[i + 1..i + 1 + |part|];
  }

  predicate IsActiveKind(r: Rule, clientId: string, kind: RuleType) {
    r.clientId == clientId && r.kind == kind && r.isActive && !r.isDeleted
  }

  /** `lower` is `toLowerCase`. */
  predicate MatchesText(r: Rule, clientId: string, text: string, lower: string -> string) {
    && IsActiveKind(r, clientId, KeywordDm)
    && Truthy(r.triggerValue).Some? && Contains(lower(text), lower(r.triggerValue.value))
  }

  function MatchedRules(rules: seq<Rule>, clientId: string, text: string, lower: string -> string): (matched: seq<Rule>)
    ensures forall r :: r in matched <==> r in rules && MatchesText(r, clientId, text, lower)
  {
    if rules == [] then []
    else
      var rest, last := MatchedRules(rules[..|rules| - 1], clientId, text, lower), rules[|rules| - 1];
      assert rules == rules[..|rules| - 1] + [last];
      if MatchesText(last, clientId, text, lower) then rest + [last] else rest
  }

  function TriggerLength(r: Rule): nat {
    |r.triggerValue.GetOr("")|
  }

  /** The rule with the longest trigger; the earliest of those. */
  function Longest(matched: seq<Rule>): Rule
    requires matched != []
  {
    var n := |matched| - 1;
    if n == 0 then matched[0]
    else
      var best := Longest(matched[..n]);
      if TriggerLength(matched[n]) > TriggerLength(best) then matched[n] else best
  }

  predicate EarliestLongest(matched: seq<Rule>, k: nat) {
    && k < |matched|
    && (forall j :: 0 <= j < |matched| ==> TriggerLength(matched[j]) <= TriggerLength(matched[k]))
    && (forall j :: 0 <= j < k ==> TriggerLength(matched[j]) < TriggerLength(matched[k]))
  }

  lemma {:induction false} LongestIs(matched: seq<Rule>) returns (k: nat)
    requires matched != []
    ensures EarliestLongest(matched, k) && matched[k] == Longest(matched)
  {
    hide TriggerLength;
    var n := |matched| - 1;
    k := 0;
    if n > 0 {
      k := LongestIs(matched[..n]);
      assert forall j :: 0 <= j < n ==> matched[..n][j] == matched[j];
      if TriggerLength(matched[n]) > TriggerLength(matched[k]) {
        k := n;
      }
    }
  }

  function FindKeywordRule(rules: seq<Rule>, clientId: string, text: string, lower: string -> string): Option<Rule> {
    var matched := MatchedRules(rules, clientId, text, lower);
    if matched == [] then None else Some(Longest(matched))
  }

  /** An active keyword rule of the client whose trigger stands in the text, ignoring case. */
  ghost predicate KeywordRuleFor(r: Rule, clientId: string, text: string, lower: string -> string) {
    && r.clientId == clientId && r.kind == KeywordDm && r.isActive && !r.isDeleted
    && r.triggerValue.Some? && r.triggerValue.value != ""
    && Occurs(lower(r.triggerValue.value), lower(text))
  }

  lemma MatchesIff(r: Rule, clientId: string, text: string, lower: string -> string)
    ensures MatchesText(r, clientId, text, lower) <==> KeywordRuleFor(r, clientId, text, lower)
  {
    if r.triggerValue.Some? {
      ContainsIff(lower(text), lower(r.triggerValue.value));
    }
  }

  /**
   The keyword rule of a text is an active rule of the client whose trigger stands in it, and none of
   those has a longer trigger.
   */
  lemma KeywordRuleIsLongest(rules: seq<Rule>, clientId: string, text: string, lower: string -> string)
    ensures match FindKeywordRule(rules, clientId, text, lower)
      case None => forall r :: r in rules ==> !KeywordRuleFor(r, clientId, text, lower)
      case Some(best) =>
        && best in rules && KeywordRuleFor(best, clientId, text, lower)
        && forall r :: r in rules && KeywordRuleFor(r, clientId, text, lower) ==>
             |r.triggerValue.value| <= |best.triggerValue.value|
  {
    hide MatchesText;
    var matched := MatchedRules(rules, clientId, text, lower);
    forall r
      ensures MatchesText(r, clientId, text, lower) <==> KeywordRuleFor(r, clientId, text, lower)
    {
      MatchesIff(r, clientId, text, lower);
    }
    if matched != [] {
      var _ := LongestIs(matched);
      forall r | r in rules && KeywordRuleFor(r, clientId, text, lower)
        ensures TriggerLength(r) <= TriggerLength(Longest(matched))
      {
        assert r in matched;
      }
    }
  }

  function FindDefaultRule(rules: seq<Rule>, clientId: string): Option<Rule> {
    FirstWhere(rules, r => IsActiveKind(r, clientId, Default))
  }

  function FindIcebreakerRule(rules: seq<Rule>, clientId: string, payload: string): Option<Rule> {
    FirstWhere(rules, r => IsActiveKind(r, clientId, Icebreaker) && r.triggerValue == Some(payload))
  }

  function FindPostRule(rules: seq<Rule>, clientId: string, postId: string, text: string, lower: string -> string)
    : Option<Rule>
  {
    var rule := FirstWhere(rules, r => IsActiveKind(r, clientId, PostComment) && r.triggerValue == Some(postId));
    if rule.Some? && Truthy(rule.value.commentKeyword).Some?
       && Contains(lower(text), lower(rule.value.commentKeyword.value))
    then rule else None
  }

  // The other lookups, in states with one live rule per type and trigger.

  lemma OneRule(rules: seq<Rule>, r: Rule, q: Rule)
    requires TriggersUnique(rules) && r in rules && q in rules && Clash(r, q)
    ensures r == q
  {
    var i :| 0 <= i < |rules| && rules[i] == r;
    var j :| 0 <= j < |rules| && rules[j] == q;
    OnePerKey(rules, i, j);
  }

  /** The active rule of the post whose keyword stands in the comment, ignoring case. */
  ghost predicate PostRuleFor(r: Rule, clientId: string, postId: string, text: string, lower: string -> string) {
    && r.clientId == clientId && r.kind == PostComment && r.isActive && !r.isDeleted
    && r.triggerValue == Some(postId)
    && r.commentKeyword.Some? && r.commentKeyword.value != ""
    && Occurs(lower(r.commentKeyword.value), lower(text))
  }

  /** It is found if there is one, and nothing else is. */
  lemma PostRuleIff(rules: seq<Rule>, clientId: string, postId: string, text: string, lower: string -> string, r: Rule)
    requires TriggersUnique(rules)
    ensures FindPostRule(rules, clientId, postId, text, lower) == Some(r)
      <==> r in rules && PostRuleFor(r, clientId, postId, text, lower)
  {
    hide TriggersUnique;
    if r.commentKeyword.Some? {
      ContainsIff(lower(text), lower(r.commentKeyword.value));
    }
    var first := FirstWhere(rules, q => IsActiveKind(q, clientId, PostComment) && q.triggerValue == Some(postId));
    if r in rules && PostRuleFor(r, clientId, postId, text, lower) {
      assert first.Some?;
      OneRule(rules, first.value, r);
    }
  }

  lemma IcebreakerRuleIff(rules: seq<Rule>, clientId: string, payload: string, r: Rule)
    requires TriggersUnique(rules)
    ensures FindIcebreakerRule(rules, clientId, payload) == Some(r) <==>
      && r in rules && r.clientId == clientId && r.kind == Icebreaker && r.isActive && !r.isDeleted
      && r.triggerValue == Some(payload)
  {
    hide TriggersUnique;
    var found := FindIcebreakerRule(rules, clientId, payload);
    if r in rules && IsActiveKind(r, clientId, Icebreaker) && r.triggerValue == Some(payload) {
      assert found.Some?;
      OneRule(rules, found.value, r);
    }
  }

  lemma DefaultRuleIff(rules: seq<Rule>, clientId: string, r: Rule)
    requires RulesInv(rules)
    ensures FindDefaultRule(rules, clientId) == Some(r) <==>
      r in rules && r.clientId == clientId && r.kind == Default && r.isActive && !r.isDeleted
  {
    hide TriggersUnique;
    var found := FindDefaultRule(rules, clientId);
    if r in rules && IsActiveKind(r, clientId, Default) {
      assert found.Some?;
      OneRule(rules, found.value, r);
    }
  }

  /**
   Every active icebreaker rule can be tapped and answers: in a reachable state its button is on the
   page, and the payload of the button leads back to this very rule.
   */
  lemma IcebreakerAnswers(pages: map<string, seq<Button>>, ops: seq<Op>, i: nat)
    requires ValidRun(ops) && i < |Run(pages, ops).rules|
    requires Shows(Run(pages, ops).rules[i], Run(pages, ops).rules[i].clientId)
    ensures var w := Run(pages, ops); var r := w.rules[i];
      && ButtonOf(r) in OnPage(w, r.clientId)
      && FindIcebreakerRule(w.rules, r.clientId, r.triggerValue.GetOr("")) == Some(r)
  {
    EveryRunKeepsInv(pages, ops);
    ShownAnswers(Run(pages, ops), i);
  }

  lemma ShownAnswers(w: World, i: nat)
    requires ButtonsInv(w) && RulesInv(w.rules) && i < |w.rules| && Shows(w.rules[i], w.rules[i].clientId)
    ensures var r := w.rules[i];
      && ButtonOf(r) in OnPage(w, r.clientId)
      && FindIcebreakerRule(w.rules, r.clientId, r.triggerValue.GetOr("")) == Some(r)
  {
    hide ActiveButtons;
    var r := w.rules[i];
    ButtonIsThere(w.rules, i);
    assert Covers(w, r.clientId) && ButtonOf(r) in multiset(Buttons(w, r.clientId));
    assert r in w.rules && r.triggerValue.Some?;
    var found := FindIcebreakerRule(w.rules, r.clientId, r.triggerValue.value);
    assert found.Some?;
    var j :| 0 <= j < |w.rules| && w.rules[j] == found.value;
    OnePerKey(w.rules, i, j);
  }

  lemma OnePerKey(rules: seq<Rule>, i: nat, j: nat)
    requires TriggersUnique(rules) && i < |rules| && j < |rules| && Clash(rules[i], rules[j])
    ensures i == j
  {
    hide Clash;
    ClashEitherWay(rules[i], rules[j]);
  }

  lemma ClashEitherWay(r: Rule, q: Rule)
    ensures Clash(r, q) <==> Clash(q, r)
  {
  }

  lemma {:induction false} ButtonIsThere(rules: seq<Rule>, i: nat)
    requires i < |rules| && Shows(rules[i], rules[i].clientId)
    ensures ButtonOf(rules[i]) in ActiveButtons(rules, rules[i].clientId, None)
  {
    if i < |rules| - 1 {
      ButtonIsThere(rules[..|rules| - 1], i);
    }
  }

  // ---------- What each operation does ----------

  /** A reply says something, and a button comes with a text and not in answer to comments. */
  predicate GoodReply(kind: RuleType, r: Reply) {
    && (r.text != "" || r.quickReplies != [] || r.buttonUrl != "")
    && (r.buttonText != "" || r.buttonUrl != "" ==> r.text != "" && kind != PostComment)
  }

  /** How many live rules of a client make the page show `b`. */
  ghost function Showing(rules: seq<Rule>, clientId: string, b: Button): set<int> {
    set i | 0 <= i < |rules|
      && rules[i].clientId == clientId && rules[i].kind == Icebreaker && rules[i].isActive && !rules[i].isDeleted
      && rules[i].question.GetOr("") == b.question && rules[i].triggerValue.GetOr("") == b.payload
  }

  /** The buttons of a client are those of its active icebreaker rules, each as often as there is such a rule. */
  lemma {:induction false} ButtonsAre(rules: seq<Rule>, clientId: string, b: Button)
    ensures multiset(ActiveButtons(rules, clientId, None))[b] == |Showing(rules, clientId, b)|
  {
    if rules != [] {
      hide ActiveButtons, Showing;
      ButtonsAre(rules[..|rules| - 1], clientId, b);
      LastButton(rules, clientId, None);
      LastShowing(rules, clientId, b);
    }
  }

  lemma LastShowing(rules: seq<Rule>, clientId: string, b: Button)
    requires rules != []
    ensures |Showing(rules, clientId, b)|
      == |Showing(rules[..|rules| - 1], clientId, b)| + Own(rules[|rules| - 1], clientId)[b]
  {
    var n := |rules| - 1;
    var before := Showing(rules[..n], clientId, b);
    assert Showing(rules, clientId, b) == if Own(rules[n], clientId)[b] == 1 then before + {n} else before;
  }

  /** What creation stores; a refused one stores nothing. */
  lemma CreateStores(w: World, dto: CreateDto, uuid: string, online: bool)
    ensures var (after, outcome) := CreateStep(w, dto, uuid, online);
      && (outcome.Refused? ==> after.rules == w.rules)
      && (outcome.Done? ==>
          && |after.rules| == |w.rules| + 1 && after.rules[..|w.rules|] == w.rules
          && var r := after.rules[|w.rules|];
             && r.clientId == dto.clientId && r.kind == dto.kind && r.reply == dto.reply && r.isActive && !r.isDeleted
             && (r.kind == Default ==> r.triggerValue == None)
             && (r.kind == Icebreaker ==> r.triggerValue == Some(uuid) && r.question == dto.question)
             && (r.kind == PostComment || r.kind == KeywordDm ==> r.triggerValue == dto.triggerValue)
             && (r.kind == PostComment ==> r.commentKeyword == dto.commentKeyword && r.publicReply == dto.publicReply)
             && (r.kind != PostComment ==> r.commentKeyword == None && r.publicReply == None)
             && (r.kind != Icebreaker ==> r.question == None))
  {
    hide TableTakes, ReplyEmpty, ButtonOnPostComment;
    SyncKeepsRules(w, dto.clientId, None, [ButtonOf(NewRule(dto, uuid))], online);
    hide SyncIfIcebreaker;
  }

  function NewKey(dto: CreateDto, uuid: string): string {
    if dto.kind == Default then "" else if dto.kind == Icebreaker then uuid else dto.triggerValue.GetOr("")
  }

  /** What creation is accepted for: a fourth icebreaker is, a fifth is not. */
  lemma CreateAcceptedIff(w: World, dto: CreateDto, uuid: string, online: bool)
    ensures CreateStep(w, dto, uuid, online).1.Done? <==>
      && GoodReply(dto.kind, dto.reply)
      && (forall j :: 0 <= j < |w.rules| ==> !Taken(w.rules, j, dto.clientId, dto.kind, NewKey(dto, uuid)))
      && (dto.kind == Icebreaker ==> |Buttons(w, dto.clientId)| < 4 && dto.clientId in w.remote && online)
  {
    hide ActiveButtons;
    var rule := NewRule(dto, uuid);
    var key := NewKey(dto, uuid);
    forall j | 0 <= j < |w.rules|
      ensures Clash(w.rules[j], rule) <==> Taken(w.rules, j, dto.clientId, dto.kind, key)
      ensures Matches(w.rules[j], dto.clientId, dto.kind, rule.triggerValue) ==> Clash(w.rules[j], rule)
    {
    }
    assert TableTakes(w.rules, rule, None) ==> !Exists(w.rules, dto.clientId, dto.kind, rule.triggerValue);
  }

  /** The rule at `j` has just the trigger that creation gives, a missing one being none. */
  predicate HasTrigger(rules: seq<Rule>, j: nat, dto: CreateDto, uuid: string) {
    && j < |rules| && !rules[j].isDeleted && rules[j].clientId == dto.clientId && rules[j].kind == dto.kind
    && (dto.kind == Default ==> rules[j].triggerValue == None)
    && (dto.kind == Icebreaker ==> rules[j].triggerValue == Some(uuid))
    && (dto.kind == PostComment || dto.kind == KeywordDm ==> rules[j].triggerValue == dto.triggerValue)
  }

  /** Why a creation is refused, the table apart. */
  lemma CreateErrors(w: World, dto: CreateDto, uuid: string, online: bool)
    ensures var outcome := CreateStep(w, dto, uuid, online).1;
      var has := exists j :: 0 <= j < |w.rules| && HasTrigger(w.rules, j, dto, uuid);
      var full := dto.kind == Icebreaker && |Buttons(w, dto.clientId)| >= 4;
      var syncs := GoodReply(dto.kind, dto.reply) && !has && dto.kind == Icebreaker && !full;
      && (outcome == Refused(Conflict) <==> GoodReply(dto.kind, dto.reply) && (has || full))
      && (outcome == Refused(BadRequest) <==>
          !GoodReply(dto.kind, dto.reply) || (syncs && dto.clientId !in w.remote))
      && (outcome == Refused(SyncFailed) <==> syncs && dto.clientId in w.remote && !online)
      && outcome != Refused(NotFound)
  {
    hide ActiveButtons, TableTakes;
    var trigger := NewRule(dto, uuid).triggerValue;
    forall j | 0 <= j < |w.rules|
      ensures Matches(w.rules[j], dto.clientId, dto.kind, trigger) <==> HasTrigger(w.rules, j, dto, uuid)
    {
    }
  }

  /** Why an update is refused, the table apart; a removal is only ever not found. */
  lemma UpdateErrors(w: World, id: nat, clientId: string, dto: UpdateDto, online: bool)
    ensures var outcome := UpdateStep(w, id, clientId, dto, online).1;
      var says := dto.reply.Some? ==> GoodReply(KeywordDm, dto.reply.value);
      var owned := id < |w.rules| && w.rules[id].clientId == clientId && !w.rules[id].isDeleted;
      && (outcome == Refused(NotFound) <==> says && !owned)
      && (outcome == Refused(SyncFailed) || outcome == Refused(Conflict) ==>
          owned && w.rules[id].kind == Icebreaker && dto.isActive.GetOr(w.rules[id].isActive))
      && (outcome == Refused(Conflict) ==> |ActiveButtons(w.rules, clientId, Some(id))| >= 4)
      && (outcome == Refused(SyncFailed) ==> !online)
      && (says && owned && w.rules[id].kind != Icebreaker ==>
          (outcome == Refused(BadRequest) <==>
            || (dto.reply.Some? && !GoodReply(w.rules[id].kind, dto.reply.value))
            || (dto.triggerValue.Some? && w.rules[id].kind == Default)))
  {
    hide ActiveButtons, TableTakes;
  }

  /** What an update stores: the fields given, and the others as they were. */
  lemma UpdateStores(w: World, id: nat, clientId: string, dto: UpdateDto, online: bool)
    ensures var (after, outcome) := UpdateStep(w, id, clientId, dto, online);
      && (outcome.Refused? ==> after.rules == w.rules)
      && (outcome.Done? ==>
          && |after.rules| == |w.rules| && id < |w.rules|
          && (forall j :: 0 <= j < |w.rules| && j != id ==> after.rules[j] == w.rules[j])
          && var (r, was) := (after.rules[id], w.rules[id]);
             && r.clientId == was.clientId && r.kind == was.kind && !r.isDeleted
             && r.isActive == dto.isActive.GetOr(was.isActive) && r.reply == dto.reply.GetOr(was.reply)
             && (if dto.triggerValue.Some? then r.triggerValue == dto.triggerValue
                 else r.triggerValue == was.triggerValue)
             && (if dto.publicReply.Some? then r.publicReply == dto.publicReply else r.publicReply == was.publicReply)
             && (if dto.question.Some? then r.question == dto.question else r.question == was.question)
             && (if dto.commentKeyword.Some? then r.commentKeyword == dto.commentKeyword
                 else r.commentKeyword == was.commentKeyword))
  {
    hide TableTakes, ReplyEmpty, ButtonOnPostComment;
    if UpdateRefusal(w, id, clientId, dto).None? {
      SyncKeepsRules(w, clientId, Some(id), [ButtonOf(Merge(w.rules[id], dto))], online);
      SyncKeepsRules(w, clientId, Some(id), [], online);
    }
    hide SyncIfIcebreaker;
  }

  /** What an update is accepted for, in reachable states. */
  lemma UpdateAcceptedIff(w: World, id: nat, clientId: string, dto: UpdateDto, online: bool)
    requires RulesInv(w.rules)
    ensures UpdateStep(w, id, clientId, dto, online).1.Done? <==>
      && id < |w.rules| && w.rules[id].clientId == clientId && !w.rules[id].isDeleted
      && (dto.reply.Some? ==> GoodReply(w.rules[id].kind, dto.reply.value))
      && (dto.triggerValue.Some? ==>
          && (w.rules[id].kind == PostComment || w.rules[id].kind == KeywordDm)
          && forall j :: 0 <= j < |w.rules| && j != id ==>
               !Taken(w.rules, j, clientId, w.rules[id].kind, dto.triggerValue.value))
      && (w.rules[id].kind == Icebreaker && dto.isActive.GetOr(w.rules[id].isActive) ==>
          |ActiveButtons(w.rules, clientId, Some(id))| < 4 && clientId in w.remote && online)
  {
    hide ActiveButtons, RulesInv;
    UniqueIn(w.rules);
    if UpdateRefusal(w, id, clientId, dto) == None {
      UpdateIsDuplicateIff(w, id, clientId, dto, online);
      SyncOutcomeIff(w, clientId, Some(id), [ButtonOf(Merge(w.rules[id], dto))], online);
      hide SyncIfIcebreaker, TableTakes, TriggersUnique;
    }
  }

  lemma SyncOutcomeIff(w: World, clientId: string, except: Option<nat>, addition: seq<Button>, online: bool)
    ensures SyncIfIcebreaker(w, clientId, except, addition, online).Ok?
      <==> |ActiveButtons(w.rules, clientId, except)| + |addition| <= 4 && clientId in w.remote && online
  {
  }

  /** Removing marks a live rule of the client as deleted, and changes no other. */
  lemma RemoveStores(w: World, id: nat, clientId: string, online: bool)
    ensures var (after, outcome) := RemoveStep(w, id, clientId, online);
      && (outcome.Done? <==> id < |w.rules| && w.rules[id].clientId == clientId && !w.rules[id].isDeleted)
      && (outcome.Refused? ==> after == w)
      && (outcome.Done? ==> |after.rules| == |w.rules| && after.rules[id].isDeleted)
      && (outcome.Done? ==> forall j :: 0 <= j < |w.rules| && j != id ==> after.rules[j] == w.rules[j])
  {
    SyncKeepsRules(w, clientId, Some(id), [], online);
    hide SyncIfIcebreaker;
  }

  /**
   When an accepted operation overwrites the page: exactly when it is about an icebreaker, and Meta lets
   it. Creating and activating one is not accepted otherwise; deactivating and removing one is.
   */
  lemma SyncsIff(w: World, op: Op)
    requires ButtonsInv(w) && Step(w, op).1.Done?
    ensures op.Create? ==> (Step(w, op).1 == Done(true) <==> op.dto.kind == Icebreaker)
    ensures !op.Create? ==> op.id < |w.rules| && (Step(w, op).1 == Done(true) <==>
      w.rules[op.id].kind == Icebreaker && op.clientId in w.remote && op.online)
  {
    hide ActiveButtons, TableTakes, SyncIfIcebreaker, ButtonsInv;
    match op
    case Create(dto, uuid, online) =>
    case Update(id, clientId, change, online) =>
      FewEnough(w, id, clientId);
      SyncOutcomeIff(w, clientId, Some(id), [], online);
      SyncOutcomeIff(w, clientId, Some(id), [ButtonOf(Merge(w.rules[id], change))], online);
    case Remove(id, clientId, online) =>
      FewEnough(w, id, clientId);
      SyncOutcomeIff(w, clientId, Some(id), [], online);
  }

  lemma FewEnough(w: World, id: nat, clientId: string)
    requires ButtonsInv(w) && id < |w.rules|
    ensures |ActiveButtons(w.rules, clientId, Some(id))| <= 4
  {
    hide ActiveButtons;
    assert |Buttons(w, clientId)| <= MAX_ICEBREAKERS;
    OneByOne(w.rules, id, clientId);
    Sizes(ActiveButtons(w.rules, clientId, Some(id)), Buttons(w, clientId));
  }

  // ---------- What the table refuses ----------

  /** The rule at `j` has `trigger` already, or none where `trigger` is empty. */
  predicate Taken(rules: seq<Rule>, j: nat, clientId: string, kind: RuleType, trigger: string) {
    && j < |rules| && !rules[j].isDeleted
    && rules[j].clientId == clientId && rules[j].kind == kind && IndexKey(rules[j]) == trigger
  }

  /**
   An update does not repeat the check that creation makes, so it is the table that refuses it: exactly
   when a new trigger is given that another live rule of the client and type has.
   */
  lemma UpdateIsDuplicateIff(w: World, id: nat, clientId: string, dto: UpdateDto, online: bool)
    requires RulesInv(w.rules)
    ensures UpdateStep(w, id, clientId, dto, online).1 == Refused(Duplicate) <==>
      && UpdateRefusal(w, id, clientId, dto) == None && dto.triggerValue.Some?
      && exists j :: 0 <= j < |w.rules| && j != id
           && Taken(w.rules, j, clientId, w.rules[id].kind, dto.triggerValue.value)
  {
    hide SyncIfIcebreaker, RulesInv;
    if UpdateRefusal(w, id, clientId, dto) == None {
      var rule, r := w.rules[id], Merge(w.rules[id], dto);
      assert TriggersUnique(w.rules) by { UniqueIn(w.rules); }
      if dto.triggerValue.None? {
        IcebreakerIsTaken(w.rules, id, r);
      }
      forall j | 0 <= j < |w.rules|
        ensures dto.triggerValue.Some? ==>
          (Clash(w.rules[j], r) <==> Taken(w.rules, j, clientId, rule.kind, dto.triggerValue.value))
      {
      }
      SyncKeepsRules(w, clientId, Some(id), if Shows(r, clientId) then [ButtonOf(r)] else [], online);
      SyncOutcome(w, clientId, Some(id), [ButtonOf(r)], online);
    }
  }

  lemma UniqueIn(rules: seq<Rule>)
    requires RulesInv(rules)
    ensures TriggersUnique(rules)
  {
  }

  lemma SyncOutcome(w: World, clientId: string, except: Option<nat>, addition: seq<Button>, online: bool)
    ensures SyncIfIcebreaker(w, clientId, except, addition, online) != Err(Duplicate)
  {
  }

  /**
   The check on creation tells a missing trigger from an empty one, the table does not: it refuses a
   rule that passed the check exactly when a live rule of the client and type has the other of the two.
   It never refuses an icebreaker or a default rule, so the page is never overwritten for nothing.
   */
  lemma CreateIsDuplicateIff(w: World, dto: CreateDto, uuid: string, online: bool)
    requires RulesInv(w.rules)
    ensures CreateStep(w, dto, uuid, online).1 == Refused(Duplicate) <==>
      && !ReplyEmpty(dto.reply) && !ButtonOnPostComment(dto.kind, dto.reply) && !HasOneKey(dto.kind)
      && dto.triggerValue.GetOr("") == ""
      && !Exists(w.rules, dto.clientId, dto.kind, dto.triggerValue)
      && Exists(w.rules, dto.clientId, dto.kind, if dto.triggerValue == None then Some("") else None)
    ensures CreateStep(w, dto, uuid, online).1 == Refused(Duplicate) ==> CreateStep(w, dto, uuid, online).0 == w
  {
    hide SyncIfIcebreaker;
    var rule := NewRule(dto, uuid);
    SyncOutcome(w, dto.clientId, None, [ButtonOf(rule)], online);
    if !Exists(w.rules, dto.clientId, dto.kind, rule.triggerValue) {
      CheckedIsTakenIff(w.rules, rule);
    }
  }

  lemma CheckedIsTakenIff(rules: seq<Rule>, rule: Rule)
    requires RulesInv(rules) && !rule.isDeleted
    requires rule.kind == Icebreaker ==> rule.triggerValue.Some?
    requires rule.kind == Default ==> rule.triggerValue == None
    requires !Exists(rules, rule.clientId, rule.kind, rule.triggerValue)
    ensures !TableTakes(rules, rule, None) <==>
      && !HasOneKey(rule.kind) && IndexKey(rule) == ""
      && Exists(rules, rule.clientId, rule.kind, if rule.triggerValue == None then Some("") else None)
  {
    var other := if rule.triggerValue == None then Some("") else None;
    forall i | 0 <= i < |rules|
      ensures Clash(rules[i], rule) <==>
        !HasOneKey(rule.kind) && IndexKey(rule) == "" && Matches(rules[i], rule.clientId, rule.kind, other)
    {
      assert rules[i] in rules && !Matches(rules[i], rule.clientId, rule.kind, rule.triggerValue);
    }
  }
}
