/**
 From an Instagram webhook to the replies (instagram-webhook.service.ts, conversation-bot.service.ts):
 events become jobs, and a job is tried up to three times.
 */
module Webhook {
  import opened Prelude
  import R = ConversationRules

  // ---------- Events and jobs ----------

  datatype Message = Message(text: Option<string>)

  datatype Event = Event(senderId: string, message: Option<Message>, postback: Option<string>)

  /** `fromId`, the author of a comment, may be the page itself. */
  datatype Change = Change(field: string, fromId: string, postId: string, commentId: string, text: string)

  datatype Entry = Entry(id: string, messaging: Option<seq<Event>>, changes: Option<seq<Change>>)

  datatype Job =
    | Postback(pageId: string, senderId: string, payload: string)
    | Dm(pageId: string, senderId: string, text: Option<string>)
    | Comment(pageId: string, postId: string, commentId: string, commentText: string)

  /** One job for a postback, else one for a message, else none. */
  function EventJobs(pageId: string, e: Event): seq<Job> {
    if e.postback.Some? then [Postback(pageId, e.senderId, e.postback.value)]
    else if e.message.Some? then [Dm(pageId, e.senderId, e.message.value.text)]
    else []
  }

  /** One job for a comment, whoever wrote it. */
  function ChangeJobs(pageId: string, c: Change): seq<Job> {
    if c.field == "comments" then [Comment(pageId, c.postId, c.commentId, c.text)] else []
  }

  function EventsJobs(pageId: string, es: seq<Event>): seq<Job> {
    if es == [] then [] else EventsJobs(pageId, es[..|es| - 1]) + EventJobs(pageId, es[|es| - 1])
  }

  function ChangesJobs(pageId: string, cs: seq<Change>): seq<Job> {
    if cs == [] then [] else ChangesJobs(pageId, cs[..|cs| - 1]) + ChangeJobs(pageId, cs[|cs| - 1])
  }

  function EntryJobs(e: Entry): seq<Job> {
    EventsJobs(e.id, e.messaging.GetOr([])) + ChangesJobs(e.id, e.changes.GetOr([]))
  }

  /** The jobs of a payload, in the order of its events. */
  function PayloadJobs(entries: seq<Entry>): seq<Job> {
    if entries == [] then [] else PayloadJobs(entries[..|entries| - 1]) + EntryJobs(entries[|entries| - 1])
  }

  /** The jobs the queue takes, when it is asked for the first of them as its `n`-th. */
  function Taken(jobs: seq<Job>, n: nat, accepts: nat -> bool): seq<Job> {
    if jobs == [] then []
    else
      var k := |jobs| - 1;
      Taken(jobs[..k], n, accepts) + if accepts(n + k) then [jobs[k]] else []
  }

  lemma {:induction false} TakenAppend(a: seq<Job>, b: seq<Job>, n: nat, accepts: nat -> bool)
    ensures Taken(a + b, n, accepts) == Taken(a, n, accepts) + Taken(b, n + |a|, accepts)
  {
    if b == [] {
      assert a + b == a;
    } else {
      var k := |b| - 1;
      TakenAppend(a, b[..k], n, accepts);
      assert (a + b)[..|a + b| - 1] == a + b[..k];
    }
  }

  lemma {:induction false} AllTaken(jobs: seq<Job>, n: nat, accepts: nat -> bool)
    requires forall m :: accepts(m)
    ensures Taken(jobs, n, accepts) == jobs
  {
    if jobs != [] {
      var k := |jobs| - 1;
      AllTaken(jobs[..k], n, accepts);
      assert jobs == jobs[..k] + [jobs[k]];
    }
  }

  /** An event that asks for an answer. */
  predicate Asks(e: Event) {
    e.postback.Some? || e.message.Some?
  }

  function Asking(es: seq<Event>): (r: seq<Event>)
    ensures forall k :: 0 <= k < |r| ==> Asks(r[k])
  {
    if es == [] then []
    else
      var rest := Asking(es[..|es| - 1]);
      if Asks(es[|es| - 1]) then rest + [es[|es| - 1]] else rest
  }

  /**
   The `k`-th job stands for the `k`-th event that asks for an answer: for its postback if it has one,
   else for its message.
   */
  lemma {:induction false} OneJobEach(pageId: string, es: seq<Event>)
    ensures var jobs, asking := EventsJobs(pageId, es), Asking(es);
      && |jobs| == |asking|
      && forall k :: 0 <= k < |jobs| ==>
        && (asking[k].postback.Some? ==> jobs[k] == Postback(pageId, asking[k].senderId, asking[k].postback.value))
        && (asking[k].postback.None? ==> jobs[k] == Dm(pageId, asking[k].senderId, asking[k].message.value.text))
  {
    if es != [] {
      OneJobEach(pageId, es[..|es| - 1]);
    }
  }

  function Comments(cs: seq<Change>): seq<Change> {
    if cs == [] then []
    else
      var rest := Comments(cs[..|cs| - 1]);
      if cs[|cs| - 1].field == "comments" then rest + [cs[|cs| - 1]] else rest
  }

  /** The `k`-th job of the changes stands for the `k`-th comment. */
  lemma {:induction false} OneJobPerComment(pageId: string, cs: seq<Change>)
    ensures var jobs, comments := ChangesJobs(pageId, cs), Comments(cs);
      && |jobs| == |comments|
      && forall k :: 0 <= k < |jobs| ==>
        jobs[k] == Comment(pageId, comments[k].postId, comments[k].commentId, comments[k].text)
  {
    if cs != [] {
      OneJobPerComment(pageId, cs[..|cs| - 1]);
    }
  }

  lemma TakenOne(job: Job, n: nat, accepts: nat -> bool)
    ensures Taken([job], n, accepts) == if accepts(n) then [job] else []
  {
    assert [job][..0] == [];
  }

  function CommentJobs(jobs: seq<Job>): seq<Job> {
    if jobs == [] then []
    else
      var rest := CommentJobs(jobs[..|jobs| - 1]);
      if jobs[|jobs| - 1].Comment? then rest + [jobs[|jobs| - 1]] else rest
  }

  function EventJobsOnly(jobs: seq<Job>): seq<Job> {
    if jobs == [] then []
    else
      var rest := EventJobsOnly(jobs[..|jobs| - 1]);
      if jobs[|jobs| - 1].Comment? then rest else rest + [jobs[|jobs| - 1]]
  }

  /** One job for each comment of an entry, with the entry as its page. */
  function CommentsOf(e: Entry): seq<Job> {
    var comments := Comments(if e.changes.Some? then e.changes.value else []);
    seq(|comments|, k requires 0 <= k < |comments| =>
      Comment(e.id, comments[k].postId, comments[k].commentId, comments[k].text))
  }

  /** One job for each event of an entry that asks for an answer, for its postback or else for its message. */
  function AsksOf(e: Entry): seq<Job> {
    var asking := Asking(if e.messaging.Some? then e.messaging.value else []);
    seq(|asking|, k requires 0 <= k < |asking| =>
      if asking[k].postback.Some? then Postback(e.id, asking[k].senderId, asking[k].postback.value)
      else Dm(e.id, asking[k].senderId, asking[k].message.value.text))
  }

  function CommentsIn(entries: seq<Entry>): seq<Job> {
    if entries == [] then [] else CommentsIn(entries[..|entries| - 1]) + CommentsOf(entries[|entries| - 1])
  }

  function AsksIn(entries: seq<Entry>): seq<Job> {
    if entries == [] then [] else AsksIn(entries[..|entries| - 1]) + AsksOf(entries[|entries| - 1])
  }

  lemma {:induction false} OfBoth(a: seq<Job>, b: seq<Job>)
    ensures CommentJobs(a + b) == CommentJobs(a) + CommentJobs(b)
    ensures EventJobsOnly(a + b) == EventJobsOnly(a) + EventJobsOnly(b)
  {
    if b == [] {
      assert a + b == a;
    } else {
      var k := |b| - 1;
      OfBoth(a, b[..k]);
      assert (a + b)[..|a + b| - 1] == a + b[..k];
    }
  }

  lemma {:induction false} AllComments(jobs: seq<Job>)
    requires forall k :: 0 <= k < |jobs| ==> jobs[k].Comment?
    ensures CommentJobs(jobs) == jobs && EventJobsOnly(jobs) == []
  {
    if jobs != [] {
      var n := |jobs| - 1;
      AllComments(jobs[..n]);
      assert jobs == jobs[..n] + [jobs[n]];
    }
  }

  lemma {:induction false} NoComments(jobs: seq<Job>)
    requires forall k :: 0 <= k < |jobs| ==> !jobs[k].Comment?
    ensures CommentJobs(jobs) == [] && EventJobsOnly(jobs) == jobs
  {
    if jobs != [] {
      var n := |jobs| - 1;
      NoComments(jobs[..n]);
      assert jobs == jobs[..n] + [jobs[n]];
    }
  }

  lemma EntryJobsAre(e: Entry)
    ensures CommentJobs(EntryJobs(e)) == CommentsOf(e) && EventJobsOnly(EntryJobs(e)) == AsksOf(e)
    ensures |EntryJobs(e)| == |CommentsOf(e)| + |AsksOf(e)|
  {
    hide EventsJobs, ChangesJobs, Comments, Asking, CommentJobs, EventJobsOnly;
    var messaging, changes := e.messaging.GetOr([]), e.changes.GetOr([]);
    OneJobEach(e.id, messaging);
    OneJobPerComment(e.id, changes);
    assert EventsJobs(e.id, messaging) == AsksOf(e);
    assert ChangesJobs(e.id, changes) == CommentsOf(e);
    NoComments(AsksOf(e));
    AllComments(CommentsOf(e));
    OfBoth(AsksOf(e), CommentsOf(e));
  }

  /** Within an entry the jobs of its events come before those of its comments. */
  lemma EventsBeforeComments(e: Entry, i: nat, j: nat)
    requires i < j < |EntryJobs(e)| && EntryJobs(e)[i].Comment?
    ensures EntryJobs(e)[j].Comment?
  {
    OneJobEach(e.id, e.messaging.GetOr([]));
    OneJobPerComment(e.id, e.changes.GetOr([]));
    hide EventsJobs, ChangesJobs;
  }

  /**
   The jobs of a payload: the comments of its entries in order, each for its entry's page, the events of
   its entries that ask for an answer in order, and no others.
   */
  lemma {:induction false} PayloadJobsAre(entries: seq<Entry>)
    ensures CommentJobs(PayloadJobs(entries)) == CommentsIn(entries)
    ensures EventJobsOnly(PayloadJobs(entries)) == AsksIn(entries)
    ensures |PayloadJobs(entries)| == |CommentsIn(entries)| + |AsksIn(entries)|
  {
    if entries != [] {
      hide EntryJobs, CommentsOf, AsksOf, CommentJobs, EventJobsOnly;
      var n := |entries| - 1;
      PayloadJobsAre(entries[..n]);
      EntryJobsAre(entries[n]);
      OfBoth(PayloadJobs(entries[..n]), EntryJobs(entries[n]));
    }
  }

  /** Entries keep their order. */
  lemma {:induction false} PayloadJobsAppend(a: seq<Entry>, b: seq<Entry>)
    ensures PayloadJobs(a + b) == PayloadJobs(a) + PayloadJobs(b)
  {
    hide EntryJobs;
    if b == [] {
      assert a + b == a;
    } else {
      var k := |b| - 1;
      PayloadJobsAppend(a, b[..k]);
      assert (a + b)[..|a + b| - 1] == a + b[..k];
    }
  }

  lemma NoJobs(pageId: string, n: nat, accepts: nat -> bool)
    ensures EventsJobs(pageId, []) == ChangesJobs(pageId, []) == PayloadJobs([]) == Taken([], n, accepts) == []
  {
  }

  lemma NextEvent(pageId: string, es: seq<Event>, i: nat)
    requires i < |es|
    ensures EventsJobs(pageId, es[..i + 1]) == EventsJobs(pageId, es[..i]) + EventJobs(pageId, es[i])
  {
    assert es[..i + 1][..i] == es[..i];
  }

  lemma NextChange(pageId: string, cs: seq<Change>, i: nat)
    requires i < |cs|
    ensures ChangesJobs(pageId, cs[..i + 1]) == ChangesJobs(pageId, cs[..i]) + ChangeJobs(pageId, cs[i])
  {
    assert cs[..i + 1][..i] == cs[..i];
  }

  lemma NextEntry(entries: seq<Entry>, i: nat)
    requires i < |entries|
    ensures PayloadJobs(entries[..i + 1]) == PayloadJobs(entries[..i]) + EntryJobs(entries[i])
  {
    assert entries[..i + 1][..i] == entries[..i];
  }

  /** A queue that takes all jobs has got, after what it had, those of the payload. */
  ghost predicate GotPayload(before: seq<Job>, after: seq<Job>, entries: seq<Entry>) {
    && before <= after
    && CommentJobs(after[|before|..]) == CommentsIn(entries)
    && EventJobsOnly(after[|before|..]) == AsksIn(entries)
    && |after| == |before| + |CommentsIn(entries)| + |AsksIn(entries)|
  }

  lemma AllGot(before: seq<Job>, entries: seq<Entry>, n: nat, accepts: nat -> bool)
    requires forall m :: accepts(m)
    ensures GotPayload(before, before + Taken(PayloadJobs(entries), n, accepts), entries)
  {
    hide Taken, PayloadJobs, CommentsIn, AsksIn, CommentJobs, EventJobsOnly;
    AllTaken(PayloadJobs(entries), n, accepts);
    PayloadJobsAre(entries);
    assert (before + PayloadJobs(entries))[|before|..] == PayloadJobs(entries);
  }

  class InstagramWebhookService {
    var queue: seq<Job>
    /** How often the queue was asked to take a job. */
    var asked: nat

    constructor ()
      ensures queue == [] && asked == 0
    {
      queue, asked := [], 0;
    }

    /** A job the queue refuses is only logged. */
    method Add(job: Job, accepts: nat -> bool)
      modifies this
      ensures asked == old(asked) + 1 && queue == old(queue) + Taken([job], old(asked), accepts)
    {
      assert [job][..0] == [];
      if accepts(asked) {
        queue := queue + [job];
      }
      asked := asked + 1;
    }

    method EnqueueEvent(pageId: string, event: Event, accepts: nat -> bool)
      modifies this
      ensures asked == old(asked) + |EventJobs(pageId, event)|
      ensures queue == old(queue) + Taken(EventJobs(pageId, event), old(asked), accepts)
    {
      if event.postback.Some? {
        Add(Postback(pageId, event.senderId, event.postback.value), accepts);
        return;
      }
      if event.message.None? {
        return;
      }
      Add(Dm(pageId, event.senderId, event.message.value.text), accepts);
    }

    method EnqueueChange(pageId: string, change: Change, accepts: nat -> bool)
      modifies this
      ensures asked == old(asked) + |ChangeJobs(pageId, change)|
      ensures queue == old(queue) + Taken(ChangeJobs(pageId, change), old(asked), accepts)
    {
      if change.field != "comments" {
        return;
      }
      Add(Comment(pageId, change.postId, change.commentId, change.text), accepts);
    }

    method EnqueueMessaging(pageId: string, messaging: seq<Event>, accepts: nat -> bool)
      modifies this
      ensures asked == old(asked) + |EventsJobs(pageId, messaging)|
      ensures queue == old(queue) + Taken(EventsJobs(pageId, messaging), old(asked), accepts)
    {
      hide Taken, EventJobs, EventsJobs;
      NoJobs(pageId, asked, accepts);
      for i := 0 to |messaging|
        invariant asked == old(asked) + |EventsJobs(pageId, messaging[..i])|
        invariant queue == old(queue) + Taken(EventsJobs(pageId, messaging[..i]), old(asked), accepts)
      {
        NextEvent(pageId, messaging, i);
        TakenAppend(EventsJobs(pageId, messaging[..i]), EventJobs(pageId, messaging[i]), old(asked), accepts);
        EnqueueEvent(pageId, messaging[i], accepts);
      }
      assert messaging[..|messaging|] == messaging;
    }

    method EnqueueChanges(pageId: string, changes: seq<Change>, accepts: nat -> bool)
      modifies this
      ensures asked == old(asked) + |ChangesJobs(pageId, changes)|
      ensures queue == old(queue) + Taken(ChangesJobs(pageId, changes), old(asked), accepts)
    {
      hide Taken, ChangeJobs, ChangesJobs;
      NoJobs(pageId, asked, accepts);
      for i := 0 to |changes|
        invariant asked == old(asked) + |ChangesJobs(pageId, changes[..i])|
        invariant queue == old(queue) + Taken(ChangesJobs(pageId, changes[..i]), old(asked), accepts)
      {
        NextChange(pageId, changes, i);
        TakenAppend(ChangesJobs(pageId, changes[..i]), ChangeJobs(pageId, changes[i]), old(asked), accepts);
        EnqueueChange(pageId, changes[i], accepts);
      }
      assert changes[..|changes|] == changes;
    }

    method EnqueueEntry(entry: Entry, accepts: nat -> bool)
      modifies this
      ensures asked == old(asked) + |EntryJobs(entry)|
      ensures queue == old(queue) + Taken(EntryJobs(entry), old(asked), accepts)
    {
      hide Taken, EventsJobs, ChangesJobs;
      var messaging, changes := entry.messaging.GetOr([]), entry.changes.GetOr([]);
      TakenAppend(EventsJobs(entry.id, messaging), ChangesJobs(entry.id, changes), asked, accepts);
      EnqueueMessaging(entry.id, messaging, accepts);
      EnqueueChanges(entry.id, changes, accepts);
    }

    /** The queue gets the jobs of the payload in the order of its events, but for those it refuses. */
    method EnqueueEvents(entries: seq<Entry>, accepts: nat -> bool)
      modifies this
      ensures queue == old(queue) + Taken(PayloadJobs(entries), old(asked), accepts)
      ensures (forall m :: accepts(m)) ==> GotPayload(old(queue), queue, entries)
    {
      hide Taken, EntryJobs, PayloadJobs, GotPayload;
      NoJobs("", asked, accepts);
      for i := 0 to |entries|
        invariant asked == old(asked) + |PayloadJobs(entries[..i])|
        invariant queue == old(queue) + Taken(PayloadJobs(entries[..i]), old(asked), accepts)
      {
        NextEntry(entries, i);
        TakenAppend(PayloadJobs(entries[..i]), EntryJobs(entries[i]), old(asked), accepts);
        EnqueueEntry(entries[i], accepts);
      }
      assert entries[..|entries|] == entries;
      if forall m :: accepts(m) {
        AllGot(old(queue), entries, old(asked), accepts);
      }
    }
  }

  // ---------- Replies ----------

  datatype Content = ButtonTemplate(text: string, title: string, url: string)
    | QuickReplies(text: string, options: seq<string>)
    | Text(text: string)

  datatype Call =
    | SendDm(pageId: string, recipientId: string, content: Content)
    | SendPrivateReply(pageId: string, commentId: string, text: string)
    | SendPublicReply(pageId: string, commentId: string, publicText: Option<string>)

  datatype SendResult = Sent | RateLimited | OtherError

  datatype Attempt = Attempt(calls: seq<(Call, SendResult)>, fails: bool)

  datatype Integration = Integration(clientId: string, isActive: bool)

  /** What one attempt finds: the integration of the page, the rules, and how its sends end. */
  datatype Env = Env(integration: Option<Integration>, rules: seq<R.Rule>, lower: string -> string,
                     first: SendResult, second: SendResult)

  function ContentOf(r: R.Reply): Content {
    if r.buttonUrl != "" then ButtonTemplate(r.text, r.buttonText, r.buttonUrl)
    else if r.quickReplies != [] then QuickReplies(r.text, r.quickReplies)
    else Text(r.text)
  }

  /** The rule a job is answered with: for a DM the keyword rule, or else the default rule. */
  function RuleFor(job: Job, env: Env): Option<R.Rule> {
    if env.integration.None? || !env.integration.value.isActive then None
    else
      var clientId := env.integration.value.clientId;
      match job
      case Postback(_, _, payload) => R.FindIcebreakerRule(env.rules, clientId, payload)
      case Dm(pageId, senderId, text) =>
        if senderId == pageId || text.GetOr("") == "" then None
        else
          var keyword := R.FindKeywordRule(env.rules, clientId, text.value, env.lower);
          if keyword.Some? then keyword else R.FindDefaultRule(env.rules, clientId)
      case Comment(_, postId, _, text) => R.FindPostRule(env.rules, clientId, postId, text, env.lower)
  }

  function Reply(pageId: string, senderId: string, rule: R.Rule, result: SendResult): Attempt {
    Attempt([(SendDm(pageId, senderId, ContentOf(rule.reply)), result)], result == RateLimited)
  }

  function AttemptOf(job: Job, env: Env): Attempt {
    var rule := RuleFor(job, env);
    if rule.None? then Attempt([], false)
    else
      match job
      case Postback(pageId, senderId, _) => Reply(pageId, senderId, rule.value, env.first)
      case Dm(pageId, senderId, _) => Reply(pageId, senderId, rule.value, env.first)
      case Comment(pageId, _, commentId, _) =>
        Attempt([(SendPrivateReply(pageId, commentId, rule.value.reply.text), env.first),
                 (SendPublicReply(pageId, commentId, rule.value.publicReply), env.second)],
                env.first == RateLimited || env.second == RateLimited)
  }

  class ConversationBotService {
    /** Every call made to the Graph API, with its end. */
    var calls: seq<(Call, SendResult)>

    constructor ()
      ensures calls == []
    {
      calls := [];
    }

    method Send(call: Call, result: SendResult)
      modifies this
      ensures calls == old(calls) + [(call, result)]
    {
      calls := calls + [(call, result)];
    }

    /** Only a rate limit makes the job fail; other errors are logged. */
    method HandleDm(pageId: string, senderId: string, text: Option<string>, env: Env) returns (fails: bool)
      modifies this
      ensures var a := AttemptOf(Dm(pageId, senderId, text), env); calls == old(calls) + a.calls && fails == a.fails
    {
      if senderId == pageId {
        return false;
      }
      if text.GetOr("") == "" {
        return false;
      }
      if env.integration.None? || !env.integration.value.isActive {
        return false;
      }
      var clientId := env.integration.value.clientId;
      var rule := R.FindKeywordRule(env.rules, clientId, text.value, env.lower);
      if rule.None? {
        rule := R.FindDefaultRule(env.rules, clientId);
      }
      if rule.None? {
        return false;
      }
      Send(SendDm(pageId, senderId, ContentOf(rule.value.reply)), env.first);
      fails := env.first == RateLimited;
    }

    /** Both replies are attempted, whatever becomes of either. */
    method HandleComment(pageId: string, postId: string, commentId: string, text: string, env: Env)
      returns (fails: bool)
      modifies this
      ensures var a := AttemptOf(Comment(pageId, postId, commentId, text), env);
        calls == old(calls) + a.calls && fails == a.fails
    {
      if env.integration.None? || !env.integration.value.isActive {
        return false;
      }
      var clientId := env.integration.value.clientId;
      var rule := R.FindPostRule(env.rules, clientId, postId, text, env.lower);
      if rule.None? {
        return false;
      }
      Send(SendPrivateReply(pageId, commentId, rule.value.reply.text), env.first);
      Send(SendPublicReply(pageId, commentId, rule.value.publicReply), env.second);
      var results := [env.first, env.second];
      fails := false;
      for i := 0 to |results|
        invariant fails <==> (i > 0 && results[0] == RateLimited) || (i > 1 && results[1] == RateLimited)
      {
        if results[i] == RateLimited {
          fails := true;
        }
      }
    }

    method HandleIcebreaker(pageId: string, senderId: string, payload: string, env: Env) returns (fails: bool)
      modifies this
      ensures var a := AttemptOf(Postback(pageId, senderId, payload), env);
        calls == old(calls) + a.calls && fails == a.fails
    {
      if env.integration.None? || !env.integration.value.isActive {
        return false;
      }
      var clientId := env.integration.value.clientId;
      var rule := R.FindIcebreakerRule(env.rules, clientId, payload);
      if rule.None? {
        return false;
      }
      Send(SendDm(pageId, senderId, ContentOf(rule.value.reply)), env.first);
      fails := env.first == RateLimited;
    }

    method Process(job: Job, env: Env) returns (fails: bool)
      modifies this
      ensures var a := AttemptOf(job, env); calls == old(calls) + a.calls && fails == a.fails
    {
      match job
      case Postback(pageId, senderId, payload) => fails := HandleIcebreaker(pageId, senderId, payload, env);
      case Dm(pageId, senderId, text) => fails := HandleDm(pageId, senderId, text, env);
      case Comment(pageId, postId, commentId, text) => fails := HandleComment(pageId, postId, commentId, text, env);
    }

    /** The queue works on a job: a failed attempt is repeated, up to three in all. */
    method Work(job: Job, envs: nat -> Env)
      modifies this
      ensures calls == old(calls) + CallsOf(Attempts(job, envs, 0))
    {
      hide AttemptOf, Attempts, CallsOf;
      var k: nat := 0;
      var fails := true;
      while k < MAX_ATTEMPTS && fails
        invariant k <= MAX_ATTEMPTS
        invariant calls + (if fails then CallsOf(Attempts(job, envs, k)) else [])
               == old(calls) + CallsOf(Attempts(job, envs, 0))
      {
        NextAttempt(job, envs, k);
        fails := Process(job, envs(k));
        k := k + 1;
      }
      NoMoreAttempts(job, envs, k);
    }
  }

  const MAX_ATTEMPTS: nat := 3

  /** The attempts at a job from attempt `k` on: only a failed one is followed by another. */
  function Attempts(job: Job, envs: nat -> Env, k: nat): (attempts: seq<Attempt>)
    ensures |attempts| <= if k < MAX_ATTEMPTS then MAX_ATTEMPTS - k else 0
    decreases MAX_ATTEMPTS - k
  {
    if k >= MAX_ATTEMPTS then []
    else
      var a := AttemptOf(job, envs(k));
      [a] + if a.fails then Attempts(job, envs, k + 1) else []
  }

  function CallsOf(attempts: seq<Attempt>): seq<(Call, SendResult)> {
    if attempts == [] then [] else attempts[0].calls + CallsOf(attempts[1..])
  }

  lemma NextAttempt(job: Job, envs: nat -> Env, k: nat)
    requires k < MAX_ATTEMPTS
    ensures var a := AttemptOf(job, envs(k));
      CallsOf(Attempts(job, envs, k)) == a.calls + if a.fails then CallsOf(Attempts(job, envs, k + 1)) else []
  {
    hide AttemptOf;
    var a := AttemptOf(job, envs(k));
    var rest := if a.fails then Attempts(job, envs, k + 1) else [];
    assert Attempts(job, envs, k) == [a] + rest;
    assert ([a] + rest)[1..] == rest;
  }

  lemma NoMoreAttempts(job: Job, envs: nat -> Env, k: nat)
    ensures k >= MAX_ATTEMPTS ==> CallsOf(Attempts(job, envs, k)) == []
  {
  }

  // ---------- What a job comes to ----------

  function Delivered(calls: seq<(Call, SendResult)>): nat {
    if calls == [] then 0 else (if calls[0].1 == Sent then 1 else 0) + Delivered(calls[1..])
  }

  predicate Limited(a: Attempt) {
    exists j :: 0 <= j < |a.calls| && a.calls[j].1 == RateLimited
  }

  /** An attempt fails exactly when one of its sends was rate-limited. */
  lemma FailsIffLimited(job: Job, env: Env)
    ensures AttemptOf(job, env).fails <==> Limited(AttemptOf(job, env))
  {
    hide RuleFor, ContentOf;
    var a := AttemptOf(job, env);
    assert Limited(a) <== |a.calls| > 0 && a.calls[0].1 == RateLimited;
    assert Limited(a) <== |a.calls| > 1 && a.calls[1].1 == RateLimited;
  }

  /**
   The attempts at a job: each does what its surroundings call for, all but the last were
   rate-limited, and the last was not unless it is the third.
   */
  lemma {:induction false} RetriedOnlyOnRateLimit(job: Job, envs: nat -> Env, k: nat)
    requires k < MAX_ATTEMPTS
    ensures var attempts := Attempts(job, envs, k);
      && 0 < |attempts| <= MAX_ATTEMPTS - k
      && (forall i :: 0 <= i < |attempts| ==> attempts[i] == AttemptOf(job, envs(k + i)))
      && (forall i :: 0 <= i < |attempts| - 1 ==> Limited(attempts[i]))
      && (k + |attempts| < MAX_ATTEMPTS ==> !Limited(attempts[|attempts| - 1]))
    decreases MAX_ATTEMPTS - k
  {
    hide AttemptOf, Limited;
    FailsIffLimited(job, envs(k));
    var a, next := AttemptOf(job, envs(k)), k + 1;
    if a.fails && next < MAX_ATTEMPTS {
      RetriedOnlyOnRateLimit(job, envs, next);
      var rest := Attempts(job, envs, next);
      assert Attempts(job, envs, k) == [a] + rest;
      forall i | 1 <= i < |rest| + 1
        ensures ([a] + rest)[i] == AttemptOf(job, envs(k + i))
      {
        assert ([a] + rest)[i] == rest[i - 1] && next + (i - 1) == k + i;
      }
    } else {
      assert Attempts(job, envs, k) == [a];
    }
  }

  /** Whom a direct message or a tap is answered to. */
  predicate AnswersTo(c: Call, job: Job) {
    !job.Comment? && c.SendDm? && c.pageId == job.pageId && c.recipientId == job.senderId
  }

  /**
   All that an attempt at a direct message or a tap sends is one reply, to its sender, with the content
   of its rule: the button if there is one, else the quick replies, else the text.
   */
  lemma OneReply(job: Job, env: Env)
    requires !job.Comment?
    ensures var a := AttemptOf(job, env);
      match RuleFor(job, env)
      case None => a.calls == [] && !a.fails
      case Some(rule) =>
        && |a.calls| == 1 && AnswersTo(a.calls[0].0, job)
        && var content := a.calls[0].0.content;
           && (rule.reply.buttonUrl != "" ==>
               content == ButtonTemplate(rule.reply.text, rule.reply.buttonText, rule.reply.buttonUrl))
           && (rule.reply.buttonUrl == "" && rule.reply.quickReplies != [] ==>
               content == QuickReplies(rule.reply.text, rule.reply.quickReplies))
           && (rule.reply.buttonUrl == "" && rule.reply.quickReplies == [] ==> content == Text(rule.reply.text))
  {
  }

  /** At most one reply is delivered, it is the last thing sent, and all that is sent goes to the sender. */
  predicate AnsweredOnce(calls: seq<(Call, SendResult)>, job: Job) {
    && Delivered(calls) <= 1
    && (forall i :: 0 <= i < |calls| ==> AnswersTo(calls[i].0, job))
    && (forall i :: 0 <= i < |calls| - 1 ==> calls[i].1 != Sent)
  }

  lemma SentBefore(call: (Call, SendResult), rest: seq<(Call, SendResult)>, job: Job)
    requires AnsweredOnce(rest, job) && AnswersTo(call.0, job) && call.1 != Sent
    ensures AnsweredOnce([call] + rest, job)
  {
    hide AnswersTo;
    assert ([call] + rest)[1..] == rest;
  }

  lemma SentLast(call: (Call, SendResult), job: Job)
    requires AnswersTo(call.0, job)
    ensures AnsweredOnce([call], job)
  {
    assert [call][1..] == [];
  }

  /**
   Over all its attempts, a direct message or a tap gets at most one reply, and once it has it nothing
   more is sent.
   */
  lemma {:induction false} AtMostOneDelivered(job: Job, envs: nat -> Env, k: nat)
    requires !job.Comment? && k <= MAX_ATTEMPTS
    ensures var calls := CallsOf(Attempts(job, envs, k)); AnsweredOnce(calls, job) && |calls| <= MAX_ATTEMPTS - k
    decreases MAX_ATTEMPTS - k
  {
    hide AttemptOf, Attempts, CallsOf, AnswersTo, RuleFor;
    if k == MAX_ATTEMPTS {
      NoMoreAttempts(job, envs, k);
    } else {
      NextAttempt(job, envs, k);
      OneReply(job, envs(k));
      FailsIffLimited(job, envs(k));
      AtMostOneDelivered(job, envs, k + 1);
      var a := AttemptOf(job, envs(k));
      assert a.calls != [] ==> a.calls == [a.calls[0]];
      assert a.calls + [] == a.calls;
      if a.fails {
        assert a.calls[0].1 == RateLimited;
        SentBefore(a.calls[0], CallsOf(Attempts(job, envs, k + 1)), job);
      } else if a.calls != [] {
        SentLast(a.calls[0], job);
      }
    }
  }

  /** What the page itself writes comes back as a message, and is never answered. */
  lemma OwnMessagesUnanswered(job: Job, envs: nat -> Env, k: nat)
    requires job.Dm? && job.senderId == job.pageId
    ensures CallsOf(Attempts(job, envs, k)) == []
  {
    if k < MAX_ATTEMPTS {
      NextAttempt(job, envs, k);
    }
  }

  /**
   The rule a direct message is answered with: a keyword rule that matches, and none that does has a
   longer trigger; or else the default rule.
   */
  lemma DmRule(pageId: string, senderId: string, text: string, env: Env)
    requires env.integration.Some? && env.integration.value.isActive && senderId != pageId && text != ""
    ensures var clientId := env.integration.value.clientId;
      match RuleFor(Dm(pageId, senderId, Some(text)), env)
      case None => forall r :: r in env.rules ==>
        && !R.KeywordRuleFor(r, clientId, text, env.lower)
        && !(r.clientId == clientId && r.kind == R.Default && r.isActive && !r.isDeleted)
      case Some(best) =>
        && best in env.rules
        && ((R.KeywordRuleFor(best, clientId, text, env.lower)
             && forall r :: r in env.rules && R.KeywordRuleFor(r, clientId, text, env.lower) ==>
                  |r.triggerValue.value| <= |best.triggerValue.value|)
            || (best.clientId == clientId && best.kind == R.Default && best.isActive && !best.isDeleted
                && forall r :: r in env.rules ==> !R.KeywordRuleFor(r, clientId, text, env.lower)))
  {
    hide R.FindKeywordRule, R.KeywordRuleFor;
    R.KeywordRuleIsLongest(env.rules, env.integration.value.clientId, text, env.lower);
  }

  /** The integration of the page is there and active, and belongs to the client. */
  predicate Serves(env: Env, clientId: string) {
    env.integration == Some(Integration(clientId, true))
  }

  /** Nothing is sent for a page without an active integration, nor for a message without a text. */
  lemma Unanswered(job: Job, env: Env)
    requires (forall clientId :: !Serves(env, clientId)) || (job.Dm? && (job.text == None || job.text == Some("")))
    ensures AttemptOf(job, env) == Attempt([], false)
  {
    if env.integration.Some? {
      assert env.integration.value.isActive ==> Serves(env, env.integration.value.clientId);
    }
  }

  /** The rule of a comment, of a tap, and of a message that no keyword rule matches, in reachable states. */
  lemma CommentRuleIff(job: Job, env: Env, rule: R.Rule)
    requires job.Comment? && R.TriggersUnique(env.rules)
    ensures RuleFor(job, env) == Some(rule) <==>
      rule in env.rules && Serves(env, rule.clientId)
      && R.PostRuleFor(rule, rule.clientId, job.postId, job.commentText, env.lower)
  {
    hide R.FindPostRule, R.TriggersUnique;
    if env.integration.Some? {
      R.PostRuleIff(env.rules, env.integration.value.clientId, job.postId, job.commentText, env.lower, rule);
    }
  }

  lemma TapRuleIff(job: Job, env: Env, rule: R.Rule)
    requires job.Postback? && R.TriggersUnique(env.rules)
    ensures RuleFor(job, env) == Some(rule) <==>
      rule in env.rules && Serves(env, rule.clientId)
      && rule.kind == R.Icebreaker && rule.isActive && !rule.isDeleted && rule.triggerValue == Some(job.payload)
  {
    hide R.FindIcebreakerRule, R.TriggersUnique;
    if env.integration.Some? {
      R.IcebreakerRuleIff(env.rules, env.integration.value.clientId, job.payload, rule);
    }
  }

  /** A job is tried up to three times, and three times when it is rate-limited each time. */
  lemma ThreeAttempts(job: Job, envs: nat -> Env)
    ensures 1 <= |Attempts(job, envs, 0)| <= 3
    ensures (forall k :: AttemptOf(job, envs(k)).fails) ==> |Attempts(job, envs, 0)| == 3
  {
    RetriedOnlyOnRateLimit(job, envs, 0);
    var attempts := Attempts(job, envs, 0);
    FailsIffLimited(job, envs(|attempts| - 1));
    assert attempts[|attempts| - 1] == AttemptOf(job, envs(0 + (|attempts| - 1)));
  }

  /**
   From rule to reply: whatever was created, changed and removed before, and whichever syncs failed, a
   tap on the button of an active icebreaker, which is on the page, is answered with that rule's reply.
   */
  lemma TapGetsItsReply(pages: map<string, seq<R.Button>>, ops: seq<R.Op>, i: nat,
                        pageId: string, senderId: string, env: Env)
    requires R.ValidRun(ops) && i < |R.Run(pages, ops).rules| && env.rules == R.Run(pages, ops).rules
    requires R.Shows(env.rules[i], env.rules[i].clientId)
    requires env.integration == Some(Integration(env.rules[i].clientId, true))
    ensures var rule := env.rules[i];
      var payload := rule.triggerValue.GetOr("");
      && R.ButtonOf(rule) in R.OnPage(R.Run(pages, ops), rule.clientId)
      && AttemptOf(Postback(pageId, senderId, payload), env).calls
         == [(SendDm(pageId, senderId, ContentOf(rule.reply)), env.first)]
  {
    R.IcebreakerAnswers(pages, ops, i);
    hide R.Run, R.FindIcebreakerRule, R.Shows, R.OnPage, R.ValidRun;
  }

  predicate SomeLimit(env: Env) {
    env.first == RateLimited || env.second == RateLimited
  }

  /**
   Attempt `m` at a comment, where `calls` start with attempt `k`: it sends the private and the public
   reply of the rule that the comment has then.
   */
  predicate TriesBoth(job: Job, envs: nat -> Env, calls: seq<(Call, SendResult)>, k: nat, m: nat)
    requires job.Comment? && k <= m && 2 * (m - k) + 1 < |calls|
  {
    var rule := RuleFor(job, envs(m));
    && rule.Some?
    && calls[2 * (m - k)] == (SendPrivateReply(job.pageId, job.commentId, rule.value.reply.text), envs(m).first)
    && calls[2 * (m - k) + 1] == (SendPublicReply(job.pageId, job.commentId, rule.value.publicReply), envs(m).second)
  }

  /**
   All that is sent for a comment: every attempt before `last` sends both replies, whatever becomes of
   either, each but the last of them met a rate limit on one, and they stop because the last one met
   none, because the comment has no rule any more, or because there were three.
   */
  lemma {:induction false} BothSends(job: Job, envs: nat -> Env, k: nat) returns (last: nat)
    requires job.Comment? && k <= MAX_ATTEMPTS
    ensures k <= last <= MAX_ATTEMPTS
    ensures var calls := CallsOf(Attempts(job, envs, k));
      |calls| == 2 * (last - k) && forall m :: k <= m < last ==> TriesBoth(job, envs, calls, k, m)
    ensures forall m :: k <= m < last - 1 ==> SomeLimit(envs(m))
    ensures last < MAX_ATTEMPTS ==> RuleFor(job, envs(last)).None? || (k < last && !SomeLimit(envs(last - 1)))
    decreases MAX_ATTEMPTS - k
  {
    hide RuleFor, Attempts, CallsOf;
    var calls := CallsOf(Attempts(job, envs, k));
    last := k;
    if k == MAX_ATTEMPTS {
      NoMoreAttempts(job, envs, k);
    } else {
      NextAttempt(job, envs, k);
      if RuleFor(job, envs(k)).Some? && SomeLimit(envs(k)) {
        var rest := CallsOf(Attempts(job, envs, k + 1));
        last := BothSends(job, envs, k + 1);
        forall m | k <= m < last
          ensures TriesBoth(job, envs, calls, k, m)
        {
          if k < m {
            assert TriesBoth(job, envs, rest, k + 1, m);
            assert calls[2 * (m - k)] == rest[2 * (m - (k + 1))];
            assert calls[2 * (m - k) + 1] == rest[2 * (m - (k + 1)) + 1];
          }
        }
      } else if RuleFor(job, envs(k)).Some? {
        last := k + 1;
        assert calls == AttemptOf(job, envs(k)).calls;
      }
    }
  }

  /** How many of the attempts delivered the private reply. */
  function PrivateDelivered(attempts: seq<Attempt>): nat {
    if attempts == [] then 0
    else (if attempts[0].calls != [] && attempts[0].calls[0].1 == Sent then 1 else 0) + PrivateDelivered(attempts[1..])
  }

  /** The comment has a rule, and one of the two replies is rate-limited. */
  predicate TriedAgain(job: Job, env: Env) {
    RuleFor(job, env).Some? && SomeLimit(env)
  }

  /**
   A comment may be answered in private more than once: exactly when an attempt that delivered the
   private reply was repeated because of the public one, and a later attempt delivered it again.
   */
  lemma PrivateReplyRepeatsIff(job: Job, envs: nat -> Env)
    requires job.Comment?
    ensures PrivateDelivered(Attempts(job, envs, 0)) >= 2 <==>
      exists i, j :: 0 <= i < j < MAX_ATTEMPTS
        && envs(i).first == Sent && envs(i).second == RateLimited
        && envs(j).first == Sent && RuleFor(job, envs(j)).Some?
        && forall m :: 0 <= m < j ==> TriedAgain(job, envs(m))
  {
    hide RuleFor;
    var k0: nat, k1: nat, k2: nat, k3: nat := 0, 1, 2, 3;
    NextPrivate(job, envs, k0);
    NextPrivate(job, envs, k1);
    NextPrivate(job, envs, k2);
    assert Attempts(job, envs, k3) == [];
    hide Attempts;
  }

  lemma NextPrivate(job: Job, envs: nat -> Env, k: nat)
    requires k < MAX_ATTEMPTS && job.Comment?
    ensures PrivateDelivered(Attempts(job, envs, k))
      == (if RuleFor(job, envs(k)).Some? && envs(k).first == Sent then 1 else 0)
         + if TriedAgain(job, envs(k)) then PrivateDelivered(Attempts(job, envs, k + 1)) else 0
  {
    hide RuleFor;
    var a := AttemptOf(job, envs(k));
    var rest := if a.fails then Attempts(job, envs, k + 1) else [];
    assert Attempts(job, envs, k) == [a] + rest;
    assert ([a] + rest)[1..] == rest;
  }

  /**
   The public reply is itself a comment on the post. When it comes back as one it is answered again, by
   the same rule and so with the same text, exactly when it contains the keyword of the rule.
   */
  lemma OwnReplyAnsweredIff(job: Job, env: Env, rule: R.Rule, replyId: string)
    requires job.Comment? && RuleFor(job, env) == Some(rule)
    ensures var text := rule.publicReply.GetOr("");
      var back := Comment(job.pageId, job.postId, replyId, text);
      && rule.commentKeyword.Some?
      && (R.Occurs(env.lower(rule.commentKeyword.value), env.lower(text)) ==>
          RuleFor(back, env) == Some(rule)
          && (SendPublicReply(job.pageId, replyId, rule.publicReply), env.second) in AttemptOf(back, env).calls)
      && (!R.Occurs(env.lower(rule.commentKeyword.value), env.lower(text)) ==> AttemptOf(back, env).calls == [])
  {
    hide R.FirstWhere, R.Contains, R.Occurs;
    if rule.commentKeyword.Some? {
      R.ContainsIff(env.lower(rule.publicReply.GetOr("")), env.lower(rule.commentKeyword.value));
    }
    var back := Comment(job.pageId, job.postId, replyId, rule.publicReply.GetOr(""));
    assert RuleFor(back, env).Some? ==>
      AttemptOf(back, env).calls[1].0 == SendPublicReply(job.pageId, replyId, rule.publicReply);
  }
}
