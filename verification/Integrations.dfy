/**
 The Meta integrations of the clients (integrations.service.ts): one row under two cache keys, its id
 and its page, and entries that may expire at any moment.
 */
module Integrations {
  import opened Prelude

  datatype Integration = Integration(
    id: nat, clientId: string, platform: string, pageId: string,
    accessToken: string, appSecret: Option<string>, tokenExpiresAt: Option<string>, isActive: bool)

  /** The rows that are not deleted, and the pages of all rows: a deleted row still holds its page. */
  datatype Table = Table(rows: map<nat, Integration>, nextId: nat, pages: set<string>) {
    ghost predicate Valid() {
      && (forall id :: id in rows ==> id < nextId && rows[id].id == id && rows[id].pageId in pages)
      && (forall i, j :: i in rows && j in rows && rows[i].pageId == rows[j].pageId ==> i == j)
    }
  }

  // ---------- The service with no cache ----------

  datatype Op =
    | Create(clientId: string, platform: string, pageId: string, accessToken: string,
             appSecret: Option<string>, tokenExpiresAt: Option<string>)
    | FindAll(clientId: string)
    | FindOne(id: nat)
    | FindByPageId(pageId: string)
    | Update(id: nat, patch: Patch)
    | Remove(id: nat)

  datatype Patch = Patch(isActive: Option<bool>, tokenExpiresAt: Option<string>,
                         accessToken: Option<string>, appSecret: Option<string>)

  datatype Answer = One(integration: Integration) | All(integrations: set<Integration>) | Done | NotFound | Conflict

  function Encrypted(encrypt: string -> string, o: Option<string>): Option<string> {
    if Truthy(o).Some? then Some(encrypt(o.value)) else None
  }

  /** An update leaves alone what it does not mention. */
  function Merge(i: Integration, p: Patch, encrypt: string -> string): Integration {
    i.(isActive := p.isActive.GetOr(i.isActive),
       tokenExpiresAt := if Truthy(p.tokenExpiresAt).Some? then p.tokenExpiresAt else i.tokenExpiresAt,
       accessToken := Encrypted(encrypt, p.accessToken).GetOr(i.accessToken),
       appSecret := if Truthy(p.appSecret).Some? then Encrypted(encrypt, p.appSecret) else i.appSecret)
  }

  function OnPage(rows: map<nat, Integration>, pageId: string): set<Integration> {
    set id | id in rows && rows[id].pageId == pageId :: rows[id]
  }

  function ActiveOf(rows: map<nat, Integration>, clientId: string): set<Integration> {
    set id | id in rows && rows[id].clientId == clientId && rows[id].isActive :: rows[id]
  }

  /** What a step does, as a relation: a page has at most one row, whichever way it is found. */
  ghost predicate PlainStep(encrypt: string -> string, t: Table, op: Op, after: Table, answer: Answer) {
    match op
    case Create(clientId, platform, pageId, accessToken, appSecret, tokenExpiresAt) =>
      if pageId in t.pages then after == t && answer == Conflict
      else
        var i := Integration(t.nextId, clientId, platform, pageId, encrypt(accessToken),
                             Encrypted(encrypt, appSecret), Truthy(tokenExpiresAt), true);
        after == Table(t.rows[t.nextId := i], t.nextId + 1, t.pages + {pageId}) && answer == One(i)
    case FindAll(clientId) => after == t && answer == All(ActiveOf(t.rows, clientId))
    case FindOne(id) => after == t && answer == if id in t.rows then One(t.rows[id]) else NotFound
    case FindByPageId(pageId) =>
      && after == t
      && (answer.One? || answer.NotFound?)
      && OnPage(t.rows, pageId) == if answer.One? then {answer.integration} else {}
    case Update(id, patch) =>
      if id in t.rows then
        var i := Merge(t.rows[id], patch, encrypt);
        after == t.(rows := t.rows[id := i]) && answer == One(i)
      else after == t && answer == NotFound
    case Remove(id) =>
      if id in t.rows then after == t.(rows := t.rows - {id}) && answer == Done
      else after == t && answer == NotFound
  }

  /** The table and answers of a run are determined: the step is a function of the table and the operation. */
  lemma PlainStepIsDetermined(encrypt: string -> string, t: Table, op: Op, t1: Table, a1: Answer, t2: Table, a2: Answer)
    requires PlainStep(encrypt, t, op, t1, a1) && PlainStep(encrypt, t, op, t2, a2)
    ensures t1 == t2 && a1 == a2
  {
    if op.FindByPageId? && a1.One? && a2.One? {
      assert a1.integration in OnPage(t.rows, op.pageId);
    }
  }

  ghost predicate PlainRun(encrypt: string -> string, t: Table, ops: seq<Op>, after: Table, answers: seq<Answer>) {
    |answers| == |ops| &&
    if ops == [] then after == t
    else
      var n := |ops| - 1;
      exists before :: PlainRun(encrypt, t, ops[..n], before, answers[..n])
        && PlainStep(encrypt, before, ops[n], after, answers[n])
  }

  lemma {:induction false} PlainRunIsDetermined(encrypt: string -> string, t: Table, ops: seq<Op>,
                                                t1: Table, a1: seq<Answer>, t2: Table, a2: seq<Answer>)
    requires PlainRun(encrypt, t, ops, t1, a1) && PlainRun(encrypt, t, ops, t2, a2)
    ensures t1 == t2 && a1 == a2
  {
    if ops != [] {
      var n := |ops| - 1;
      var b1 :| PlainRun(encrypt, t, ops[..n], b1, a1[..n]) && PlainStep(encrypt, b1, ops[n], t1, a1[n]);
      var b2 :| PlainRun(encrypt, t, ops[..n], b2, a2[..n]) && PlainStep(encrypt, b2, ops[n], t2, a2[n]);
      PlainRunIsDetermined(encrypt, t, ops[..n], b1, a1[..n], b2, a2[..n]);
      PlainStepIsDetermined(encrypt, b1, ops[n], t1, a1[n], t2, a2[n]);
      assert a1 == a1[..n] + [a1[n]] && a2 == a2[..n] + [a2[n]];
    }
  }

  // ---------- The service ----------

  // ---------- What it does ----------

  /** The list of a client is its active integrations, and nothing else is on it. */
  lemma ListIs(encrypt: string -> string, t: Table, clientId: string, after: Table, answer: Answer, i: Integration)
    requires t.Valid() && PlainStep(encrypt, t, Op.FindAll(clientId), after, answer)
    ensures after == t && answer.All?
    ensures i in answer.integrations <==> i.id in t.rows && t.rows[i.id] == i && i.clientId == clientId && i.isActive
  {
  }

  /** A row is found by its id and by its page. */
  lemma FoundBoth(encrypt: string -> string, t: Table, i: Integration, after: Table, byId: Answer, byPage: Answer)
    requires t.Valid()
    requires PlainStep(encrypt, t, Op.FindOne(i.id), after, byId)
    requires PlainStep(encrypt, t, Op.FindByPageId(i.pageId), after, byPage)
    ensures after == t
    ensures i.id in t.rows && t.rows[i.id] == i ==> byId == One(i) && byPage == One(i)
    ensures byPage == NotFound <==> forall id :: id in t.rows ==> t.rows[id].pageId != i.pageId
  {
    if i.id in t.rows && t.rows[i.id] == i {
      assert i in OnPage(t.rows, i.pageId);
    }
    if byPage == NotFound {
      forall id | id in t.rows
        ensures t.rows[id].pageId != i.pageId
      {
        assert t.rows[id] in OnPage(t.rows, t.rows[id].pageId);
      }
    } else {
      assert byPage.integration in OnPage(t.rows, i.pageId);
    }
  }

  /** A new integration is active, with its secrets encrypted and what is empty left out; a page is taken for good. */
  lemma CreateStores(encrypt: string -> string, t: Table, op: Op, after: Table, answer: Answer)
    requires t.Valid() && op.Create? && PlainStep(encrypt, t, op, after, answer)
    ensures op.pageId in t.pages ==> after == t && answer == Conflict
    ensures op.pageId !in t.pages ==>
      && answer.One? && answer.integration.id !in t.rows
      && after.rows == t.rows[answer.integration.id := answer.integration] && after.pages == t.pages + {op.pageId}
      && var i := answer.integration;
         && i.clientId == op.clientId && i.platform == op.platform && i.pageId == op.pageId && i.isActive
         && i.accessToken == encrypt(op.accessToken)
         && (if op.appSecret.Some? && op.appSecret.value != "" then i.appSecret == Some(encrypt(op.appSecret.value))
             else i.appSecret == None)
         && (if op.tokenExpiresAt.Some? && op.tokenExpiresAt.value != "" then i.tokenExpiresAt == op.tokenExpiresAt
             else i.tokenExpiresAt == None)
  {
  }

  /** An update changes the fields given, of that row alone; an unknown one is not found. */
  lemma UpdateStores(encrypt: string -> string, t: Table, op: Op, after: Table, answer: Answer)
    requires t.Valid() && op.Update? && PlainStep(encrypt, t, op, after, answer)
    ensures op.id !in t.rows ==> after == t && answer == NotFound
    ensures op.id in t.rows ==>
      && answer.One? && after == t.(rows := t.rows[op.id := answer.integration])
      && var (i, was, p) := (answer.integration, t.rows[op.id], op.patch);
         && i.id == was.id && i.clientId == was.clientId && i.platform == was.platform && i.pageId == was.pageId
         && (if p.isActive.Some? then i.isActive == p.isActive.value else i.isActive == was.isActive)
         && (if p.accessToken.Some? && p.accessToken.value != "" then i.accessToken == encrypt(p.accessToken.value)
             else i.accessToken == was.accessToken)
         && (if p.appSecret.Some? && p.appSecret.value != "" then i.appSecret == Some(encrypt(p.appSecret.value))
             else i.appSecret == was.appSecret)
         && (if p.tokenExpiresAt.Some? && p.tokenExpiresAt.value != "" then i.tokenExpiresAt == p.tokenExpiresAt
             else i.tokenExpiresAt == was.tokenExpiresAt)
  {
  }

  /** A removed row is gone, but its page stays taken. */
  lemma RemoveForgets(encrypt: string -> string, t: Table, op: Op, after: Table, answer: Answer)
    requires t.Valid() && op.Remove? && PlainStep(encrypt, t, op, after, answer)
    ensures op.id !in t.rows ==> after == t && answer == NotFound
    ensures op.id in t.rows ==> answer == Done && after.rows == t.rows - {op.id} && after.pages == t.pages
  {
  }

  class IntegrationsService {
    const encrypt: string -> string
    var table: Table
    var byId: map<nat, Integration>
    var byPage: map<string, Integration>

    /** Both entries of a row are what the table says now. */
    ghost predicate Valid()
      reads this
    {
      && table.Valid()
      && (forall id :: id in byId ==> id in table.rows && byId[id] == table.rows[id])
      && (forall p :: p in byPage ==>
            byPage[p].id in table.rows && table.rows[byPage[p].id] == byPage[p] && byPage[p].pageId == p)
    }

    constructor (encrypt: string -> string)
      ensures Valid() && table == Table(map[], 0, {}) && this.encrypt == encrypt
    {
      this.encrypt := encrypt;
      table, byId, byPage := Table(map[], 0, {}), map[], map[];
    }

    /** Entries that time takes away. */
    method Expire()
      requires Valid()
      modifies `byId, `byPage
      ensures Valid()
    {
      var ids: set<nat> := *;
      var pages: set<string> := *;
      byId := byId - ids;
      byPage := byPage - pages;
    }

    method Create(clientId: string, platform: string, pageId: string, accessToken: string,
                  appSecret: Option<string>, tokenExpiresAt: Option<string>) returns (answer: Answer)
      requires Valid()
      modifies this
      ensures Valid()
      ensures PlainStep(encrypt, old(table),
        Op.Create(clientId, platform, pageId, accessToken, appSecret, tokenExpiresAt), table, answer)
    {
      var entity := Integration(table.nextId, clientId, platform, pageId, encrypt(accessToken),
                                Encrypted(encrypt, appSecret), Truthy(tokenExpiresAt), true);
      if pageId in table.pages {
        return Conflict;
      }
      table := Table(table.rows[entity.id := entity], table.nextId + 1, table.pages + {pageId});
      byId := byId[entity.id := entity];
      byPage := byPage[entity.pageId := entity];
      answer := One(entity);
    }

    method FindAll(clientId: string) returns (answer: Answer)
      requires Valid()
      ensures PlainStep(encrypt, table, Op.FindAll(clientId), table, answer)
    {
      answer := All(ActiveOf(table.rows, clientId));
    }

    method FindOne(id: nat) returns (answer: Answer)
      requires Valid()
      modifies `byId, `byPage
      ensures Valid() && PlainStep(encrypt, old(table), Op.FindOne(id), table, answer)
    {
      Expire();
      if id in byId {
        return One(byId[id]);
      }
      if id !in table.rows {
        return NotFound;
      }
      byId := byId[id := table.rows[id]];
      answer := One(table.rows[id]);
    }

    method FindByPageId(pageId: string) returns (answer: Answer)
      requires Valid()
      modifies `byId, `byPage
      ensures Valid() && PlainStep(encrypt, old(table), Op.FindByPageId(pageId), table, answer)
    {
      Expire();
      if pageId in byPage {
        assert byPage[pageId] in OnPage(table.rows, pageId);
        return One(byPage[pageId]);
      }
      var found := OnPage(table.rows, pageId);
      if found == {} {
        return NotFound;
      }
      var integration :| integration in found;
      byId := byId[integration.id := integration];
      byPage := byPage[pageId := integration];
      answer := One(integration);
    }

    method Update(id: nat, patch: Patch) returns (answer: Answer)
      requires Valid()
      modifies this
      ensures Valid() && PlainStep(encrypt, old(table), Op.Update(id, patch), table, answer)
    {
      var found := FindOne(id);
      if found.NotFound? {
        return found;
      }
      var integration := found.integration;
      var updated := Merge(integration, patch, encrypt);
      table := table.(rows := table.rows[id := updated]);
      byId := byId - {id};
      byPage := byPage - {integration.pageId};
      answer := One(updated);
    }

    method Remove(id: nat) returns (answer: Answer)
      requires Valid()
      modifies this
      ensures Valid() && PlainStep(encrypt, old(table), Op.Remove(id), table, answer)
    {
      var found := FindOne(id);
      if found.NotFound? {
        return found;
      }
      var integration := found.integration;
      table := table.(rows := table.rows - {id});
      byId := byId - {id};
      byPage := byPage - {integration.pageId};
      answer := Done;
    }

    method Perform(op: Op) returns (answer: Answer)
      requires Valid()
      modifies this
      ensures Valid() && PlainStep(encrypt, old(table), op, table, answer)
    {
      match op
      case Create(clientId, platform, pageId, accessToken, appSecret, tokenExpiresAt) =>
        answer := Create(clientId, platform, pageId, accessToken, appSecret, tokenExpiresAt);
      case FindAll(clientId) => answer := FindAll(clientId);
      case FindOne(id) => answer := FindOne(id);
      case FindByPageId(pageId) => answer := FindByPageId(pageId);
      case Update(id, patch) => answer := Update(id, patch);
      case Remove(id) => answer := Remove(id);
    }

    /** Over every run, with entries expiring at any time, the answers are those of the service with no cache. */
    method Serve(ops: seq<Op>) returns (answers: seq<Answer>)
      requires Valid()
      modifies this
      ensures Valid() && PlainRun(encrypt, old(table), ops, table, answers)
    {
      answers := [];
      for n := 0 to |ops|
        invariant Valid() && PlainRun(encrypt, old(table), ops[..n], table, answers)
      {
        assert ops[..n + 1][..n] == ops[..n];
        ghost var before, given := table, answers;
        var answer := Perform(ops[n]);
        answers := answers + [answer];
        assert answers[..n] == given;
        assert PlainRun(encrypt, old(table), ops[..n + 1][..n], before, answers[..n]);
      }
      assert ops[..|ops|] == ops;
    }
  }
}
