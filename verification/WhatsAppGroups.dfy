/**
 The WhatsApp groups of the clients (whatsapp-groups.service.ts): rows, and a cache of single groups
 and of each client's active groups whose entries may expire at any moment.
 */
module WhatsAppGroups {
  import opened Prelude

  datatype Group = Group(id: nat, clientId: string, groupJid: string, caption: Option<string>, isActive: bool)

  /** The rows that are not deleted. Ids are numbered as rows are created. */
  datatype Table = Table(rows: map<nat, Group>, nextId: nat) {
    ghost predicate Valid() {
      forall id :: id in rows ==> id < nextId && rows[id].id == id
    }
  }

  function ActiveOf(rows: map<nat, Group>, clientId: string): set<Group> {
    set id | id in rows && rows[id].clientId == clientId && rows[id].isActive :: rows[id]
  }

  // ---------- The service with no cache ----------

  datatype Op =
    | Create(clientId: string, groupJid: string, caption: Option<string>)
    | FindAll(clientId: string)
    | FindOne(id: nat)
    | Update(id: nat, newCaption: Option<string>, isActive: Option<bool>)
    | Remove(id: nat)

  datatype Answer = One(group: Group) | All(groups: set<Group>) | Done | NotFound

  /** An update leaves alone what it does not mention. */
  function Merge(g: Group, newCaption: Option<string>, isActive: Option<bool>): Group {
    g.(caption := if newCaption.Some? then newCaption else g.caption, isActive := isActive.GetOr(g.isActive))
  }

  function PlainStep(t: Table, op: Op): (Table, Answer) {
    match op
    case Create(clientId, groupJid, caption) =>
      var g := Group(t.nextId, clientId, groupJid, caption, true);
      (Table(t.rows[t.nextId := g], t.nextId + 1), One(g))
    case FindAll(clientId) => (t, All(ActiveOf(t.rows, clientId)))
    case FindOne(id) => (t, if id in t.rows then One(t.rows[id]) else NotFound)
    case Update(id, newCaption, isActive) =>
      if id in t.rows then
        var g := Merge(t.rows[id], newCaption, isActive);
        (t.(rows := t.rows[id := g]), One(g))
      else (t, NotFound)
    case Remove(id) =>
      if id in t.rows then (t.(rows := t.rows - {id}), Done) else (t, NotFound)
  }

  function PlainRun(t: Table, ops: seq<Op>): (Table, seq<Answer>) {
    if ops == [] then (t, [])
    else
      var (before, answers) := PlainRun(t, ops[..|ops| - 1]);
      var (after, answer) := PlainStep(before, ops[|ops| - 1]);
      (after, answers + [answer])
  }

  // ---------- What it does ----------

  /** The list of a client is its active groups, and nothing else is on it. */
  lemma ListIs(t: Table, clientId: string, g: Group)
    requires t.Valid()
    ensures var answer := PlainStep(t, Op.FindAll(clientId)).1;
      && answer.All?
      && (g in answer.groups <==> g.id in t.rows && t.rows[g.id] == g && g.clientId == clientId && g.isActive)
  {
  }

  /** A new group is active and can be found at once; the others stay. */
  lemma CreateStores(t: Table, clientId: string, groupJid: string, caption: Option<string>)
    requires t.Valid()
    ensures var (after, answer) := PlainStep(t, Op.Create(clientId, groupJid, caption));
      && answer.One? && answer.group.id !in t.rows
      && answer.group == Group(answer.group.id, clientId, groupJid, caption, true)
      && after.rows == t.rows[answer.group.id := answer.group] && after.Valid()
      && PlainStep(after, Op.FindOne(answer.group.id)) == (after, answer)
  {
  }

  /** An update changes the fields given, of that group alone; an unknown group is not found. */
  lemma UpdateStores(t: Table, id: nat, newCaption: Option<string>, isActive: Option<bool>)
    requires t.Valid()
    ensures var (after, answer) := PlainStep(t, Op.Update(id, newCaption, isActive));
      && (id !in t.rows ==> after == t && answer == NotFound)
      && (id in t.rows ==>
          && answer.One? && after.rows == t.rows[id := answer.group] && after.Valid()
          && var (g, was) := (answer.group, t.rows[id]);
             && g.id == id && g.clientId == was.clientId && g.groupJid == was.groupJid
             && (if newCaption.Some? then g.caption == newCaption else g.caption == was.caption)
             && (if isActive.Some? then g.isActive == isActive.value else g.isActive == was.isActive))
  {
  }

  /** A removed group is not found any more; the others stay. */
  lemma RemoveForgets(t: Table, id: nat)
    ensures var (after, answer) := PlainStep(t, Op.Remove(id));
      && (id !in t.rows ==> after == t && answer == NotFound)
      && (id in t.rows ==> answer == Done && after.rows == t.rows - {id})
      && PlainStep(after, Op.FindOne(id)).1 == NotFound
  {
  }

  // ---------- The service ----------

  class WhatsAppGroupsService {
    var table: Table
    var byId: map<nat, Group>
    var byClient: map<string, set<Group>>

    /** Every entry is what the table says now. */
    ghost predicate Valid()
      reads this
    {
      && table.Valid()
      && (forall id :: id in byId ==> id in table.rows && byId[id] == table.rows[id])
      && (forall c :: c in byClient ==> byClient[c] == ActiveOf(table.rows, c))
    }

    constructor ()
      ensures Valid() && table == Table(map[], 0)
    {
      table, byId, byClient := Table(map[], 0), map[], map[];
    }

    /** Entries that time takes away. */
    method Expire()
      requires Valid()
      modifies `byId, `byClient
      ensures Valid()
    {
      var ids: set<nat> := *;
      var clients: set<string> := *;
      byId := byId - ids;
      byClient := byClient - clients;
    }

    method Create(clientId: string, groupJid: string, caption: Option<string>) returns (answer: Answer)
      requires Valid()
      modifies this
      ensures Valid() && (table, answer) == PlainStep(old(table), Op.Create(clientId, groupJid, caption))
    {
      var saved := Group(table.nextId, clientId, groupJid, caption, true);
      table := Table(table.rows[saved.id := saved], table.nextId + 1);
      byClient := byClient - {saved.clientId};
      byId := byId[saved.id := saved];
      OthersKeepTheirGroups(old(table.rows), saved.id, saved);
      answer := One(saved);
    }

    method FindAll(clientId: string) returns (answer: Answer)
      requires Valid()
      modifies `byId, `byClient
      ensures Valid() && (table, answer) == PlainStep(old(table), Op.FindAll(clientId))
    {
      Expire();
      if clientId in byClient {
        return All(byClient[clientId]);
      }
      var groups := ActiveOf(table.rows, clientId);
      byClient := byClient[clientId := groups];
      answer := All(groups);
    }

    method FindOne(id: nat) returns (answer: Answer)
      requires Valid()
      modifies `byId, `byClient
      ensures Valid() && (table, answer) == PlainStep(old(table), Op.FindOne(id))
    {
      Expire();
      if id in byId {
        return One(byId[id]);
      }
      if id !in table.rows {
        return NotFound;
      }
      byId := byId[id := table.rows[id]];
      answer := One(table.rows[id]);
    }

    method Update(id: nat, newCaption: Option<string>, isActive: Option<bool>) returns (answer: Answer)
      requires Valid()
      modifies this
      ensures Valid() && (table, answer) == PlainStep(old(table), Op.Update(id, newCaption, isActive))
    {
      var found := FindOne(id);
      if found.NotFound? {
        return found;
      }
      var group := found.group;
      var updated := Merge(group, newCaption, isActive);
      table := table.(rows := table.rows[id := updated]);
      byId := byId - {id};
      byClient := byClient - {group.clientId};
      OthersKeepTheirGroups(old(table.rows), id, updated);
      answer := One(updated);
    }

    method Remove(id: nat) returns (answer: Answer)
      requires Valid()
      modifies this
      ensures Valid() && (table, answer) == PlainStep(old(table), Op.Remove(id))
    {
      var found := FindOne(id);
      if found.NotFound? {
        return found;
      }
      var group := found.group;
      table := table.(rows := table.rows - {id});
      byId := byId - {id};
      byClient := byClient - {group.clientId};
      RemovalKeepsOthers(old(table.rows), id);
      answer := Done;
    }

    method Perform(op: Op) returns (answer: Answer)
      requires Valid()
      modifies this
      ensures Valid() && (table, answer) == PlainStep(old(table), op)
    {
      match op
      case Create(clientId, groupJid, caption) => answer := Create(clientId, groupJid, caption);
      case FindAll(clientId) => answer := FindAll(clientId);
      case FindOne(id) => answer := FindOne(id);
      case Update(id, newCaption, isActive) => answer := Update(id, newCaption, isActive);
      case Remove(id) => answer := Remove(id);
    }

    /** Over every run, with entries expiring at any time, the answers are those of the service with no cache. */
    method Serve(ops: seq<Op>) returns (answers: seq<Answer>)
      requires Valid()
      modifies this
      ensures Valid() && (table, answers) == PlainRun(old(table), ops)
    {
      answers := [];
      for n := 0 to |ops|
        invariant Valid() && (table, answers) == PlainRun(old(table), ops[..n])
      {
        assert ops[..n + 1][..n] == ops[..n];
        var answer := Perform(ops[n]);
        answers := answers + [answer];
      }
      assert ops[..|ops|] == ops;
    }
  }

  // Writing a row changes the list of its client only.
  lemma OthersKeepTheirGroups(rows: map<nat, Group>, id: nat, g: Group)
    requires id in rows ==> rows[id].clientId == g.clientId
    ensures forall c :: c != g.clientId ==> ActiveOf(rows[id := g], c) == ActiveOf(rows, c)
  {
    forall c | c != g.clientId
      ensures ActiveOf(rows[id := g], c) == ActiveOf(rows, c)
    {
      forall x | x in ActiveOf(rows, c)
        ensures x in ActiveOf(rows[id := g], c)
      {
        var i :| i in rows && rows[i].clientId == c && rows[i].isActive && rows[i] == x;
        assert rows[id := g][i] == x;
      }
    }
  }

  lemma RemovalKeepsOthers(rows: map<nat, Group>, id: nat)
    requires id in rows
    ensures forall c :: c != rows[id].clientId ==> ActiveOf(rows - {id}, c) == ActiveOf(rows, c)
  {
    forall c | c != rows[id].clientId
      ensures ActiveOf(rows - {id}, c) == ActiveOf(rows, c)
    {
      forall x | x in ActiveOf(rows, c)
        ensures x in ActiveOf(rows - {id}, c)
      {
        var i :| i in rows && rows[i].clientId == c && rows[i].isActive && rows[i] == x;
        assert i in rows - {id};
      }
    }
  }

  // ---------- All active groups, by client ----------

  function OfClient(groups: seq<Group>, clientId: string): seq<Group> {
    if groups == [] then []
    else
      var rest, last := OfClient(groups[..|groups| - 1], clientId), groups[|groups| - 1];
      if last.clientId == clientId then rest + [last] else rest
  }

  /** `groups` is what the query for active groups returns, in whatever order. */
  method FindAllActiveGroupedByClientId(groups: seq<Group>) returns (grouped: map<string, seq<Group>>)
    ensures grouped.Keys == set g | g in groups :: g.clientId
    ensures forall c :: c in grouped ==> grouped[c] == OfClient(groups, c) && grouped[c] != []
  {
    grouped := map[];
    for n := 0 to |groups|
      invariant grouped.Keys == set g | g in groups[..n] :: g.clientId
      invariant forall c :: c in grouped ==> grouped[c] == OfClient(groups[..n], c) && grouped[c] != []
      invariant forall c :: c !in grouped ==> OfClient(groups[..n], c) == []
    {
      var g := groups[n];
      assert groups[..n + 1] == groups[..n] + [g];
      var list := if g.clientId in grouped then grouped[g.clientId] else [];
      grouped := grouped[g.clientId := list + [g]];
    }
    assert groups[..|groups|] == groups;
  }

  /** The list of a client keeps the order of its groups. */
  lemma {:induction false} GroupsInOrder(groups: seq<Group>, clientId: string) returns (at: seq<nat>)
    ensures Picks(groups, at, OfClient(groups, clientId))
    ensures forall i :: 0 <= i < |groups| ==> (i in at <==> groups[i].clientId == clientId)
  {
    hide Picks;
    if groups == [] {
      at := [];
      NothingPicked<Group>();
    } else {
      var n := |groups| - 1;
      var before := GroupsInOrder(groups[..n], clientId);
      PickOneMore(groups, before, OfClient(groups[..n], clientId));
      assert forall i :: 0 <= i < n ==> groups[..n][i] == groups[i];
      at := if groups[n].clientId == clientId then before + [n] else before;
    }
  }

  /** Grouping loses, invents and moves nothing. */
  lemma {:induction false} GroupingKeepsGroups(groups: seq<Group>, clientId: string, g: Group)
    ensures multiset(OfClient(groups, clientId))[g] == if g.clientId == clientId then multiset(groups)[g] else 0
  {
    if groups != [] {
      GroupingKeepsGroups(groups[..|groups| - 1], clientId, g);
      assert groups == groups[..|groups| - 1] + [groups[|groups| - 1]];
    }
  }
}
