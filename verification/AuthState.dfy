/**
 The WhatsApp session keys kept in the database (db-auth-state.ts): a write-through memory in front
 of the rows of one phone.
 */
module AuthState {
  import opened Prelude

  /** The row name of key `id` of type `type_`. */
  function KeyId(type_: string, id: string): string {
    type_ + "-" + id
  }

  const CREDS := "creds"
  const APP_STATE_SYNC_KEY := "app-state-sync-key"

  /** `slice(type.length + 1)` recovers the id, and no key is the row of the credentials. */
  lemma KeyIdFacts(type_: string, id: string)
    ensures KeyId(type_, id)[|type_| + 1..] == id
    ensures KeyId(type_, id) != CREDS
  {
    assert KeyId(type_, id)[|type_|] == '-';
  }

  /** Two keys share a row exactly when one type extends the other and the id makes up for it. */
  lemma KeysCollideIff(t: string, i: string, u: string, j: string)
    requires |t| <= |u|
    ensures KeyId(t, i) == KeyId(u, j)
      <==> (t == u && i == j) || (t + "-" <= u && i == u[|t| + 1..] + "-" + j)
  {
    var k := KeyId(u, j);
    if t + "-" <= u && i == u[|t| + 1..] + "-" + j {
      assert u == (t + "-") + u[|t| + 1..];
      assert KeyId(t, i) == k;
    }
    if KeyId(t, i) == k {
      KeyIdFacts(t, i);
      KeyIdFacts(u, j);
      assert k[..|t| + 1] == t + "-";
      assert k[..|u|] == u;
      if |t| < |u| {
        assert u[..|t| + 1] == k[..|t| + 1];
        assert k[|t| + 1..] == u[|t| + 1..] + "-" + j;
      }
    }
  }

  /** Encryption with a fresh nonce, and its inverse; `fromObject` is applied to one type of key. */
  datatype Codec<!V(!new)> = Codec(encrypt: (V, nat) -> string, decrypt: string -> V, fromObject: V -> V) {
    ghost predicate Valid() {
      forall v: V, nonce: nat :: decrypt(encrypt(v, nonce)) == v
    }

    lemma Inverse(v: V, nonce: nat)
      requires Valid()
      ensures decrypt(encrypt(v, nonce)) == v
    {
    }

    function Convert(type_: string, v: V): V {
      if type_ == APP_STATE_SYNC_KEY then fromObject(v) else v
    }
  }

  /** The values of one type are made into objects again, and only those. */
  lemma ConvertIs<V(!new)>(codec: Codec<V>, type_: string, v: V)
    ensures type_ == "app-state-sync-key" ==> codec.Convert(type_, v) == codec.fromObject(v)
    ensures type_ != "app-state-sync-key" ==> codec.Convert(type_, v) == v
    ensures CREDS == "creds"
  {
  }

  /** One value of a `set`; none is a deletion. */
  datatype Entry<V> = Entry(type_: string, id: string, value: Option<V>)

  predicate Distinct<V>(data: seq<Entry<V>>) {
    forall i, j :: 0 <= i < j < |data| ==> KeyId(data[i].type_, data[i].id) != KeyId(data[j].type_, data[j].id)
  }

  function KeyOf<V>(e: Entry<V>): string {
    KeyId(e.type_, e.id)
  }

  /** The value under `k` after `data` is written over `before`, entry by entry. */
  function Written<V>(data: seq<Entry<V>>, k: string, before: Option<V>): Option<V> {
    if data == [] then before
    else
      var last := data[|data| - 1];
      if KeyId(last.type_, last.id) == k then last.value else Written(data[..|data| - 1], k, before)
  }

  predicate Mentioned<V>(data: seq<Entry<V>>, k: string) {
    data != [] &&
    (KeyId(data[|data| - 1].type_, data[|data| - 1].id) == k || Mentioned(data[..|data| - 1], k))
  }

  function Held<V>(cache: map<string, V>, k: string): Option<V> {
    if k in cache then Some(cache[k]) else None
  }

  lemma {:induction false} MentionedWhere<V>(data: seq<Entry<V>>, k: string)
    ensures Mentioned(data, k) <==> exists i :: 0 <= i < |data| && KeyId(data[i].type_, data[i].id) == k
  {
    if data != [] {
      MentionedWhere(data[..|data| - 1], k);
    }
  }

  lemma NotMentioned<V>(data: seq<Entry<V>>, n: nat)
    requires Distinct(data) && n < |data|
    ensures !Mentioned(data[..n], KeyId(data[n].type_, data[n].id))
  {
    MentionedWhere(data[..n], KeyId(data[n].type_, data[n].id));
  }

  /** The last value that `data` sets for row `k`. */
  function LastSet<V>(data: seq<Entry<V>>, k: string): Option<V> {
    if data == [] then None
    else
      var last := data[|data| - 1];
      if KeyOf(last) == k && last.value.Some? then last.value else LastSet(data[..|data| - 1], k)
  }

  predicate Deleted<V>(data: seq<Entry<V>>, k: string) {
    data != [] &&
    ((KeyOf(data[|data| - 1]) == k && data[|data| - 1].value.None?) || Deleted(data[..|data| - 1], k))
  }

  /** Two entries set the same row: the database refuses such an upsert. */
  predicate SetsTwice<V>(data: seq<Entry<V>>) {
    data != [] &&
    (SetsTwice(data[..|data| - 1])
     || (data[|data| - 1].value.Some? && LastSet(data[..|data| - 1], KeyOf(data[|data| - 1])).Some?))
  }

  /** Row `k` after all values are written and then all deletions made. */
  function Landed<V>(data: seq<Entry<V>>, k: string, before: Option<V>): Option<V> {
    if Deleted(data, k) then None else if LastSet(data, k).Some? then LastSet(data, k) else before
  }

  /** Some row is deleted by an entry and set by the last one that names it. */
  ghost predicate SetAfterDelete<V>(data: seq<Entry<V>>) {
    exists k :: Deleted(data, k) && Written(data, k, None).Some?
  }

  lemma {:induction false} WrittenAgainstLanded<V>(data: seq<Entry<V>>, k: string, before: Option<V>)
    ensures !Deleted(data, k) ==> Written(data, k, before) == Landed(data, k, before)
    ensures Deleted(data, k) ==> Written(data, k, before) == Written(data, k, None)
  {
    if data != [] {
      WrittenAgainstLanded(data[..|data| - 1], k, before);
    }
  }

  // Entries that are of different rows can be written in any order.
  lemma {:induction false} DistinctLands<V>(data: seq<Entry<V>>, k: string, before: Option<V>)
    requires Distinct(data)
    ensures !SetsTwice(data)
    ensures Landed(data, k, before) == Written(data, k, before)
    ensures !Mentioned(data, k) ==> !Deleted(data, k) && LastSet(data, k) == None && Written(data, k, before) == before
    decreases |data|, 0
  {
    if data != [] {
      var n := |data| - 1;
      DistinctLands(data[..n], k, before);
      NotMentioned(data, n);
      DistinctLands(data[..n], KeyOf(data[n]), before);
    }
  }

  lemma DistinctStaysValid<V>(data: seq<Entry<V>>)
    requires Distinct(data)
    ensures !SetAfterDelete(data)
  {
    forall k
      ensures !(Deleted(data, k) && Written(data, k, None).Some?)
    {
      DistinctLands(data, k, None);
    }
  }

  /** The table of all phones. */
  class Repository {
    var rows: map<(string, string), string>

    constructor ()
      ensures rows == map[]
    {
      rows := map[];
    }
  }

  class DbAuthState<V(!new)> {
    const repo: Repository
    const phone: string
    const codec: Codec<V>
    var creds: V
    var cache: map<string, V>

    ghost predicate Sound()
      reads this
    {
      codec.Valid() && CREDS !in cache
    }

    /** The memory holds only what the rows of this phone hold. */
    ghost predicate Valid()
      reads this, repo
    {
      Sound() && forall k :: k in cache ==> Stored(k) == Some(cache[k])
    }

    ghost function Stored(keyId: string): Option<V>
      reads repo
    {
      if (phone, keyId) in repo.rows then Some(codec.decrypt(repo.rows[(phone, keyId)])) else None
    }

    constructor (repo: Repository, codec: Codec<V>, phone: string, initial: V)
      requires codec.Valid()
      ensures Valid() && this.repo == repo && this.phone == phone && this.codec == codec
      ensures cache == map[] && creds == Stored(CREDS).GetOr(initial)
    {
      this.repo, this.codec, this.phone := repo, codec, phone;
      cache := map[];
      creds := if (phone, CREDS) in repo.rows then codec.decrypt(repo.rows[(phone, CREDS)]) else initial;
    }

    method Get(type_: string, ids: seq<string>) returns (result: map<string, V>)
      requires Valid()
      modifies `cache
      ensures Valid()
      ensures result.Keys == set id | id in ids && Stored(KeyId(type_, id)).Some?
      ensures forall id :: id in result ==> result[id] == codec.Convert(type_, Stored(KeyId(type_, id)).value)
    {
      result := map[];
      var missing: seq<string> := [];
      for i := 0 to |ids|
        invariant forall m :: m in missing ==> m in ids[..i]
        invariant forall id :: id in result ==> id in ids[..i] && Stored(KeyId(type_, id)) == Some(result[id])
        invariant forall id :: id in ids[..i] ==> id in result || id in missing
      {
        var keyId := KeyId(type_, ids[i]);
        if keyId in cache {
          result := result[ids[i] := cache[keyId]];
        } else {
          missing := missing + [ids[i]];
        }
      }
      assert ids[..|ids|] == ids;
      var found := set id | id in missing && (phone, KeyId(type_, id)) in repo.rows :: KeyId(type_, id);
      result := LoadRows(type_, ids, found, result);
      result := map id | id in result :: codec.Convert(type_, result[id]);
    }

    /** Moves the found rows, in whatever order, into the memory and the result. */
    method LoadRows(type_: string, ids: seq<string>, found: set<string>, before: map<string, V>)
      returns (result: map<string, V>)
      requires Valid()
      requires forall k :: k in found ==> Stored(k).Some? && exists id :: id in ids && k == KeyId(type_, id)
      requires forall id :: id in before ==> id in ids && Stored(KeyId(type_, id)) == Some(before[id])
      requires forall id :: id in ids ==>
        id in before || KeyId(type_, id) in found || Stored(KeyId(type_, id)).None?
      modifies `cache
      ensures Valid()
      ensures result.Keys == set id | id in ids && Stored(KeyId(type_, id)).Some?
      ensures forall id :: id in result ==> Stored(KeyId(type_, id)) == Some(result[id])
    {
      result := before;
      var rows := found;
      while rows != {}
        invariant rows <= found && Valid()
        invariant forall id :: id in result ==> id in ids && Stored(KeyId(type_, id)) == Some(result[id])
        invariant forall id :: id in ids ==>
          id in result || KeyId(type_, id) in rows || Stored(KeyId(type_, id)).None?
        decreases rows
      {
        var keyId :| keyId in rows;
        ghost var from :| from in ids && keyId == KeyId(type_, from);
        KeyIdFacts(type_, from);
        var id := keyId[|type_| + 1..];
        var value := codec.decrypt(repo.rows[(phone, keyId)]);
        cache := cache[keyId := value];
        result := result[id := value];
        rows := rows - {keyId};
        forall other | other in ids && KeyId(type_, other) == keyId
          ensures other == id
        {
          KeyIdFacts(type_, other);
        }
      }
    }

    /**
     The memory takes the entries in turn; the rows take all values and then all deletions, or nothing
     if one row is set twice (`ok`). The memory still agrees with the rows unless an entry sets what an
     earlier one deletes, which takes two keys that share a row.
     */
    method Set(data: seq<Entry<V>>) returns (ok: bool)
      requires Valid()
      modifies `cache, repo
      ensures Sound() && (ok <==> !SetsTwice(data))
      ensures forall k :: Held(cache, k) == Written(data, k, old(Held(cache, k)))
      ensures forall k :: Stored(k) == if ok then Landed(data, k, old(Stored(k))) else old(Stored(k))
      ensures OtherRowsKept(old(repo.rows), repo.rows)
      ensures ok ==> (Valid() <==> !SetAfterDelete(data))
    {
      var upserts: map<(string, string), string> := map[];
      var deletes: set<(string, string)> := {};
      var twice := false;
      for n := 0 to |data|
        invariant repo.rows == old(repo.rows) && Sound()
        invariant twice <==> SetsTwice(data[..n])
        invariant forall p :: p in upserts || p in deletes ==> p.0 == phone && p.1 != CREDS
        invariant forall k :: (phone, k) in deletes <==> Deleted(data[..n], k)
        invariant forall k :: Upserted(upserts, k) == LastSet(data[..n], k)
        invariant forall k :: Held(cache, k) == Written(data[..n], k, old(Held(cache, k)))
      {
        assert data[..n + 1][..n] == data[..n];
        var keyId := KeyId(data[n].type_, data[n].id);
        KeyIdFacts(data[n].type_, data[n].id);
        match data[n].value {
          case Some(value) =>
            var nonce: nat := *;
            codec.Inverse(value, nonce);
            cache := cache[keyId := value];
            twice := twice || (phone, keyId) in upserts;
            upserts := upserts[(phone, keyId) := codec.encrypt(value, nonce)];
          case None =>
            cache := cache - {keyId};
            deletes := deletes + {(phone, keyId)};
        }
      }
      assert data[..|data|] == data;
      if twice {
        return false;
      }
      repo.rows := repo.rows + upserts;
      repo.rows := repo.rows - deletes;
      ok := true;
      assert forall k :: Stored(k) == Landed(data, k, old(Stored(k)));
      ValidIff(data, old(cache), old(repo.rows));
    }

    /** What the upsert writes for a key. */
    ghost function Upserted(upserts: map<(string, string), string>, k: string): Option<V> {
      if (phone, k) in upserts then Some(codec.decrypt(upserts[(phone, k)])) else None
    }

    ghost function StoredIn(rows: map<(string, string), string>, k: string): Option<V> {
      if (phone, k) in rows then Some(codec.decrypt(rows[(phone, k)])) else None
    }

    lemma ValidIff(data: seq<Entry<V>>, memory: map<string, V>, rows: map<(string, string), string>)
      requires Sound()
      requires forall k :: k in memory ==> StoredIn(rows, k) == Some(memory[k])
      requires forall k :: Held(cache, k) == Written(data, k, Held(memory, k))
      requires forall k :: Stored(k) == Landed(data, k, StoredIn(rows, k))
      ensures Valid() <==> !SetAfterDelete(data)
    {
      forall k
        ensures (k in cache ==> Stored(k) == Some(cache[k])) <==> !(Deleted(data, k) && Written(data, k, None).Some?)
      {
        assert Held(cache, k) == Written(data, k, Held(memory, k));
        WrittenAgainstLanded(data, k, Held(memory, k));
        WrittenAgainstLanded(data, k, StoredIn(rows, k));
      }
    }

    /** Rows of other phones, and the credentials, are the same. */
    ghost predicate OtherRowsKept(before: map<(string, string), string>, after: map<(string, string), string>) {
      forall p: (string, string) :: p.0 != phone || p.1 == CREDS ==>
        (p in before <==> p in after) && (p in before ==> before[p] == after[p])
    }

    method SaveCreds()
      requires Valid()
      modifies repo
      ensures Valid()
      ensures Stored(CREDS) == Some(creds)
      ensures forall p :: p != (phone, CREDS) ==>
        (p in old(repo.rows) <==> p in repo.rows) && (p in repo.rows ==> old(repo.rows)[p] == repo.rows[p])
    {
      var nonce: nat := *;
      codec.Inverse(creds, nonce);
      repo.rows := repo.rows[(phone, CREDS) := codec.encrypt(creds, nonce)];
    }

    method Clear()
      requires Valid()
      modifies `cache, repo
      ensures Valid() && cache == map[]
      ensures repo.rows == map p | p in old(repo.rows) && p.0 != phone :: old(repo.rows)[p]
    {
      cache := map[];
      repo.rows := map p | p in repo.rows && p.0 != phone :: repo.rows[p];
    }
  }

  // ---------- Whole runs ----------

  /** The store that is meant: a map from (type, id) to values. */
  type Plain<V> = map<(string, string), V>

  datatype Op<V> = Get(type_: string, ids: seq<string>) | Set(data: seq<Entry<V>>) | SaveCreds | Clear | Restart

  function Overwrite<V>(m: Plain<V>, data: seq<Entry<V>>): Plain<V> {
    if data == [] then m
    else
      var rest, last := Overwrite(m, data[..|data| - 1]), data[|data| - 1];
      match last.value
      case Some(v) => rest[(last.type_, last.id) := v]
      case None => rest - {(last.type_, last.id)}
  }

  /** The next map, and the answer of a `get`. */
  function PlainStep<V(!new)>(codec: Codec<V>, m: Plain<V>, op: Op<V>): (Plain<V>, map<string, V>) {
    match op
    case Get(t, ids) => (m, map id | id in ids && (t, id) in m :: codec.Convert(t, m[(t, id)]))
    case Set(data) => (Overwrite(m, data), map[])
    case SaveCreds => (m, map[])
    case Clear => (map[], map[])
    case Restart => (m, map[])
  }

  function PlainRun<V(!new)>(codec: Codec<V>, m: Plain<V>, ops: seq<Op<V>>): (Plain<V>, seq<map<string, V>>) {
    if ops == [] then (m, [])
    else
      var (before, answers) := PlainRun(codec, m, ops[..|ops| - 1]);
      var (after, answer) := PlainStep(codec, before, ops[|ops| - 1]);
      (after, answers + [answer])
  }

  /** No two of the keys in use share a row. */
  ghost predicate NoCollision(keys: set<(string, string)>) {
    forall p, q :: p in keys && q in keys && KeyId(p.0, p.1) == KeyId(q.0, q.1) ==> p == q
  }

  /** The operation uses only `keys`, and a `set` names each of its keys once, as the keys of a record. */
  ghost predicate Uses<V>(op: Op<V>, keys: set<(string, string)>) {
    match op
    case Get(t, ids) => forall id :: id in ids ==> (t, id) in keys
    case Set(data) =>
      && (forall i :: 0 <= i < |data| ==> (data[i].type_, data[i].id) in keys)
      && (forall i, j :: 0 <= i < j < |data| ==> (data[i].type_, data[i].id) != (data[j].type_, data[j].id))
    case _ => true
  }

  lemma {:induction false} OverwriteIsWritten<V>(m: Plain<V>, data: seq<Entry<V>>,
                                                 keys: set<(string, string)>, p: (string, string))
    requires NoCollision(keys) && p in keys
    requires forall i :: 0 <= i < |data| ==> (data[i].type_, data[i].id) in keys
    ensures (if p in Overwrite(m, data) then Some(Overwrite(m, data)[p]) else None)
      == Written(data, KeyId(p.0, p.1), if p in m then Some(m[p]) else None)
  {
    if data != [] {
      OverwriteIsWritten(m, data[..|data| - 1], keys, p);
      var last := data[|data| - 1];
      assert (last.type_, last.id) in keys;
      assert KeyId(last.type_, last.id) == KeyId(p.0, p.1) ==> (last.type_, last.id) == p;
    }
  }

  lemma {:induction false} OverwriteWithin<V>(m: Plain<V>, data: seq<Entry<V>>, keys: set<(string, string)>)
    requires m.Keys <= keys && forall i :: 0 <= i < |data| ==> (data[i].type_, data[i].id) in keys
    ensures Overwrite(m, data).Keys <= keys
  {
    if data != [] {
      OverwriteWithin(m, data[..|data| - 1], keys);
    }
  }

  /** What the rows of the session's phone say about `keys`. */
  ghost function View<V(!new)>(s: DbAuthState<V>, keys: set<(string, string)>): Plain<V>
    reads s, s.repo
  {
    map p | p in keys && s.Stored(KeyId(p.0, p.1)).Some? :: s.Stored(KeyId(p.0, p.1)).value
  }

  ghost predicate OtherPhonesKept(phone: string, before: map<(string, string), string>,
                                  after: map<(string, string), string>)
  {
    forall p: (string, string) :: p.0 != phone ==>
      (p in before <==> p in after) && (p in before ==> before[p] == after[p])
  }

  // Each operation, seen through the view.

  method PlainGet<V(!new)>(s: DbAuthState<V>, t: string, ids: seq<string>, ghost keys: set<(string, string)>)
    returns (answer: map<string, V>)
    requires s.Valid() && forall id :: id in ids ==> (t, id) in keys
    modifies s
    ensures s.Valid() && View(s, keys) == old(View(s, keys))
    ensures var m := View(s, keys);
      answer == map id | id in ids && (t, id) in m :: s.codec.Convert(t, m[(t, id)])
  {
    answer := s.Get(t, ids);
    assert View(s, keys) == old(View(s, keys));
    assert forall id :: id in ids ==> ((t, id) in View(s, keys) <==> s.Stored(KeyId(t, id)).Some?);
  }

  lemma UsesDistinctRows<V>(data: seq<Entry<V>>, keys: set<(string, string)>)
    requires NoCollision(keys) && Uses(Op.Set(data), keys)
    ensures Distinct(data)
  {
    hide KeyId;
    forall i, j | 0 <= i < j < |data|
      ensures KeyId(data[i].type_, data[i].id) != KeyId(data[j].type_, data[j].id)
    {
      assert (data[i].type_, data[i].id) in keys && (data[j].type_, data[j].id) in keys;
    }
  }

  method PlainSet<V(!new)>(s: DbAuthState<V>, data: seq<Entry<V>>, ghost keys: set<(string, string)>)
    requires s.Valid() && NoCollision(keys) && Uses(Op.Set(data), keys)
    modifies s, s.repo
    ensures s.Valid() && View(s, keys) == Overwrite(old(View(s, keys)), data)
    ensures OtherPhonesKept(s.phone, old(s.repo.rows), s.repo.rows)
  {
    hide Written, Landed, LastSet, Deleted, SetsTwice, SetAfterDelete, Overwrite, KeyId, Distinct;
    ghost var before := View(s, keys);
    ghost var after := Overwrite(before, data);
    OverwriteWithin(before, data, keys);
    UsesDistinctRows(data, keys);
    DistinctStaysValid(data);
    DistinctLands(data, CREDS, None);
    var _ := s.Set(data);
    forall p | p in keys
      ensures (if p in after then Some(after[p]) else None) == s.Stored(KeyId(p.0, p.1))
    {
      OverwriteIsWritten(before, data, keys, p);
      DistinctLands(data, KeyId(p.0, p.1), if p in before then Some(before[p]) else None);
    }
    assert View(s, keys) == after;
  }

  method PlainSaveCreds<V(!new)>(s: DbAuthState<V>, ghost keys: set<(string, string)>)
    requires s.Valid()
    modifies s.repo
    ensures s.Valid() && View(s, keys) == old(View(s, keys))
    ensures OtherPhonesKept(s.phone, old(s.repo.rows), s.repo.rows)
  {
    forall p | p in keys
      ensures KeyId(p.0, p.1) != CREDS
    {
      KeyIdFacts(p.0, p.1);
    }
    s.SaveCreds();
    assert View(s, keys) == old(View(s, keys));
  }

  method Perform<V(!new)>(s: DbAuthState<V>, op: Op<V>, initial: V, ghost keys: set<(string, string)>)
    returns (next: DbAuthState<V>, answer: map<string, V>)
    requires s.Valid() && NoCollision(keys) && Uses(op, keys)
    modifies s, s.repo
    ensures next == s || fresh(next)
    ensures next.Valid() && next.repo == s.repo && next.phone == s.phone && next.codec == s.codec
    ensures (View(next, keys), answer) == PlainStep(s.codec, old(View(s, keys)), op)
    ensures OtherPhonesKept(s.phone, old(s.repo.rows), s.repo.rows)
  {
    next := s;
    answer := map[];
    match op {
      case Get(t, ids) => answer := PlainGet(s, t, ids, keys);
      case Set(data) => PlainSet(s, data, keys);
      case SaveCreds => PlainSaveCreds(s, keys);
      case Clear =>
        s.Clear();
        assert View(s, keys) == map[];
      case Restart =>
        next := new DbAuthState(s.repo, s.codec, s.phone, initial);
        assert View(next, keys) == old(View(s, keys));
    }
  }

  /**
   Any run of gets, sets, saves, clears and restarts answers as the plain map kept in the rows of the
   phone, as long as no two keys in use share a row; the rows of other phones never change.
   */
  method Serve<V(!new)>(s: DbAuthState<V>, ops: seq<Op<V>>, initial: V, ghost keys: set<(string, string)>)
    returns (last: DbAuthState<V>, answers: seq<map<string, V>>)
    requires s.Valid() && NoCollision(keys) && forall op :: op in ops ==> Uses(op, keys)
    modifies s, s.repo
    ensures last.Valid() && last.repo == s.repo && last.phone == s.phone
    ensures (View(last, keys), answers) == PlainRun(s.codec, old(View(s, keys)), ops)
    ensures OtherPhonesKept(s.phone, old(s.repo.rows), s.repo.rows)
  {
    last := s;
    answers := [];
    for n := 0 to |ops|
      invariant last == s || fresh(last)
      invariant last.Valid() && last.repo == s.repo && last.phone == s.phone && last.codec == s.codec
      invariant (View(last, keys), answers) == PlainRun(s.codec, old(View(s, keys)), ops[..n])
      invariant OtherPhonesKept(s.phone, old(s.repo.rows), s.repo.rows)
    {
      assert ops[..n + 1][..n] == ops[..n];
      var answer;
      last, answer := Perform(last, ops[n], initial, keys);
      answers := answers + [answer];
    }
    assert ops[..|ops|] == ops;
  }

  /**
   And that is needed: for any two keys that share a row there is a run of three calls, from any state,
   whose answer is not that of the plain map.
   */
  method CollisionShows<V(!new)>(s: DbAuthState<V>, p: (string, string), q: (string, string), v: V, ghost m: Plain<V>)
    returns (ghost ops: seq<Op<V>>, answer: map<string, V>)
    requires s.Valid() && p != q && KeyId(p.0, p.1) == KeyId(q.0, q.1)
    modifies s, s.repo
    ensures ops == [Op.Set([Entry(p.0, p.1, Some(v))]), Op.Set([Entry(q.0, q.1, None)]), Op.Get(p.0, [p.1])]
    ensures answer == map[]
    ensures var answers := PlainRun(s.codec, m, ops).1; |answers| == 3 && p.1 in answers[2]
  {
    var set1, set2 := [Entry(p.0, p.1, Some(v))], [Entry(q.0, q.1, None)];
    ops := [Op.Set(set1), Op.Set(set2), Op.Get(p.0, [p.1])];
    PlainHolds(s.codec, m, p, q, v);
    OneEntry(set1, KeyId(p.0, p.1));
    OneEntry(set2, KeyId(p.0, p.1));
    hide Written, Landed, LastSet, Deleted, SetsTwice, SetAfterDelete, PlainRun, KeyId;
    var _ := s.Set(set1);
    var _ := s.Set(set2);
    answer := s.Get(p.0, [p.1]);
  }

  lemma OneEntry<V>(data: seq<Entry<V>>, k: string)
    requires |data| == 1
    ensures !SetsTwice(data) && !SetAfterDelete(data)
    ensures forall before :: KeyOf(data[0]) == k ==> Landed(data, k, before) == data[0].value
  {
    assert data[..0] == [];
    DistinctStaysValid(data);
  }

  lemma PlainHolds<V(!new)>(codec: Codec<V>, m: Plain<V>, p: (string, string), q: (string, string), v: V)
    requires p != q
    ensures var ops := [Op.Set([Entry(p.0, p.1, Some(v))]), Op.Set([Entry(q.0, q.1, None)]), Op.Get(p.0, [p.1])];
      var answers := PlainRun(codec, m, ops).1;
      |answers| == 3 && p.1 in answers[2]
  {
    var set1, set2 := [Entry(p.0, p.1, Some(v))], [Entry(q.0, q.1, None)];
    var a, b, c := Op.Set(set1), Op.Set(set2), Op.Get(p.0, [p.1]);
    assert set1[..0] == [] && set2[..0] == [];
    assert Overwrite(m, set1) == m[p := v];
    assert Overwrite(m[p := v], set2) == m[p := v] - {q};
    var none: seq<Op<V>> := [];
    assert PlainRun(codec, m, none) == (m, []);
    hide PlainRun, Overwrite;
    assert none + [a] == [a] && [a] + [b] == [a, b] && [a, b] + [c] == [a, b, c];
    PlainNext(codec, m, none, a);
    PlainNext(codec, m, [a], b);
    PlainNext(codec, m, [a, b], c);
  }

  lemma PlainNext<V(!new)>(codec: Codec<V>, m: Plain<V>, ops: seq<Op<V>>, op: Op<V>)
    ensures var (before, answers) := PlainRun(codec, m, ops);
      var (after, answer) := PlainStep(codec, before, op);
      PlainRun(codec, m, ops + [op]) == (after, answers + [answer])
  {
    assert (ops + [op])[..|ops|] == ops;
  }
}
