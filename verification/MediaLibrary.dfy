/**
 Media uploads (media-library.service.ts, meta-upload.processor.ts): the log of each upload against
 the jobs for it. `added` says whether the queue took a job, `decrypts` whether the worker could read
 the access token in it.
 */
module MediaLibrary {
  import opened Prelude

  datatype Status = Processing | Success | Failed

  datatype Log = Log(clientId: string, adAccountId: string, mediaName: string, status: Status,
                     metaAssetId: Option<string>, errorMessage: Option<string>, attemptCount: nat)

  /**
   The log table (a row's id is its place), the jobs waiting and running by log id, and for the
   proofs: how often each log was enqueued, and the logs whose job was lost on the way: never
   enqueued, or dropped by the worker before it could answer.
   */
  datatype State = State(logs: seq<Log>, queued: multiset<nat>, running: multiset<nat>,
                         enqueued: seq<nat>, unqueued: set<nat>, dropped: set<nat>) {
    function Jobs(id: nat): nat {
      queued[id] + running[id]
    }

    predicate Lost(id: nat) {
      id in unqueued || id in dropped
    }
  }

  datatype Error = NotFound | BadRequest | PayloadTooLarge | Unprocessable | DriveFailed | QueueFailed

  // ---------- Transitions ----------

  function NewLog(clientId: string, adAccountId: string, mediaName: string): Log {
    Log(clientId, adAccountId, mediaName, Processing, None, None, 0)
  }

  /** Handing the job of log `id` to the queue. */
  function Enqueue(s: State, id: nat, added: bool): State
    requires id < |s.enqueued|
  {
    if added then s.(queued := s.queued + multiset{id}, enqueued := s.enqueued[id := s.enqueued[id] + 1])
    else s.(unqueued := s.unqueued + {id})
  }

  /** A new upload: its log, and its job. */
  function Save(s: State, log: Log, added: bool): State
    requires |s.enqueued| == |s.logs|
  {
    Enqueue(s.(logs := s.logs + [log], enqueued := s.enqueued + [0]), |s.logs|, added)
  }

  predicate MayRetry(s: State, id: nat) {
    id < |s.logs| && s.logs[id].status == Failed
  }

  function Retry(s: State, id: nat, added: bool): State
    requires MayRetry(s, id) && |s.enqueued| == |s.logs|
  {
    var log := s.logs[id];
    Enqueue(s.(logs := s.logs[id := Retried(log)]),
            id, added)
  }

  /** A worker takes the job of log `id`. */
  function Start(s: State, id: nat): State {
    if id in s.queued then s.(queued := s.queued - multiset{id}, running := s.running + multiset{id}) else s
  }

  /** The worker is done with it: an asset, or an error message. */
  function Finish(s: State, id: nat, decrypts: bool, outcome: Result<string, string>): State
    requires forall j :: j in s.running ==> j < |s.logs|
  {
    if id !in s.running then s
    else
      var after := s.(running := s.running - multiset{id});
      if !decrypts then after.(dropped := after.dropped + {id})
      else
        var log := s.logs[id];
        after.(logs := s.logs[id := match outcome
          case Ok(asset) => log.(status := Success, metaAssetId := Some(asset), errorMessage := None)
          case Err(message) => log.(status := Failed, errorMessage := Some(message))])
  }

  // ---------- What every step keeps ----------

  ghost predicate Inv(s: State) {
    && |s.enqueued| == |s.logs|
    && (forall id: nat :: id in s.queued || id in s.running || s.Lost(id) ==> id < |s.logs|)
    && (forall id :: 0 <= id < |s.logs| ==> LogInv(s, id))
  }

  /** One log: PROCESSING means exactly one job, unless that job was lost; attempts are counted. */
  ghost predicate LogInv(s: State, id: nat)
    requires id < |s.logs| == |s.enqueued|
  {
    && s.Jobs(id) == (if s.logs[id].status == Processing && !s.Lost(id) then 1 else 0)
    && (s.Lost(id) ==> s.logs[id].status == Processing)
    && (id in s.unqueued ==> id !in s.dropped)
    && s.enqueued[id] + (if id in s.unqueued then 1 else 0) == s.logs[id].attemptCount + 1
  }

  /** What may happen to a log later: nothing once it is SUCCESS or its job is lost. */
  ghost predicate Follows(s: State, t: State) {
    && |s.logs| <= |t.logs|
    && s.unqueued <= t.unqueued && s.dropped <= t.dropped
    && forall id :: 0 <= id < |s.logs| ==>
      && (s.logs[id].status == Success || s.Lost(id) ==> t.logs[id] == s.logs[id])
      && s.logs[id].attemptCount <= t.logs[id].attemptCount
      && t.logs[id].clientId == s.logs[id].clientId && t.logs[id].mediaName == s.logs[id].mediaName
  }

  ghost predicate GoodStep(s: State, t: State) {
    Inv(t) && Follows(s, t)
  }

  lemma SaveIsGood(s: State, log: Log, added: bool)
    requires Inv(s) && log.status == Processing && log.attemptCount == 0
    ensures GoodStep(s, Save(s, log, added))
  {
    var t := Save(s, log, added);
    forall id | 0 <= id < |t.logs|
      ensures LogInv(t, id)
    {
      if id < |s.logs| { assert LogInv(s, id); }
    }
  }

  lemma RetryIsGood(s: State, id: nat, added: bool)
    requires Inv(s) && MayRetry(s, id)
    ensures GoodStep(s, Retry(s, id, added))
  {
    var t := Retry(s, id, added);
    forall j | 0 <= j < |t.logs|
      ensures LogInv(t, j)
    {
      assert LogInv(s, j);
    }
    forall j | 0 <= j < |s.logs|
      ensures s.logs[j].status == Success || s.Lost(j) ==> t.logs[j] == s.logs[j]
    {
      assert LogInv(s, j);
    }
  }

  lemma StartIsGood(s: State, id: nat)
    requires Inv(s)
    ensures GoodStep(s, Start(s, id))
  {
    var t := Start(s, id);
    forall j | 0 <= j < |t.logs|
      ensures LogInv(t, j)
    {
      assert LogInv(s, j);
    }
  }

  lemma FinishIsGood(s: State, id: nat, decrypts: bool, outcome: Result<string, string>)
    requires Inv(s)
    ensures GoodStep(s, Finish(s, id, decrypts, outcome))
  {
    var t := Finish(s, id, decrypts, outcome);
    forall j | 0 <= j < |t.logs|
      ensures LogInv(t, j)
      ensures s.logs[j].status == Success || s.Lost(j) ==> t.logs[j] == s.logs[j]
    {
      assert LogInv(s, j);
    }
  }

  // ---------- Every run ----------

  datatype Op =
    | Upload(clientId: string, adAccountId: string, mediaName: string, added: bool)
    | RetryOne(id: nat, accountFound: bool, added: bool)
    | StartJob(id: nat)
    | FinishJob(id: nat, decrypts: bool, outcome: Result<string, string>)

  /** A refused operation changes nothing. */
  function Step(s: State, op: Op): State
    requires |s.enqueued| == |s.logs| && forall j :: j in s.running ==> j < |s.logs|
  {
    match op
    case Upload(clientId, adAccountId, mediaName, added) => Save(s, NewLog(clientId, adAccountId, mediaName), added)
    case RetryOne(id, accountFound, added) => if MayRetry(s, id) && accountFound then Retry(s, id, added) else s
    case StartJob(id) => Start(s, id)
    case FinishJob(id, decrypts, outcome) => Finish(s, id, decrypts, outcome)
  }

  lemma StepIsGood(s: State, op: Op)
    requires Inv(s)
    ensures GoodStep(s, Step(s, op))
  {
    match op
    case Upload(clientId, adAccountId, mediaName, added) =>
      SaveIsGood(s, NewLog(clientId, adAccountId, mediaName), added);
    case RetryOne(id, accountFound, added) => if MayRetry(s, id) && accountFound { RetryIsGood(s, id, added); }
    case StartJob(id) => StartIsGood(s, id);
    case FinishJob(id, decrypts, outcome) => FinishIsGood(s, id, decrypts, outcome);
  }

  // ---------- What each operation does ----------

  /** The logs but for `id` are the same. */
  predicate OthersSame(s: State, t: State, id: nat) {
    |t.logs| >= |s.logs| && forall j :: 0 <= j < |s.logs| && j != id ==> t.logs[j] == s.logs[j]
  }

  /** An upload saves a log that is PROCESSING, at its first attempt, and its job if the queue takes it. */
  lemma UploadStores(s: State, clientId: string, adAccountId: string, mediaName: string, added: bool)
    requires Inv(s)
    ensures var t := Step(s, Op.Upload(clientId, adAccountId, mediaName, added)); var id := |s.logs|;
      && |t.logs| == id + 1 && OthersSame(s, t, id)
      && t.logs[id].clientId == clientId && t.logs[id].adAccountId == adAccountId && t.logs[id].mediaName == mediaName
      && t.logs[id].status == Processing && t.logs[id].attemptCount == 0
      && t.logs[id].metaAssetId == None && t.logs[id].errorMessage == None
      && t.running == s.running && t.queued == (if added then s.queued + multiset{id} else s.queued)
  {
  }

  /** A retry puts a FAILED log, and no other, back to PROCESSING, at its next attempt and with no error. */
  lemma RetryStores(s: State, id: nat, accountFound: bool, added: bool)
    requires Inv(s)
    ensures var t := Step(s, Op.RetryOne(id, accountFound, added));
      if id < |s.logs| && s.logs[id].status == Failed && accountFound then
        && |t.logs| == |s.logs| && OthersSame(s, t, id)
        && t.logs[id].status == Processing && t.logs[id].attemptCount == s.logs[id].attemptCount + 1
        && t.logs[id].errorMessage == None && t.logs[id].metaAssetId == s.logs[id].metaAssetId
        && t.logs[id].clientId == s.logs[id].clientId && t.logs[id].adAccountId == s.logs[id].adAccountId
        && t.logs[id].mediaName == s.logs[id].mediaName
        && t.running == s.running && t.queued == (if added then s.queued + multiset{id} else s.queued)
      else t == s
  {
  }

  /** A worker takes a waiting job, and when it is done the log says how it ended. */
  lemma WorkStores(s: State, id: nat, decrypts: bool, outcome: Result<string, string>)
    requires Inv(s)
    ensures id in s.queued ==> var t := Step(s, StartJob(id));
      && t.logs == s.logs && t.queued == s.queued - multiset{id} && t.running == s.running + multiset{id}
    ensures id in s.running ==> var t := Step(s, FinishJob(id, decrypts, outcome));
      && t.queued == s.queued && t.running == s.running - multiset{id}
      && |t.logs| == |s.logs| && OthersSame(s, t, id)
      && (!decrypts ==> t.logs == s.logs)
      && (decrypts && outcome.Ok? ==>
          && t.logs[id].status == Success && t.logs[id].errorMessage == None
          && t.logs[id].metaAssetId == Some(outcome.value))
      && (decrypts && outcome.Err? ==>
          && t.logs[id].status == Failed && t.logs[id].errorMessage == Some(outcome.error)
          && t.logs[id].metaAssetId == s.logs[id].metaAssetId)
      && t.logs[id].attemptCount == s.logs[id].attemptCount
  {
  }

  const EMPTY := State([], multiset{}, multiset{}, [], {}, {})

  /** The state after `ops`. */
  ghost function After(s: State, ops: seq<Op>): (r: State)
    requires Inv(s)
    ensures Inv(r)
  {
    if ops == [] then s
    else
      var before := After(s, ops[..|ops| - 1]);
      StepIsGood(before, ops[|ops| - 1]);
      Step(before, ops[|ops| - 1])
  }

  /** The state after a run from the empty table. */
  ghost function Run(ops: seq<Op>): (s: State)
    ensures Inv(s)
  {
    After(EMPTY, ops)
  }

  lemma {:induction false} AfterBoth(s: State, a: seq<Op>, b: seq<Op>)
    requires Inv(s)
    ensures After(After(s, a), b) == After(s, a + b)
  {
    hide Inv, Step;
    if b == [] {
      assert a + b == a;
    } else {
      AfterBoth(s, a, b[..|b| - 1]);
      assert (a + b)[..|a + b| - 1] == a + b[..|b| - 1];
    }
  }

  /** A hand-off that may lose a job: to a queue that refuses it, or to a worker that cannot read its token. */
  predicate Loses(op: Op) {
    match op
    case Upload(_, _, _, added) => !added
    case RetryOne(_, _, added) => !added
    case StartJob(_) => false
    case FinishJob(_, decrypts, _) => !decrypts
  }

  lemma StepLosesNothing(s: State, op: Op)
    requires Inv(s) && !Loses(op) && s.unqueued == {} && s.dropped == {}
    ensures Step(s, op).unqueued == {} && Step(s, op).dropped == {}
  {
  }

  lemma {:induction false} NothingLost(ops: seq<Op>)
    requires forall op :: op in ops ==> !Loses(op)
    ensures Run(ops).unqueued == {} && Run(ops).dropped == {}
  {
    if ops != [] {
      hide Step, Loses, Inv;
      NothingLost(ops[..|ops| - 1]);
      StepLosesNothing(Run(ops[..|ops| - 1]), ops[|ops| - 1]);
    }
  }

  /**
   When enqueueing and decrypting succeed, a log is PROCESSING exactly when one job for it waits or
   runs, otherwise none does, and its job was enqueued once more than it was retried.
   */
  lemma ProcessingMeansOneJob(ops: seq<Op>, id: nat)
    requires forall op :: op in ops ==> !Loses(op)
    ensures var s := Run(ops);
      id < |s.logs| ==>
        && s.Jobs(id) == (if s.logs[id].status == Processing then 1 else 0)
        && s.enqueued[id] == s.logs[id].attemptCount + 1
  {
    NothingLost(ops);
    assert id < |Run(ops).logs| ==> LogInv(Run(ops), id);
  }

  /** In any run at all this holds of a log exactly when its job was not lost. */
  lemma ProcessingMeansOneJobIff(ops: seq<Op>, id: nat)
    ensures var s := Run(ops);
      id < |s.logs| ==>
        ((s.Jobs(id) == if s.logs[id].status == Processing then 1 else 0) <==> !s.Lost(id))
  {
    assert id < |Run(ops).logs| ==> LogInv(Run(ops), id);
  }

  /**
   Over any stretch of a run: a log that is SUCCESS stays as it is, and so does one whose job was lost,
   which is PROCESSING for ever, for only a FAILED log can be retried. Attempts never go down.
   */
  lemma {:induction false} EveryRunFollows(ops: seq<Op>, n: nat)
    requires n <= |ops|
    ensures Follows(Run(ops[..n]), Run(ops))
    ensures forall id: nat :: Run(ops[..n]).Lost(id) ==>
      id < |Run(ops).logs| && Run(ops).logs[id].status == Processing && Run(ops).Jobs(id) == 0
    decreases |ops|
  {
    var last := |ops| - 1;
    if n == |ops| {
      assert ops[..n] == ops;
    } else {
      EveryRunFollows(ops[..last], n);
      assert ops[..last][..n] == ops[..n];
      StepIsGood(Run(ops[..last]), ops[last]);
    }
    forall id: nat | Run(ops[..n]).Lost(id)
      ensures id < |Run(ops).logs| && Run(ops).logs[id].status == Processing && Run(ops).Jobs(id) == 0
    {
      assert Run(ops).Lost(id);
      assert LogInv(Run(ops), id);
    }
  }

  // ---------- Retrying all failed logs of a client ----------

  predicate IsFailedOf(log: Log, clientId: string) {
    log.clientId == clientId && log.status == Failed
  }

  function FailedOf(logs: seq<Log>, clientId: string): (ids: seq<nat>)
    ensures forall k :: 0 <= k < |ids| ==> ids[k] < |logs| && IsFailedOf(logs[ids[k]], clientId)
    ensures forall i, j :: 0 <= i < j < |ids| ==> ids[i] < ids[j]
    ensures forall id :: 0 <= id < |logs| && IsFailedOf(logs[id], clientId) ==> id in ids
  {
    if logs == [] then []
    else
      var n := |logs| - 1;
      var rest := FailedOf(logs[..n], clientId);
      if IsFailedOf(logs[n], clientId) then rest + [n] else rest
  }

  function Retried(log: Log): Log {
    log.(status := Processing, errorMessage := None, attemptCount := log.attemptCount + 1)
  }

  /** The logs after the ones at `ids` are retried in turn. */
  function RetryAll(logs: seq<Log>, ids: seq<nat>, accountFound: nat -> bool): (r: seq<Log>)
    requires forall k :: 0 <= k < |ids| ==> ids[k] < |logs|
    ensures |r| == |logs|
  {
    if ids == [] then logs
    else
      var n := |ids| - 1;
      var before := RetryAll(logs, ids[..n], accountFound);
      if accountFound(ids[n]) then before[ids[n] := Retried(before[ids[n]])] else before
  }

  lemma {:induction false} RetryAllAt(logs: seq<Log>, ids: seq<nat>, accountFound: nat -> bool, id: nat)
    requires forall k :: 0 <= k < |ids| ==> ids[k] < |logs|
    requires forall i, j :: 0 <= i < j < |ids| ==> ids[i] < ids[j]
    requires id < |logs|
    ensures RetryAll(logs, ids, accountFound)[id]
      == if id in ids && accountFound(id) then Retried(logs[id]) else logs[id]
  {
    if ids != [] {
      RetryAllAt(logs, ids[..|ids| - 1], accountFound, id);
    }
  }

  function CountTaken(ids: seq<nat>, accountFound: nat -> bool, added: nat -> bool): nat {
    if ids == [] then 0
    else
      var before := CountTaken(ids[..|ids| - 1], accountFound, added);
      if accountFound(ids[|ids| - 1]) && added(ids[|ids| - 1]) then before + 1 else before
  }

  lemma NoneYet(logs: seq<Log>, accountFound: nat -> bool, added: nat -> bool)
    ensures RetryAll(logs, [], accountFound) == logs && CountTaken([], accountFound, added) == 0
  {
  }

  lemma RetryOneMore(logs: seq<Log>, ids: seq<nat>, k: nat, accountFound: nat -> bool)
    requires k < |ids| && forall i :: 0 <= i < |ids| ==> ids[i] < |logs|
    requires forall i, j :: 0 <= i < j < |ids| ==> ids[i] < ids[j]
    ensures var before := RetryAll(logs, ids[..k], accountFound);
      && before[ids[k]] == logs[ids[k]]
      && RetryAll(logs, ids[..k + 1], accountFound)
        == if accountFound(ids[k]) then before[ids[k] := Retried(before[ids[k]])] else before
  {
    hide Retried;
    NotYet(logs, ids, k, accountFound);
    var first := ids[..k + 1];
    assert first[..k] == ids[..k] && first[k] == ids[k];
  }

  ghost function HandedOver(ids: seq<nat>, accountFound: nat -> bool, added: nat -> bool): set<int> {
    set k | 0 <= k < |ids| && accountFound(ids[k]) && added(ids[k])
  }

  /** The retries counted are those of the logs whose account is found and whose job the queue takes. */
  lemma {:induction false} CountTakenIs(ids: seq<nat>, accountFound: nat -> bool, added: nat -> bool)
    ensures CountTaken(ids, accountFound, added) == |HandedOver(ids, accountFound, added)|
  {
    if ids != [] {
      hide HandedOver;
      CountTakenIs(ids[..|ids| - 1], accountFound, added);
      LastHandedOver(ids, accountFound, added);
    } else {
      assert HandedOver(ids, accountFound, added) == {};
    }
  }

  lemma LastHandedOver(ids: seq<nat>, accountFound: nat -> bool, added: nat -> bool)
    requires ids != []
    ensures var n := |ids| - 1;
      |HandedOver(ids, accountFound, added)|
        == |HandedOver(ids[..n], accountFound, added)| + if accountFound(ids[n]) && added(ids[n]) then 1 else 0
  {
    var n := |ids| - 1;
    var before := HandedOver(ids[..n], accountFound, added);
    assert HandedOver(ids, accountFound, added)
      == if accountFound(ids[n]) && added(ids[n]) then before + {n} else before;
  }

  lemma CountOneMore(ids: seq<nat>, k: nat, accountFound: nat -> bool, added: nat -> bool)
    requires k < |ids|
    ensures CountTaken(ids[..k + 1], accountFound, added)
      == CountTaken(ids[..k], accountFound, added) + if accountFound(ids[k]) && added(ids[k]) then 1 else 0
  {
    var first := ids[..k + 1];
    assert first[..k] == ids[..k] && first[k] == ids[k];
  }

  lemma NotYet(logs: seq<Log>, ids: seq<nat>, k: nat, accountFound: nat -> bool)
    requires k < |ids| && forall i :: 0 <= i < |ids| ==> ids[i] < |logs|
    requires forall i, j :: 0 <= i < j < |ids| ==> ids[i] < ids[j]
    ensures RetryAll(logs, ids[..k], accountFound)[ids[k]] == logs[ids[k]]
  {
    hide Retried, RetryAll;
    RetryAllAt(logs, ids[..k], accountFound, ids[k]);
  }

  /**
   Retrying the failed logs of a client puts each whose account is found back to PROCESSING, and
   touches no other log.
   */
  lemma RetryAllFailed(logs: seq<Log>, clientId: string, accountFound: nat -> bool, id: nat)
    requires id < |logs|
    ensures RetryAll(logs, FailedOf(logs, clientId), accountFound)[id]
      == if IsFailedOf(logs[id], clientId) && accountFound(id) then Retried(logs[id]) else logs[id]
  {
    RetryAllAt(logs, FailedOf(logs, clientId), accountFound, id);
  }

  /** The retries of these logs, one by one. */
  function Retries(ids: seq<nat>, accountFound: nat -> bool, added: nat -> bool): seq<Op> {
    seq(|ids|, k requires 0 <= k < |ids| => Op.RetryOne(ids[k], accountFound(ids[k]), added(ids[k])))
  }

  lemma NextRetry(s: State, ids: seq<nat>, k: nat, accountFound: nat -> bool, added: nat -> bool)
    requires Inv(s) && k < |ids|
    ensures After(s, Retries(ids[..k + 1], accountFound, added))
      == Step(After(s, Retries(ids[..k], accountFound, added)),
              Op.RetryOne(ids[k], accountFound(ids[k]), added(ids[k])))
  {
    hide Inv, Step;
    var more := Retries(ids[..k + 1], accountFound, added);
    assert more[..k] == Retries(ids[..k], accountFound, added);
  }

  /** So a run in which all failed logs of a client are retried at some point is a run as well. */
  lemma RetryingIsARun(ops: seq<Op>, clientId: string, accountFound: nat -> bool, added: nat -> bool, more: seq<Op>)
    ensures var retries := Retries(FailedOf(Run(ops).logs, clientId), accountFound, added);
      After(After(Run(ops), retries), more) == Run(ops + retries + more)
  {
    hide Step, FailedOf, Retries;
    var retries := Retries(FailedOf(Run(ops).logs, clientId), accountFound, added);
    AfterBoth(EMPTY, ops, retries);
    AfterBoth(EMPTY, ops + retries, more);
  }

  // ---------- The service ----------

  class MediaLibraryService {
    const maxFileSizeBytes: nat
    var logs: seq<Log>
    var queued: multiset<nat>
    var running: multiset<nat>
    ghost var enqueued: seq<nat>
    ghost var unqueued: set<nat>
    ghost var dropped: set<nat>

    ghost function Current(): State
      reads this
    {
      State(logs, queued, running, enqueued, unqueued, dropped)
    }

    constructor (maxFileSizeBytes: nat)
      ensures Current() == EMPTY && this.maxFileSizeBytes == maxFileSizeBytes
    {
      this.maxFileSizeBytes := maxFileSizeBytes;
      logs, queued, running := [], multiset{}, multiset{};
      enqueued, unqueued, dropped := [], {}, {};
    }

    method AddJob(id: nat, added: bool)
      requires id < |enqueued|
      modifies this
      ensures Current() == Enqueue(old(Current()), id, added)
    {
      if added {
        queued := queued + multiset{id};
        enqueued := enqueued[id := enqueued[id] + 1];
      } else {
        unqueued := unqueued + {id};
      }
    }

    /** The log and job of a file that is in Drive. */
    method SaveAndEnqueue(clientId: string, adAccountId: string, mediaName: string, added: bool)
      returns (result: Result<nat, Error>)
      requires Inv(Current())
      modifies this
      ensures Inv(Current()) && Current() == Step(old(Current()), Op.Upload(clientId, adAccountId, mediaName, added))
      ensures result == if added then Ok(|old(logs)|) else Err(QueueFailed)
    {
      StepIsGood(Current(), Op.Upload(clientId, adAccountId, mediaName, added));
      var id := |logs|;
      logs := logs + [NewLog(clientId, adAccountId, mediaName)];
      enqueued := enqueued + [0];
      AddJob(id, added);
      result := if added then Ok(id) else Err(QueueFailed);
    }

    /** `hasFolder`: the client has a Drive folder; `uploaded`: Drive took the file. */
    method Upload(clientId: string, adAccountId: string, mediaName: string,
                  accountFound: bool, clientFound: bool, hasFolder: bool, uploaded: bool, added: bool)
      returns (result: Result<nat, Error>)
      requires Inv(Current())
      modifies this
      ensures Inv(Current())
      ensures var accepted := accountFound && clientFound && hasFolder && uploaded;
        && (Current() == if accepted then Step(old(Current()), Op.Upload(clientId, adAccountId, mediaName, added))
                         else old(Current()))
        && (result.Ok? <==> accepted && added)
      ensures result == Err(NotFound) <==> !accountFound || !clientFound
      ensures result == Err(Unprocessable) <==> accountFound && clientFound && !hasFolder
      ensures result == Err(DriveFailed) <==> accountFound && clientFound && hasFolder && !uploaded
    {
      if !accountFound || !clientFound {
        return Err(NotFound);
      }
      if !hasFolder {
        return Err(Unprocessable);
      }
      if !uploaded {
        return Err(DriveFailed);
      }
      result := SaveAndEnqueue(clientId, adAccountId, mediaName, added);
    }

    method CompleteUploadSession(clientId: string, adAccountId: string, mediaName: string,
                                 fileSize: Option<nat>, accountFound: bool, added: bool)
      returns (result: Result<nat, Error>)
      requires Inv(Current())
      modifies this
      ensures Inv(Current())
      ensures var accepted := fileSize.Some? && fileSize.value <= maxFileSizeBytes && accountFound;
        && (Current() == if accepted then Step(old(Current()), Op.Upload(clientId, adAccountId, mediaName, added))
                         else old(Current()))
        && (result.Ok? <==> accepted && added)
      ensures result == Err(DriveFailed) <==> fileSize.None?
      ensures result == Err(PayloadTooLarge) <==> fileSize.Some? && fileSize.value > maxFileSizeBytes
      ensures result == Err(NotFound) <==> fileSize.Some? && fileSize.value <= maxFileSizeBytes && !accountFound
    {
      if fileSize.None? {
        return Err(DriveFailed);
      }
      if fileSize.value > maxFileSizeBytes {
        return Err(PayloadTooLarge);
      }
      if !accountFound {
        return Err(NotFound);
      }
      result := SaveAndEnqueue(clientId, adAccountId, mediaName, added);
    }

    method RetryOne(id: nat, accountFound: bool, added: bool) returns (result: Result<nat, Error>)
      requires Inv(Current())
      modifies this
      ensures Inv(Current()) && Current() == Step(old(Current()), Op.RetryOne(id, accountFound, added))
      ensures logs == if MayRetry(old(Current()), id) && accountFound
                      then old(logs)[id := Retried(old(logs)[id])] else old(logs)
      ensures running == old(running)
      ensures result.Ok? <==> MayRetry(old(Current()), id) && accountFound && added
      ensures result == Err(BadRequest) <==> id < |old(logs)| && old(logs)[id].status != Failed
    {
      StepIsGood(Current(), Op.RetryOne(id, accountFound, added));
      if id >= |logs| {
        return Err(NotFound);
      }
      var log := logs[id];
      if log.status != Failed {
        return Err(BadRequest);
      }
      if !accountFound {
        return Err(NotFound);
      }
      logs := logs[id := Retried(log)];
      AddJob(id, added);
      result := if added then Ok(id) else Err(QueueFailed);
    }

    /** Retries the logs of the client that are FAILED, each once; the count is of those whose job the queue took. */
    method RetryFailed(clientId: string, accountFound: nat -> bool, added: nat -> bool) returns (retried: nat)
      requires Inv(Current())
      modifies this
      ensures Inv(Current())
      ensures Current() == After(old(Current()), Retries(FailedOf(old(logs), clientId), accountFound, added))
      ensures logs == RetryAll(old(logs), FailedOf(old(logs), clientId), accountFound)
      ensures retried == CountTaken(FailedOf(old(logs), clientId), accountFound, added)
    {
      hide Inv, Step, FailedOf, RetryAll, CountTaken, Retried;
      ghost var before := Current();
      var failed := FailedOf(logs, clientId);
      retried := 0;
      NoneYet(logs, accountFound, added);
      assert failed[..0] == [];
      for k := 0 to |failed|
        invariant Inv(Current())
        invariant Current() == After(before, Retries(failed[..k], accountFound, added))
        invariant logs == RetryAll(old(logs), failed[..k], accountFound)
        invariant retried == CountTaken(failed[..k], accountFound, added)
      {
        RetryOneMore(old(logs), failed, k, accountFound);
        CountOneMore(failed, k, accountFound, added);
        NextRetry(before, failed, k, accountFound, added);
        var result := RetryOne(failed[k], accountFound(failed[k]), added(failed[k]));
        if result.Ok? {
          retried := retried + 1;
        }
      }
      assert failed[..|failed|] == failed;
    }

    /** The queue gives a waiting job to a worker. */
    method TakeJob(id: nat)
      requires Inv(Current())
      modifies this
      ensures Inv(Current()) && Current() == Step(old(Current()), StartJob(id))
    {
      StepIsGood(Current(), StartJob(id));
      if id in queued {
        queued := queued - multiset{id};
        running := running + multiset{id};
      }
    }

    /** The worker: `outcome` is what the download and the upload to Meta come to. */
    method Process(id: nat, decrypts: bool, outcome: Result<string, string>)
      requires Inv(Current()) && id in running
      modifies this
      ensures Inv(Current()) && Current() == Step(old(Current()), FinishJob(id, decrypts, outcome))
    {
      StepIsGood(Current(), FinishJob(id, decrypts, outcome));
      running := running - multiset{id};
      if !decrypts {
        dropped := dropped + {id};
        return;
      }
      var log := logs[id];
      match outcome {
        case Ok(asset) => log := log.(status := Success, metaAssetId := Some(asset), errorMessage := None);
        case Err(message) => log := log.(status := Failed, errorMessage := Some(message));
      }
      logs := logs[id := log];
    }
  }
}
