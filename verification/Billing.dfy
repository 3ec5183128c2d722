/**
 The contracts of a client and their installments (client-billing.service.ts), and the response that
 lists them (client-billing-response.dto.ts).
 */
module Billing {
  import opened Prelude
  import opened Sorting
  import I = Installments

  datatype Status = Active | Expired | Cancelled

  datatype Terms = Terms(amount: real, paymentMethod: string, discountType: Option<string>, discountValue: Option<real>)

  datatype Contract = Contract(
    clientId: string, startDate: int, durationMonths: nat, dueDay: int, terms: Terms, status: Status)

  datatype Installment = Installment(id: nat, billingId: nat, number: nat, dueDate: int, paidAt: Option<int>)

  /** Both tables; a row's id is its place. Rows are never deleted. */
  datatype Books = Books(contracts: seq<Contract>, installments: seq<Installment>)

  datatype Error = Conflict | NotFound | BadRequest

  // ---------- The response ----------

  datatype InstallmentStatus = Paid | Overdue | Pending

  datatype Item = Item(installment: Installment, status: InstallmentStatus)

  datatype Response = Response(id: nat, contract: Contract, items: seq<Item>)

  function ComputeStatus(i: Installment, now: int): InstallmentStatus {
    if i.paidAt.Some? then Paid else if i.dueDate < now then Overdue else Pending
  }

  predicate ByNumber(i: Installment, j: Installment) {
    i.number <= j.number
  }

  function ToResponse(id: nat, contract: Contract, installments: seq<Installment>, now: int): Response {
    var sorted := Sort(installments, ByNumber);
    var items := seq(|sorted|, k requires 0 <= k < |sorted| => Item(sorted[k], ComputeStatus(sorted[k], now)));
    Response(id, contract, items)
  }

  // ---------- The operations ----------

  predicate HasActive(b: Books, clientId: string) {
    exists i :: 0 <= i < |b.contracts| && IsActiveOf(b, i, clientId)
  }

  predicate IsActiveOf(b: Books, i: nat, clientId: string)
    requires i < |b.contracts|
  {
    b.contracts[i].clientId == clientId && b.contracts[i].status == Active
  }

  predicate Owns(b: Books, clientId: string, id: nat) {
    id < |b.contracts| && b.contracts[id].clientId == clientId
  }

  /** The rows of contract `id`, in table order. */
  function InstallmentsOf(rows: seq<Installment>, id: nat): seq<Installment> {
    if rows == [] then []
    else
      var rest, last := InstallmentsOf(rows[..|rows| - 1], id), rows[|rows| - 1];
      if last.billingId == id then rest + [last] else rest
  }

  function NewInstallments(first: nat, billingId: nat, dates: seq<int>): seq<Installment> {
    seq(|dates|, k requires 0 <= k < |dates| => Installment(first + k, billingId, k + 1, dates[k], None))
  }

  function DatesOf(c: Contract): seq<int> {
    I.Computed(c.startDate, c.dueDay, c.durationMonths)
  }

  function AddContract(b: Books, c: Contract): Books {
    Books(b.contracts + [c], b.installments + NewInstallments(|b.installments|, |b.contracts|, DatesOf(c)))
  }

  function Respond(b: Books, id: nat, now: int): Result<Response, Error>
    requires id < |b.contracts|
  {
    Ok(ToResponse(id, b.contracts[id], InstallmentsOf(b.installments, id), now))
  }

  /** What a renewal may leave to the contract it renews. */
  datatype Renewal = Renewal(startDate: int, durationMonths: nat, dueDay: Option<int>, amount: Option<real>,
                             paymentMethod: Option<string>, discountType: Option<string>, discountValue: Option<real>)

  function Renewed(current: Contract, r: Renewal): Contract {
    Contract(current.clientId, r.startDate, r.durationMonths, r.dueDay.GetOr(current.dueDay),
             Terms(r.amount.GetOr(current.terms.amount),
                   r.paymentMethod.GetOr(current.terms.paymentMethod),
                   if r.discountType.Some? then r.discountType else current.terms.discountType,
                   if r.discountValue.Some? then r.discountValue else current.terms.discountValue),
             Active)
  }

  function SetStatus(b: Books, id: nat, status: Status): Books
    requires id < |b.contracts|
  {
    b.(contracts := b.contracts[id := b.contracts[id].(status := status)])
  }

  function CreateStep(b: Books, clientId: string, startDate: int, durationMonths: nat, dueDay: int, terms: Terms)
    : Result<Books, Error>
  {
    if HasActive(b, clientId) then Err(Conflict)
    else Ok(AddContract(b, Contract(clientId, startDate, durationMonths, dueDay, terms, Active)))
  }

  function RenewStep(b: Books, clientId: string, id: nat, r: Renewal): Result<Books, Error> {
    if !Owns(b, clientId, id) then Err(NotFound)
    else if b.contracts[id].status != Active then Err(BadRequest)
    else Ok(AddContract(SetStatus(b, id, Expired), Renewed(b.contracts[id], r)))
  }

  function CancelStep(b: Books, clientId: string, id: nat): Result<Books, Error> {
    if !Owns(b, clientId, id) then Err(NotFound)
    else if b.contracts[id].status == Cancelled then Err(BadRequest)
    else Ok(SetStatus(b, id, Cancelled))
  }

  function PayStep(b: Books, clientId: string, id: nat, installment: nat, now: int): Result<Books, Error> {
    if !Owns(b, clientId, id) then Err(NotFound)
    else if !(installment < |b.installments| && b.installments[installment].billingId == id) then Err(NotFound)
    else if b.installments[installment].paidAt.Some? then Err(BadRequest)
    else Ok(b.(installments := b.installments[installment := b.installments[installment].(paidAt := Some(now))]))
  }

  class ClientBillingService {
    var contracts: seq<Contract>
    var installments: seq<Installment>

    function State(): Books
      reads this
    {
      Books(contracts, installments)
    }

    constructor ()
      ensures State() == Books([], [])
    {
      contracts, installments := [], [];
    }

    method SaveContract(c: Contract)
      requires 1 <= c.dueDay
      modifies this
      ensures State() == AddContract(old(State()), c)
    {
      var billingId := |contracts|;
      contracts := contracts + [c];
      var dueDates := I.GenerateInstallmentDates(c.startDate, c.dueDay, c.durationMonths);
      installments := installments + NewInstallments(|installments|, billingId, dueDates);
    }

    method CreateBilling(clientId: string, startDate: int, durationMonths: nat, dueDay: int, terms: Terms, now: int)
      returns (result: Result<Response, Error>)
      requires 1 <= dueDay
      modifies this
      ensures var step := CreateStep(old(State()), clientId, startDate, durationMonths, dueDay, terms);
        match step
        case Err(e) => State() == old(State()) && result == Err(e)
        case Ok(after) => State() == after && result == Respond(after, |after.contracts| - 1, now)
    {
      if HasActive(State(), clientId) {
        return Err(Conflict);
      }
      SaveContract(Contract(clientId, startDate, durationMonths, dueDay, terms, Active));
      result := Respond(State(), |contracts| - 1, now);
    }

    method RenewBilling(clientId: string, billingId: nat, r: Renewal, now: int)
      returns (result: Result<Response, Error>)
      requires r.dueDay.Some? ==> 1 <= r.dueDay.value
      requires forall c :: c in contracts ==> 1 <= c.dueDay
      modifies this
      ensures var step := RenewStep(old(State()), clientId, billingId, r);
        match step
        case Err(e) => State() == old(State()) && result == Err(e)
        case Ok(after) => State() == after && result == Respond(after, |after.contracts| - 1, now)
    {
      hide InstallmentsOf, ToResponse, DatesOf, NewInstallments;
      if !Owns(State(), clientId, billingId) {
        return Err(NotFound);
      }
      var current := contracts[billingId];
      if current.status != Active {
        return Err(BadRequest);
      }
      contracts := contracts[billingId := current.(status := Expired)];
      SaveContract(Renewed(current, r));
      result := Respond(State(), |contracts| - 1, now);
    }

    method CancelBilling(clientId: string, billingId: nat, now: int) returns (result: Result<Response, Error>)
      modifies this
      ensures var step := CancelStep(old(State()), clientId, billingId);
        match step
        case Err(e) => State() == old(State()) && result == Err(e)
        case Ok(after) => State() == after && result == Respond(after, billingId, now)
    {
      if !Owns(State(), clientId, billingId) {
        return Err(NotFound);
      }
      var billing := contracts[billingId];
      if billing.status == Cancelled {
        return Err(BadRequest);
      }
      contracts := contracts[billingId := billing.(status := Cancelled)];
      billing := billing.(status := Cancelled);
      result := Ok(ToResponse(billingId, billing, InstallmentsOf(installments, billingId), now));
    }

    method PayInstallment(clientId: string, billingId: nat, installmentId: nat, now: int)
      returns (result: Result<Item, Error>)
      modifies this
      ensures var step := PayStep(old(State()), clientId, billingId, installmentId, now);
        match step
        case Err(e) => State() == old(State()) && result == Err(e)
        case Ok(after) => State() == after && result == Ok(Item(after.installments[installmentId], Paid))
    {
      if !Owns(State(), clientId, billingId) {
        return Err(NotFound);
      }
      if !(installmentId < |installments| && installments[installmentId].billingId == billingId) {
        return Err(NotFound);
      }
      var installment := installments[installmentId];
      if installment.paidAt.Some? {
        return Err(BadRequest);
      }
      installment := installment.(paidAt := Some(now));
      installments := installments[installmentId := installment];
      result := Ok(Item(installment, ComputeStatus(installment, now)));
    }
  }

  // ---------- Every run ----------

  datatype Op =
    | Create(clientId: string, startDate: int, durationMonths: nat, dueDay: int, terms: Terms)
    | Renew(clientId: string, id: nat, renewal: Renewal)
    | Cancel(clientId: string, id: nat)
    | Pay(clientId: string, id: nat, installment: nat, now: int)

  function ResultOf(b: Books, op: Op): Result<Books, Error> {
    match op
    case Create(c, startDate, n, dueDay, terms) => CreateStep(b, c, startDate, n, dueDay, terms)
    case Renew(c, id, r) => RenewStep(b, c, id, r)
    case Cancel(c, id) => CancelStep(b, c, id)
    case Pay(c, id, installment, now) => PayStep(b, c, id, installment, now)
  }

  /** A refused operation changes nothing. */
  function Step(b: Books, op: Op): Books {
    var result := ResultOf(b, op);
    if result.Ok? then result.value else b
  }

  function Run(b: Books, ops: seq<Op>): Books {
    if ops == [] then b else Step(Run(b, ops[..|ops| - 1]), ops[|ops| - 1])
  }

  /** Number and due date of each installment of contract `id`. */
  function Dues(rows: seq<Installment>, id: nat): seq<(nat, int)> {
    if rows == [] then []
    else
      var rest, last := Dues(rows[..|rows| - 1], id), rows[|rows| - 1];
      if last.billingId == id then rest + [(last.number, last.dueDate)] else rest
  }

  function Numbered(dates: seq<int>): seq<(nat, int)> {
    seq(|dates|, k requires 0 <= k < |dates| => (k + 1, dates[k]))
  }

  ghost predicate AtMostOneActive(b: Books) {
    forall i, j :: 0 <= i < j < |b.contracts| && b.contracts[i].status == Active && b.contracts[j].status == Active
      ==> b.contracts[i].clientId != b.contracts[j].clientId
  }

  ghost predicate FullSchedules(b: Books) {
    && (forall r :: r in b.installments ==> r.billingId < |b.contracts|)
    && (forall id :: 0 <= id < |b.contracts| ==>
          Dues(b.installments, id) == Numbered(DatesOf(b.contracts[id])))
  }

  ghost predicate Inv(b: Books) {
    AtMostOneActive(b) && FullSchedules(b)
  }

  /**
   What a contract may become later: an ACTIVE one anything, an EXPIRED one CANCELLED, a CANCELLED one
   nothing else.
   */
  predicate MayBecome(before: Status, after: Status) {
    before == after || before == Active || (before == Expired && after == Cancelled)
  }

  /** What may change from one state to a later one: the status of a contract, and an installment is paid, once. */
  ghost predicate Follows(b: Books, a: Books) {
    && |b.contracts| <= |a.contracts| && |b.installments| <= |a.installments|
    && (forall i :: 0 <= i < |b.contracts| ==>
          && a.contracts[i] == b.contracts[i].(status := a.contracts[i].status)
          && MayBecome(b.contracts[i].status, a.contracts[i].status))
    && (forall i :: 0 <= i < |b.installments| ==>
          && a.installments[i] == b.installments[i].(paidAt := a.installments[i].paidAt)
          && (b.installments[i].paidAt.Some? ==> a.installments[i] == b.installments[i]))
  }

  lemma {:induction false} DuesAppend(rows: seq<Installment>, more: seq<Installment>, id: nat)
    ensures Dues(rows + more, id) == Dues(rows, id) + Dues(more, id)
  {
    if more == [] {
      assert rows + more == rows;
    } else {
      DuesAppend(rows, more[..|more| - 1], id);
      assert (rows + more)[..|rows + more| - 1] == rows + more[..|more| - 1];
    }
  }

  lemma {:induction false} DuesOfNew(first: nat, billingId: nat, dates: seq<int>, id: nat)
    ensures Dues(NewInstallments(first, billingId, dates), id) == if id == billingId then Numbered(dates) else []
  {
    if dates != [] {
      var init := dates[..|dates| - 1];
      DuesOfNew(first, billingId, init, id);
      assert NewInstallments(first, billingId, dates)[..|dates| - 1] == NewInstallments(first, billingId, init);
    }
  }

  lemma {:induction false} DuesAbsent(rows: seq<Installment>, id: nat)
    requires forall r :: r in rows ==> r.billingId != id
    ensures Dues(rows, id) == []
  {
    if rows != [] {
      DuesAbsent(rows[..|rows| - 1], id);
    }
  }

  lemma {:induction false} DuesUnpaid(rows: seq<Installment>, i: nat, paidAt: Option<int>, id: nat)
    requires i < |rows|
    ensures Dues(rows[i := rows[i].(paidAt := paidAt)], id) == Dues(rows, id)
  {
    var n := |rows| - 1;
    var after := rows[i := rows[i].(paidAt := paidAt)];
    if i < n {
      DuesUnpaid(rows[..n], i, paidAt, id);
      assert after[..n] == rows[..n][i := rows[i].(paidAt := paidAt)];
    } else {
      assert after[..n] == rows[..n];
    }
  }

  lemma AddContractKeepsSchedules(b: Books, c: Contract)
    requires FullSchedules(b)
    ensures FullSchedules(AddContract(b, c))
  {
    var a := AddContract(b, c);
    var more := NewInstallments(|b.installments|, |b.contracts|, DatesOf(c));
    forall id | 0 <= id < |a.contracts|
      ensures Dues(a.installments, id) == Numbered(DatesOf(a.contracts[id]))
    {
      DuesAppend(b.installments, more, id);
      DuesOfNew(|b.installments|, |b.contracts|, DatesOf(c), id);
      if id == |b.contracts| {
        DuesAbsent(b.installments, id);
      }
    }
  }

  lemma StatusKeepsSchedules(b: Books, id: nat, status: Status)
    requires FullSchedules(b) && id < |b.contracts|
    ensures FullSchedules(SetStatus(b, id, status))
  {
    forall k | 0 <= k < |b.contracts|
      ensures DatesOf(SetStatus(b, id, status).contracts[k]) == DatesOf(b.contracts[k])
    {
    }
  }

  lemma AddContractKeepsOneActive(b: Books, c: Contract)
    requires AtMostOneActive(b) && !HasActive(b, c.clientId)
    ensures AtMostOneActive(AddContract(b, c))
  {
    forall i | 0 <= i < |b.contracts| && b.contracts[i].status == Active
      ensures b.contracts[i].clientId != c.clientId
    {
      assert !IsActiveOf(b, i, c.clientId);
    }
  }

  // Renewing first retires the only active contract of the client.
  lemma RetiredLeavesNone(b: Books, id: nat)
    requires AtMostOneActive(b) && id < |b.contracts| && b.contracts[id].status == Active
    ensures var a := SetStatus(b, id, Expired); AtMostOneActive(a) && !HasActive(a, b.contracts[id].clientId)
  {
  }

  lemma StepKeepsInv(b: Books, op: Op)
    requires Inv(b)
    ensures Inv(Step(b, op)) && Follows(b, Step(b, op))
  {
    hide Dues, DatesOf, Numbered, NewInstallments;
    var a := Step(b, op);
    if a != b {
      match op
      case Create(c, startDate, n, dueDay, terms) =>
        AddContractKeepsSchedules(b, Contract(c, startDate, n, dueDay, terms, Active));
        AddContractKeepsOneActive(b, Contract(c, startDate, n, dueDay, terms, Active));
      case Renew(c, id, r) =>
        StatusKeepsSchedules(b, id, Expired);
        RetiredLeavesNone(b, id);
        AddContractKeepsSchedules(SetStatus(b, id, Expired), Renewed(b.contracts[id], r));
        AddContractKeepsOneActive(SetStatus(b, id, Expired), Renewed(b.contracts[id], r));
      case Cancel(c, id) =>
        StatusKeepsSchedules(b, id, Cancelled);
      case Pay(c, id, installment, now) =>
        forall k | 0 <= k < |b.contracts| {
          DuesUnpaid(b.installments, installment, Some(now), k);
        }
    }
  }

  /**
   In every reachable state a client has at most one ACTIVE contract, and every contract has exactly
   its installments 1..n on the dates of its schedule.
   */
  lemma {:induction false} EveryRunKeepsInv(ops: seq<Op>)
    ensures Inv(Run(Books([], []), ops))
  {
    if ops != [] {
      EveryRunKeepsInv(ops[..|ops| - 1]);
      StepKeepsInv(Run(Books([], []), ops[..|ops| - 1]), ops[|ops| - 1]);
    }
  }

  /**
   Over any stretch of a run a contract goes from ACTIVE to EXPIRED or CANCELLED, from EXPIRED to
   CANCELLED and no other way, and `paidAt` is set at most once and never cleared.
   */
  lemma {:induction false} EveryRunFollows(ops: seq<Op>, n: nat)
    requires n <= |ops|
    ensures Follows(Run(Books([], []), ops[..n]), Run(Books([], []), ops))
    decreases |ops|
  {
    var last := |ops| - 1;
    if n == |ops| {
      assert ops[..n] == ops;
    } else {
      EveryRunFollows(ops[..last], n);
      assert ops[..last][..n] == ops[..n];
      EveryRunKeepsInv(ops[..last]);
      StepKeepsInv(Run(Books([], []), ops[..last]), ops[last]);
    }
  }

  // ---------- What each operation is accepted for, and what it does ----------

  predicate Accepted(b: Books, op: Op) {
    ResultOf(b, op).Ok?
  }

  /** Each operation is accepted exactly in its own case. */
  lemma AcceptedIff(b: Books, op: Op)
    ensures op.Create? ==> (Accepted(b, op) <==>
      forall i :: 0 <= i < |b.contracts| && b.contracts[i].clientId == op.clientId ==> b.contracts[i].status != Active)
    ensures op.Renew? ==> (Accepted(b, op) <==>
      op.id < |b.contracts| && b.contracts[op.id].clientId == op.clientId && b.contracts[op.id].status == Active)
    ensures op.Cancel? ==> (Accepted(b, op) <==>
      op.id < |b.contracts| && b.contracts[op.id].clientId == op.clientId && b.contracts[op.id].status != Cancelled)
    ensures op.Pay? ==> (Accepted(b, op) <==>
      && op.id < |b.contracts| && b.contracts[op.id].clientId == op.clientId
      && op.installment < |b.installments| && b.installments[op.installment].billingId == op.id
      && b.installments[op.installment].paidAt == None)
  {
    if op.Create? && HasActive(b, op.clientId) {
      var i :| 0 <= i < |b.contracts| && IsActiveOf(b, i, op.clientId);
    } else if op.Create? {
      forall i | 0 <= i < |b.contracts| && b.contracts[i].clientId == op.clientId
        ensures b.contracts[i].status != Active
      {
        assert !IsActiveOf(b, i, op.clientId);
      }
    }
  }

  /** Why an operation is refused. */
  lemma ErrorsAre(b: Books, op: Op)
    requires !Accepted(b, op)
    ensures op.Create? ==> ResultOf(b, op) == Err(Conflict)
    ensures !op.Create? ==> (ResultOf(b, op) == Err(NotFound) <==>
      || op.id >= |b.contracts| || b.contracts[op.id].clientId != op.clientId
      || (op.Pay? && (op.installment >= |b.installments| || b.installments[op.installment].billingId != op.id)))
    ensures !op.Create? && ResultOf(b, op) != Err(NotFound) ==> ResultOf(b, op) == Err(BadRequest)
  {
  }

  /** What accepted operations do to the status of a contract: nothing, but for its own renewal and cancellation. */
  lemma StatusAfter(b: Books, op: Op, id: nat)
    requires id < |b.contracts|
    ensures var status := Step(b, op).contracts[id].status;
      if op.Cancel? && op.id == id && Accepted(b, op) then status == Cancelled
      else if op.Renew? && op.id == id && Accepted(b, op) then status == Expired
      else status == b.contracts[id].status
  {
    hide NewInstallments, DatesOf;
  }

  /** What a creation and a renewal add: one ACTIVE contract, in a renewal with the terms given and the others kept. */
  lemma Adds(b: Books, op: Op)
    requires Accepted(b, op)
    ensures var a := Step(b, op); var n := |b.contracts|;
      && |a.contracts| == (if op.Create? || op.Renew? then n + 1 else n)
      && (op.Create? || op.Renew? ==> a.contracts[n].clientId == op.clientId && a.contracts[n].status == Active)
      && (op.Create? ==>
          && a.contracts[n].startDate == op.startDate && a.contracts[n].durationMonths == op.durationMonths
          && a.contracts[n].dueDay == op.dueDay && a.contracts[n].terms == op.terms)
      && (op.Renew? ==>
          var (current, r, c) := (b.contracts[op.id], op.renewal, a.contracts[n]);
          && c.startDate == r.startDate && c.durationMonths == r.durationMonths
          && (if r.dueDay.Some? then c.dueDay == r.dueDay.value else c.dueDay == current.dueDay)
          && (if r.amount.Some? then c.terms.amount == r.amount.value else c.terms.amount == current.terms.amount)
          && (if r.paymentMethod.Some? then c.terms.paymentMethod == r.paymentMethod.value
              else c.terms.paymentMethod == current.terms.paymentMethod)
          && (if r.discountType.Some? then c.terms.discountType == r.discountType
              else c.terms.discountType == current.terms.discountType)
          && (if r.discountValue.Some? then c.terms.discountValue == r.discountValue
              else c.terms.discountValue == current.terms.discountValue))
  {
    hide NewInstallments, DatesOf;
  }

  /** An installment is paid by its own payment, on that day, and comes unpaid. */
  lemma PaymentAfter(b: Books, op: Op, i: nat)
    requires i < |Step(b, op).installments|
    ensures Step(b, op).installments[i].paidAt ==
      if op.Pay? && op.installment == i && Accepted(b, op) then Some(op.now)
      else if i < |b.installments| then b.installments[i].paidAt
      else None
  {
    hide DatesOf;
  }

  // ---------- The same over runs ----------

  /** The `k`-th operation of the run was a cancellation of the contract, and was accepted. */
  predicate CancelledAt(ops: seq<Op>, id: nat, k: nat) {
    k < |ops| && ops[k].Cancel? && ops[k].id == id && Accepted(Run(Books([], []), ops[..k]), ops[k])
  }

  predicate RenewedAt(ops: seq<Op>, id: nat, k: nat) {
    k < |ops| && ops[k].Renew? && ops[k].id == id && Accepted(Run(Books([], []), ops[..k]), ops[k])
  }

  predicate PaidAt(ops: seq<Op>, i: nat, k: nat, day: int) {
    && k < |ops| && ops[k].Pay? && ops[k].installment == i && ops[k].now == day
    && Accepted(Run(Books([], []), ops[..k]), ops[k])
  }

  ghost predicate WasCancelled(ops: seq<Op>, id: nat) {
    exists k :: CancelledAt(ops, id, k)
  }

  ghost predicate WasRenewed(ops: seq<Op>, id: nat) {
    exists k :: RenewedAt(ops, id, k)
  }

  lemma LastOp(ops: seq<Op>, id: nat)
    requires ops != []
    ensures var n := |ops| - 1;
      && (WasCancelled(ops, id) <==> WasCancelled(ops[..n], id) || CancelledAt(ops, id, n))
      && (WasRenewed(ops, id) <==> WasRenewed(ops[..n], id) || RenewedAt(ops, id, n))
  {
    hide Accepted, Run;
    var n := |ops| - 1;
    forall k | 0 <= k < n
      ensures CancelledAt(ops, id, k) <==> CancelledAt(ops[..n], id, k)
      ensures RenewedAt(ops, id, k) <==> RenewedAt(ops[..n], id, k)
    {
      assert ops[..n][..k] == ops[..k];
    }
  }

  /**
   The status of a contract tells its history: it is CANCELLED exactly when a cancellation of it was
   accepted, EXPIRED exactly when a renewal was and no cancellation, and else ACTIVE.
   */
  lemma {:induction false} StatusTellsHistory(ops: seq<Op>, id: nat)
    ensures id < |Run(Books([], []), ops).contracts| ==>
      var status := Run(Books([], []), ops).contracts[id].status;
      && (status == Cancelled <==> WasCancelled(ops, id))
      && (status == Expired <==> WasRenewed(ops, id) && !WasCancelled(ops, id))
    ensures id >= |Run(Books([], []), ops).contracts| ==> !WasCancelled(ops, id) && !WasRenewed(ops, id)
  {
    if ops != [] {
      hide Accepted, Step, WasCancelled, WasRenewed;
      var n := |ops| - 1;
      var b := Run(Books([], []), ops[..n]);
      StatusTellsHistory(ops[..n], id);
      LastOp(ops, id);
      AcceptedIff(b, ops[n]);
      NewIsActive(b, ops[n], id);
      if id < |b.contracts| {
        StatusAfter(b, ops[n], id);
      }
    }
  }

  lemma NewIsActive(b: Books, op: Op, id: nat)
    ensures |b.contracts| <= |Step(b, op).contracts|
    ensures |b.contracts| <= id < |Step(b, op).contracts| ==> Step(b, op).contracts[id].status == Active
  {
    hide NewInstallments, DatesOf;
  }

  /** After an accepted cancellation every later cancellation and renewal of the contract is refused. */
  lemma CancelledForGood(ops: seq<Op>, id: nat, k: nat, op: Op)
    requires CancelledAt(ops, id, k) && (op.Cancel? || op.Renew?) && op.id == id
    ensures !Accepted(Run(Books([], []), ops), op)
  {
    hide Accepted, Run;
    StatusTellsHistory(ops, id);
    AcceptedIff(Run(Books([], []), ops), op);
  }

  ghost predicate WasPaid(ops: seq<Op>, i: nat, day: int) {
    exists k :: PaidAt(ops, i, k, day)
  }

  lemma LastPayment(ops: seq<Op>, i: nat, day: int)
    requires ops != []
    ensures var n := |ops| - 1; WasPaid(ops, i, day) <==> WasPaid(ops[..n], i, day) || PaidAt(ops, i, n, day)
  {
    hide Accepted, Run;
    var n := |ops| - 1;
    forall k | 0 <= k < n
      ensures PaidAt(ops, i, k, day) <==> PaidAt(ops[..n], i, k, day)
    {
      assert ops[..n][..k] == ops[..k];
    }
  }

  /** An installment is paid on a day exactly when a payment of it was accepted that day. */
  lemma {:induction false} PaidIff(ops: seq<Op>, i: nat, day: int)
    ensures var rows := Run(Books([], []), ops).installments;
      WasPaid(ops, i, day) <==> i < |rows| && rows[i].paidAt == Some(day)
  {
    if ops != [] {
      hide Accepted, Step, WasPaid;
      var n := |ops| - 1;
      var b := Run(Books([], []), ops[..n]);
      PaidIff(ops[..n], i, day);
      LastPayment(ops, i, day);
      AcceptedIff(b, ops[n]);
      EveryRunKeepsInv(ops[..n]);
      StepKeepsInv(b, ops[n]);
      if i < |Step(b, ops[n]).installments| {
        PaymentAfter(b, ops[n], i);
      }
    }
  }

  /** The due dates of a contract increase strictly, but for one that runs from December 99 into January 100. */
  lemma DueDatesIncrease(b: Books, id: nat)
    requires Inv(b) && id < |b.contracts| && 1 <= b.contracts[id].dueDay
    ensures var c := b.contracts[id];
      var dues, first := Dues(b.installments, id), I.ComputedFirst(c.startDate, c.dueDay);
      (forall i, j :: 0 <= i < j < |dues| ==> dues[i].1 < dues[j].1)
        <==> !(first <= 1199 && 1200 <= first + c.durationMonths - 1)
  {
    var c := b.contracts[id];
    var dates := DatesOf(c);
    I.IncreasingIff(c.startDate, c.dueDay, c.durationMonths);
    assert Dues(b.installments, id) == Numbered(dates);
    if forall i, j :: 0 <= i < j < |Numbered(dates)| ==> Numbered(dates)[i].1 < Numbered(dates)[j].1 {
      forall i, j | 0 <= i < j < |dates|
        ensures dates[i] < dates[j]
      {
        assert Numbered(dates)[i].1 < Numbered(dates)[j].1;
      }
    }
  }

  // ---------- The response lists them all ----------

  lemma {:induction false} DuesOfInstallments(rows: seq<Installment>, id: nat)
    ensures var own := InstallmentsOf(rows, id);
      |own| == |Dues(rows, id)| && forall k :: 0 <= k < |own| ==> (own[k].number, own[k].dueDate) == Dues(rows, id)[k]
  {
    if rows != [] {
      DuesOfInstallments(rows[..|rows| - 1], id);
    }
  }

  /** Rows with increasing numbers are the only arrangement by number of the same rows. */
  lemma ArrangementUnique(rows: seq<Installment>, own: seq<Installment>)
    requires multiset(rows) == multiset(own)
    requires forall i, j :: 0 <= i < j < |own| ==> own[i].number < own[j].number
    ensures Sort(rows, ByNumber) == own
  {
    var sorted := Sort(rows, ByNumber);
    forall x, y | x in sorted && y in sorted && ByNumber(x, y) && ByNumber(y, x)
      ensures x == y
    {
      assert x in multiset(own) && y in multiset(own);
    }
    SortedUnique(sorted, own, ByNumber);
  }

  /** The response is of its contract, and an item is paid, or else overdue if its day is past, or else pending. */
  lemma ItemsAre(id: nat, contract: Contract, rows: seq<Installment>, now: int, k: nat)
    requires k < |ToResponse(id, contract, rows, now).items|
    ensures var r := ToResponse(id, contract, rows, now); var item := r.items[k];
      && r.id == id && r.contract == contract
      && (item.status == Paid <==> item.installment.paidAt.Some?)
      && (item.status == Overdue <==> item.installment.paidAt == None && item.installment.dueDate < now)
      && (item.status == Pending <==> item.installment.paidAt == None && now <= item.installment.dueDate)
  {
  }

  /**
   Whatever order the query returns the installments in, the response lists each stored one once, as
   number 1, 2, ... with the dates of the schedule.
   */
  lemma ResponseListsAll(b: Books, id: nat, rows: seq<Installment>, now: int)
    requires Inv(b) && id < |b.contracts|
    requires multiset(rows) == multiset(InstallmentsOf(b.installments, id))
    ensures var items := ToResponse(id, b.contracts[id], rows, now).items;
      var c := b.contracts[id];
      var dates := I.Computed(c.startDate, c.dueDay, c.durationMonths);
      && |items| == c.durationMonths
      && (forall k :: 0 <= k < |items| ==>
            items[k].installment.number == k + 1 && items[k].installment.dueDate == dates[k])
      && multiset(seq(|items|, k requires 0 <= k < |items| => items[k].installment)) == multiset(rows)
  {
    var own := InstallmentsOf(b.installments, id);
    DuesOfInstallments(b.installments, id);
    forall k | 0 <= k < |own|
      ensures own[k].number == k + 1 && own[k].dueDate == DatesOf(b.contracts[id])[k]
    {
      assert Dues(b.installments, id)[k] == Numbered(DatesOf(b.contracts[id]))[k];
    }
    ArrangementUnique(rows, own);
    var items := ToResponse(id, b.contracts[id], rows, now).items;
    assert seq(|items|, k requires 0 <= k < |items| => items[k].installment) == own;
  }
}
