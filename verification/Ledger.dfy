/**
 The account state machine on its least state: the map of recorded transactions.
 Balances, the lock flag and the ID sets are all computed from that map here;
 class `Account` stores them redundantly and is proved to agree.
 */
module Ledger {
  import opened Domain
  import opened Sums

  /** A recorded transaction: whether it was a deposit, its state, and the message that made it. */
  datatype Entry = Entry(credit: bool, state: TransactionState, message: InputMessage)

  type Ledger = map<TransactionId, Entry>

  /** A call of one of the five `process_*` operations. */
  datatype Call = Call(op: TransactionType, message: InputMessage)

  datatype StepResult = StepResult(ledger: Ledger, outcome: Outcome)

  datatype Transition = Allowed | Forbidden(error: TransactionError)

  // Balances

  function DepositAmount(e: Entry): int {
    if e.credit then e.message.amount else 0
  }

  function WithdrawalAmount(e: Entry): int {
    if e.credit then 0 else e.message.amount
  }

  function ChargedBackAmount(e: Entry): int {
    if e.state == ChargedBack then e.message.amount else 0
  }

  function DisputedAmount(e: Entry): int {
    if e.state == Disputed then e.message.amount else 0
  }

  ghost function Total(l: Ledger): int {
    Sum(l, DepositAmount) - Sum(l, WithdrawalAmount) - Sum(l, ChargedBackAmount)
  }

  ghost function Held(l: Ledger): int {
    Sum(l, DisputedAmount)
  }

  ghost function Available(l: Ledger): int {
    Total(l) - Held(l)
  }

  ghost predicate Locked(l: Ledger) {
    exists t :: t in l && l[t].state == ChargedBack
  }

  ghost function InState(l: Ledger, s: TransactionState): set<TransactionId> {
    set t | t in l && l[t].state == s
  }

  // Operations

  function CanTransition(from: TransactionState, to: TransactionState): Transition {
    match (from, to)
    case (_, Normal) => Forbidden(CannotRevertToNormal)
    case (ChargedBack, _) => Forbidden(AccountLocked)
    case (Resolved, _) => Forbidden(TransactionTerminalState)
    case (Disputed, Disputed) => Forbidden(AlreadyDisputed)
    case (Normal, Disputed) => Allowed
    case (Disputed, Resolved) => Allowed
    case (Disputed, ChargedBack) => Allowed
    case (Normal, Resolved) => Forbidden(TransactionNotDisputed)
    case (Normal, ChargedBack) => Forbidden(TransactionNotDisputed)
  }

  function DoTransition(l: Ledger, t: TransactionId, to: TransactionState): Transition {
    if t !in l then Forbidden(InvalidTransaction) else CanTransition(l[t].state, to)
  }

  function Record(l: Ledger, credit: bool, m: InputMessage): Ledger {
    l[m.transactionId := Entry(credit, Normal, m)]
  }

  function Move(l: Ledger, t: TransactionId, to: TransactionState): Ledger
    requires t in l
  {
    l[t := l[t].(state := to)]
  }

  function Target(op: TransactionType): TransactionState
    requires IsLifecycle(op)
  {
    match op
    case Dispute => Disputed
    case Resolve => Resolved
    case Chargeback => ChargedBack
  }

  predicate IsLifecycle(op: TransactionType) {
    op == Dispute || op == Resolve || op == Chargeback
  }

  ghost function Step(l: Ledger, c: Call): StepResult {
    var m := c.message;
    if Locked(l) then
      StepResult(l, Rejected(AccountLocked))
    else if IsLifecycle(c.op) then
      match DoTransition(l, m.transactionId, Target(c.op))
      case Forbidden(e) => StepResult(l, Rejected(e))
      case Allowed => StepResult(Move(l, m.transactionId, Target(c.op)), Accepted)
    else if m.amount <= 0 then
      StepResult(l, Rejected(AmountNegative))
    else if m.transactionId in l then
      StepResult(l, Rejected(DuplicateTransaction))
    else if c.op == Withdrawal && Available(l) < m.amount then
      StepResult(l, Rejected(InsufficientBalance))
    else
      StepResult(Record(l, c.op == Deposit, m), Accepted)
  }

  // Runs

  ghost function After(l: Ledger, cs: seq<Call>): Ledger
    decreases |cs|
  {
    if cs == [] then l else After(Step(l, cs[0]).ledger, cs[1..])
  }

  ghost function Outcomes(l: Ledger, cs: seq<Call>): (os: seq<Outcome>)
    ensures |os| == |cs|
    decreases |cs|
  {
    if cs == [] then [] else [Step(l, cs[0]).outcome] + Outcomes(Step(l, cs[0]).ledger, cs[1..])
  }

  lemma {:induction false} RunConcat(l: Ledger, cs: seq<Call>, ds: seq<Call>)
    ensures After(l, cs + ds) == After(After(l, cs), ds)
    ensures Outcomes(l, cs + ds) == Outcomes(l, cs) + Outcomes(After(l, cs), ds)
    decreases |cs|
  {
    if cs == [] {
      assert cs + ds == ds;
    } else {
      assert (cs + ds)[1..] == cs[1..] + ds;
      RunConcat(Step(l, cs[0]).ledger, cs[1..], ds);
    }
  }

  lemma RunSnoc(l: Ledger, cs: seq<Call>, c: Call)
    ensures After(l, cs + [c]) == Step(After(l, cs), c).ledger
    ensures Outcomes(l, cs + [c]) == Outcomes(l, cs) + [Step(After(l, cs), c).outcome]
  {
    RunConcat(l, cs, [c]);
    var k := After(l, cs);
    assert After(k, [c]) == After(Step(k, c).ledger, []);
    assert Outcomes(k, [c]) == [Step(k, c).outcome] + Outcomes(Step(k, c).ledger, []);
  }

  // What one update of the map does to the balances

  function Contribution(e: Entry): int {
    DepositAmount(e) - WithdrawalAmount(e) - ChargedBackAmount(e)
  }

  lemma BalancesAfterUpdate(l: Ledger, t: TransactionId, e: Entry)
    ensures Sum(l[t := e], DepositAmount) ==
            Sum(l, DepositAmount) + DepositAmount(e) - (if t in l then DepositAmount(l[t]) else 0)
    ensures Sum(l[t := e], WithdrawalAmount) ==
            Sum(l, WithdrawalAmount) + WithdrawalAmount(e) - (if t in l then WithdrawalAmount(l[t]) else 0)
    ensures Total(l[t := e]) == Total(l) + Contribution(e) - (if t in l then Contribution(l[t]) else 0)
    ensures Held(l[t := e]) == Held(l) + DisputedAmount(e) - (if t in l then DisputedAmount(l[t]) else 0)
  {
    SumUpdate(l, t, e, DepositAmount);
    SumUpdate(l, t, e, WithdrawalAmount);
    SumUpdate(l, t, e, ChargedBackAmount);
    SumUpdate(l, t, e, DisputedAmount);
  }
}
