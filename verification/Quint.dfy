/**
 The reference machine of payments.qnt: balances and transaction records for fixed sets of
 clients and transaction IDs, changed by five guarded actions.
 */
module Quint {
  import opened Domain

  datatype AccountState = AccountState(available: int, held: int, total: int, locked: bool)

  datatype TxRecord = TxRecord(exists_: bool, amount: int, state: TransactionState)

  datatype Machine = Machine(
    accounts: map<ClientId, AccountState>,
    txRecords: map<(ClientId, TransactionId), TxRecord>)

  datatype Action = Action(op: TransactionType, client: ClientId, tx: TransactionId, amount: int)

  const NO_TX := TxRecord(false, 0, Normal)

  const EMPTY_ACCOUNT := AccountState(0, 0, 0, false)

  ghost function Keys(clients: set<ClientId>, txIds: set<TransactionId>): set<(ClientId, TransactionId)> {
    set c, t | c in clients && t in txIds :: (c, t)
  }

  ghost function Init(clients: set<ClientId>, txIds: set<TransactionId>): Machine {
    Machine(
      map c | c in clients :: EMPTY_ACCOUNT,
      map p | p in Keys(clients, txIds) :: NO_TX)
  }

  /** The account and record an enabled action produces, from the ones it reads. */
  function Effect(op: TransactionType, amount: int, acct: AccountState, rec: TxRecord): (AccountState, TxRecord) {
    match op
    case Deposit =>
      (acct.(available := acct.available + amount, total := acct.total + amount), TxRecord(true, amount, Normal))
    case Withdrawal =>
      (acct.(available := acct.available - amount, total := acct.total - amount), TxRecord(true, amount, Normal))
    case Dispute =>
      (acct.(available := acct.available - rec.amount, held := acct.held + rec.amount), rec.(state := Disputed))
    case Resolve =>
      (acct.(held := acct.held - rec.amount, available := acct.available + rec.amount), rec.(state := Resolved))
    case Chargeback =>
      (acct.(held := acct.held - rec.amount, total := acct.total - rec.amount, locked := true),
       rec.(state := ChargedBack))
  }

  predicate Enabled(op: TransactionType, amount: int, acct: AccountState, rec: TxRecord) {
    && !acct.locked
    && match op
       case Deposit => amount > 0 && !rec.exists_
       case Withdrawal => amount > 0 && !rec.exists_ && acct.available >= amount
       case Dispute => rec.exists_ && rec.state == Normal
       case Resolve => rec.exists_ && rec.state == Disputed
       case Chargeback => rec.exists_ && rec.state == Disputed
  }

  predicate Step(q: Machine, a: Action, r: Machine) {
    && a.client in q.accounts && (a.client, a.tx) in q.txRecords
    && var acct, rec := q.accounts[a.client], q.txRecords[(a.client, a.tx)];
       && Enabled(a.op, a.amount, acct, rec)
       && var (acct', rec') := Effect(a.op, a.amount, acct, rec);
          r == Machine(q.accounts[a.client := acct'], q.txRecords[(a.client, a.tx) := rec'])
  }

  /** The states a sequence of actions leads through, starting from `Init`. */
  ghost predicate IsRun(clients: set<ClientId>, txIds: set<TransactionId>,
                        states: seq<Machine>, actions: seq<Action>)
  {
    && |states| == |actions| + 1
    && states[0] == Init(clients, txIds)
    && forall i | 0 <= i < |actions| :: Step(states[i], actions[i], states[i + 1])
  }

  lemma RunExtends(clients: set<ClientId>, txIds: set<TransactionId>,
                   states: seq<Machine>, actions: seq<Action>, a: Action, q: Machine)
    requires IsRun(clients, txIds, states, actions) && Step(states[|actions|], a, q)
    ensures IsRun(clients, txIds, states + [q], actions + [a])
  {}

  ghost predicate TotalEqAvailablePlusHeld(q: Machine) {
    forall c | c in q.accounts :: q.accounts[c].total == q.accounts[c].available + q.accounts[c].held
  }

  ghost predicate HeldNonNegative(q: Machine) {
    forall c | c in q.accounts :: q.accounts[c].held >= 0
  }

  ghost predicate TotalNonNegativeUnlessLocked(q: Machine) {
    forall c | c in q.accounts :: q.accounts[c].locked || q.accounts[c].total >= 0
  }

  ghost predicate LockedImpliesChargeback(q: Machine) {
    forall c | c in q.accounts && q.accounts[c].locked ::
      exists p :: p in q.txRecords && p.0 == c && q.txRecords[p].state == ChargedBack
  }

  ghost predicate NonExistentTxIsClean(q: Machine) {
    forall p | p in q.txRecords && !q.txRecords[p].exists_ ::
      q.txRecords[p].amount == 0 && q.txRecords[p].state == Normal
  }

  ghost predicate SafetyInv(q: Machine) {
    && TotalEqAvailablePlusHeld(q)
    && HeldNonNegative(q)
    && TotalNonNegativeUnlessLocked(q)
    && LockedImpliesChargeback(q)
    && NonExistentTxIsClean(q)
  }
}
