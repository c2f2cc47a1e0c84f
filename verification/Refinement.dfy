/**
 The engine and the reference machine are bisimilar, so what holds of one holds of the other.
 */
module Refinement {
  import opened Domain
  import opened Ledger
  import opened LedgerLaws
  import opened Engine
  import Quint

  // What the reference machine sees of the engine

  ghost function AccountOf(l: Ledger): Quint.AccountState {
    Quint.AccountState(Available(l), Held(l), Total(l), Locked(l))
  }

  function RecordOf(l: Ledger, t: TransactionId): Quint.TxRecord {
    if t in l then Quint.TxRecord(true, l[t].message.amount, l[t].state) else Quint.NO_TX
  }

  ghost function Abstract(books: Books, clients: set<ClientId>, txIds: set<TransactionId>): Quint.Machine {
    Quint.Machine(
      map c | c in clients :: AccountOf(LedgerOf(books, c)),
      map p | p in Quint.Keys(clients, txIds) :: RecordOf(LedgerOf(books, p.0), p.1))
  }

  function ActionOf(m: InputMessage): Quint.Action {
    Quint.Action(m.transactionType, m.clientId, m.transactionId, m.amount)
  }

  ghost predicate Within(m: InputMessage, clients: set<ClientId>, txIds: set<TransactionId>) {
    m.clientId in clients && m.transactionId in txIds
  }

  // One call

  lemma CallEnabled(l: Ledger, c: Call)
    ensures Step(l, c).outcome == Accepted <==>
            Quint.Enabled(c.op, c.message.amount, AccountOf(l), RecordOf(l, c.message.transactionId))
  {}

  lemma CallElsewhere(l: Ledger, c: Call, t: TransactionId)
    requires t != c.message.transactionId
    ensures RecordOf(Step(l, c).ledger, t) == RecordOf(l, t)
  {}

  lemma CallEffect(l: Ledger, c: Call)
    requires Step(l, c).outcome == Accepted
    ensures var t, k := c.message.transactionId, Step(l, c).ledger;
            (AccountOf(k), RecordOf(k, t)) == Quint.Effect(c.op, c.message.amount, AccountOf(l), RecordOf(l, t))
  {
    var t, k := c.message.transactionId, Step(l, c).ledger;
    BalancesAfterUpdate(l, t, k[t]);
    assert k == l[t := k[t]];
    StepLocks(l, c);
  }

  /** An accepted call is the enabled action of the same name; its effects agree. */
  lemma CallMatchesAction(l: Ledger, c: Call)
    ensures var m, k := c.message, Step(l, c).ledger;
            var acct, rec := AccountOf(l), RecordOf(l, m.transactionId);
            && (Step(l, c).outcome == Accepted <==> Quint.Enabled(c.op, m.amount, acct, rec))
            && (Step(l, c).outcome == Accepted ==>
                  (AccountOf(k), RecordOf(k, m.transactionId)) == Quint.Effect(c.op, m.amount, acct, rec))
            && forall t: TransactionId | t != m.transactionId :: RecordOf(k, t) == RecordOf(l, t)
  {
    CallEnabled(l, c);
    if Step(l, c).outcome == Accepted {
      CallEffect(l, c);
    }
    forall t: TransactionId | t != c.message.transactionId
      ensures RecordOf(Step(l, c).ledger, t) == RecordOf(l, t)
    {
      CallElsewhere(l, c, t);
    }
  }

  /** An action either takes `q` to `r`, or is disabled in `q` and leaves it alone. */
  ghost predicate StepsOrStutters(q: Quint.Machine, a: Quint.Action, taken: bool, r: Quint.Machine) {
    if taken then Quint.Step(q, a, r) else r == q && forall p :: !Quint.Step(q, a, p)
  }

  lemma AbstractUpdate(books: Books, c: ClientId, t: TransactionId, l: Ledger,
                       clients: set<ClientId>, txIds: set<TransactionId>)
    requires c in clients && t in txIds
    requires forall u: TransactionId | u != t :: RecordOf(l, u) == RecordOf(LedgerOf(books, c), u)
    ensures var q := Abstract(books, clients, txIds);
            Abstract(books[c := l], clients, txIds) ==
            Quint.Machine(q.accounts[c := AccountOf(l)], q.txRecords[(c, t) := RecordOf(l, t)])
  {
    AccountsUpdate(books, c, l, clients, txIds);
    RecordsUpdate(books, c, t, l, clients, txIds);
  }

  lemma AccountsUpdate(books: Books, c: ClientId, l: Ledger, clients: set<ClientId>, txIds: set<TransactionId>)
    requires c in clients
    ensures Abstract(books[c := l], clients, txIds).accounts ==
            Abstract(books, clients, txIds).accounts[c := AccountOf(l)]
  {
    forall d: ClientId | d != c ensures LedgerOf(books[c := l], d) == LedgerOf(books, d) {}
  }

  lemma RecordsUpdate(books: Books, c: ClientId, t: TransactionId, l: Ledger,
                      clients: set<ClientId>, txIds: set<TransactionId>)
    requires c in clients && t in txIds
    requires forall u: TransactionId | u != t :: RecordOf(l, u) == RecordOf(LedgerOf(books, c), u)
    ensures Abstract(books[c := l], clients, txIds).txRecords ==
            Abstract(books, clients, txIds).txRecords[(c, t) := RecordOf(l, t)]
  {
    var q, r := Abstract(books, clients, txIds).txRecords, Abstract(books[c := l], clients, txIds).txRecords;
    assert (c, t) in q;
    forall p: (ClientId, TransactionId) | p != (c, t)
      ensures RecordOf(LedgerOf(books[c := l], p.0), p.1) == RecordOf(LedgerOf(books, p.0), p.1)
    {
      assert p == (p.0, p.1);
    }
  }

  /** Every accepted message is a step of the reference machine; every rejected one finds it disabled. */
  lemma StepRefines(books: Books, m: InputMessage, clients: set<ClientId>, txIds: set<TransactionId>)
    requires Within(m, clients, txIds)
    ensures StepsOrStutters(Abstract(books, clients, txIds), ActionOf(m),
                            ReplyTo(books, m).outcome == Accepted, Abstract(Handle(books, m), clients, txIds))
  {
    var l := LedgerOf(books, m.clientId);
    CallMatchesAction(l, Dispatched(m));
    RejectionSources(l, Dispatched(m));
    AbstractUpdate(books, m.clientId, m.transactionId, Step(l, Dispatched(m)).ledger, clients, txIds);
    var q := Abstract(books, clients, txIds);
    assert q.accounts[m.clientId] == AccountOf(l);
    assert (m.clientId, m.transactionId) in q.txRecords;
    assert q.txRecords[(m.clientId, m.transactionId)] == RecordOf(l, m.transactionId);
  }

  // Runs

  ghost function AcceptedActions(books: Books, ms: seq<InputMessage>): seq<Quint.Action>
    decreases |ms|
  {
    if ms == [] then []
    else
      var n := |ms| - 1;
      AcceptedActions(books, ms[..n])
      + if ReplyTo(Fold(books, ms[..n]), ms[n]).outcome == Accepted then [ActionOf(ms[n])] else []
  }

  /** The accepted messages of any engine run are a run of the reference machine, to the same end. */
  lemma {:induction false} EngineRunIsReferenceRun(ms: seq<InputMessage>, clients: set<ClientId>,
                                                   txIds: set<TransactionId>)
    returns (states: seq<Quint.Machine>)
    requires forall m | m in ms :: Within(m, clients, txIds)
    ensures Quint.IsRun(clients, txIds, states, AcceptedActions(map[], ms))
    ensures states[|states| - 1] == Abstract(Fold(map[], ms), clients, txIds)
    decreases |ms|
  {
    if ms == [] {
      states := [Quint.Init(clients, txIds)];
      InitAbstracts(clients, txIds);
    } else {
      var n := |ms| - 1;
      var before := EngineRunIsReferenceRun(ms[..n], clients, txIds);
      var books := Fold(map[], ms[..n]);
      assert ms == ms[..n] + [ms[n]];
      FoldSnoc(map[], ms[..n], ms[n]);
      StepRefines(books, ms[n], clients, txIds);
      states := before;
      if ReplyTo(books, ms[n]).outcome == Accepted {
        var q := Abstract(Handle(books, ms[n]), clients, txIds);
        Quint.RunExtends(clients, txIds, before, AcceptedActions(map[], ms[..n]), ActionOf(ms[n]), q);
        states := before + [q];
      }
    }
  }

  lemma InitAbstracts(clients: set<ClientId>, txIds: set<TransactionId>)
    ensures Abstract(map[], clients, txIds) == Quint.Init(clients, txIds)
  {
    var q := Abstract(map[], clients, txIds);
    assert q.accounts == Quint.Init(clients, txIds).accounts;
    assert q.txRecords == Quint.Init(clients, txIds).txRecords;
  }

  function MessageOf(a: Quint.Action): InputMessage {
    InputMessage(0, a.op, a.client, a.tx, a.amount)
  }

  function MessagesOf(actions: seq<Quint.Action>): seq<InputMessage> {
    seq(|actions|, i requires 0 <= i < |actions| => MessageOf(actions[i]))
  }

  /** An action taken by the reference machine is accepted by the engine, to the same effect. */
  lemma ActionAccepted(books: Books, a: Quint.Action, q: Quint.Machine,
                       clients: set<ClientId>, txIds: set<TransactionId>)
    requires Quint.Step(Abstract(books, clients, txIds), a, q)
    ensures Within(MessageOf(a), clients, txIds)
    ensures ReplyTo(books, MessageOf(a)).outcome == Accepted
    ensures Abstract(Handle(books, MessageOf(a)), clients, txIds) == q
  {
    StepRefines(books, MessageOf(a), clients, txIds);
    assert ActionOf(MessageOf(a)) == a;
  }

  lemma MessagesSnoc(actions: seq<Quint.Action>, n: nat)
    requires n < |actions|
    ensures MessagesOf(actions[..n + 1]) == MessagesOf(actions[..n]) + [MessageOf(actions[n])]
  {}

  /** The engine accepts all of `ms`, which bring it from the start to the state `q`. */
  ghost predicate Follows(clients: set<ClientId>, txIds: set<TransactionId>, ms: seq<InputMessage>, q: Quint.Machine) {
    && q == Abstract(Fold(map[], ms), clients, txIds)
    && (forall m | m in ms :: Within(m, clients, txIds))
    && (forall r | r in Replies(map[], ms) :: r.outcome == Accepted)
  }

  lemma FollowsSnoc(clients: set<ClientId>, txIds: set<TransactionId>,
                    ms: seq<InputMessage>, q: Quint.Machine, a: Quint.Action, r: Quint.Machine)
    requires Follows(clients, txIds, ms, q) && Quint.Step(q, a, r)
    ensures Follows(clients, txIds, ms + [MessageOf(a)], r)
  {
    FoldSnoc(map[], ms, MessageOf(a));
    ActionAccepted(Fold(map[], ms), a, r, clients, txIds);
  }

  /** Conversely, the engine follows every run of the reference machine, accepting each action. */
  lemma {:induction false} ReferenceRunIsEngineRun(clients: set<ClientId>, txIds: set<TransactionId>,
                                                   states: seq<Quint.Machine>, actions: seq<Quint.Action>, n: nat)
    requires Quint.IsRun(clients, txIds, states, actions) && n <= |actions|
    ensures Follows(clients, txIds, MessagesOf(actions[..n]), states[n])
    decreases n
  {
    if n == 0 {
      InitAbstracts(clients, txIds);
    } else {
      ReferenceRunIsEngineRun(clients, txIds, states, actions, n - 1);
      MessagesSnoc(actions, n - 1);
      FollowsSnoc(clients, txIds, MessagesOf(actions[..n - 1]), states[n - 1], actions[n - 1], states[n]);
    }
  }

  // Safety

  lemma StepKeys(l: Ledger, c: Call)
    ensures Step(l, c).ledger.Keys <= l.Keys + {c.message.transactionId}
  {}

  lemma {:induction false} LedgersWithin(books: Books, ms: seq<InputMessage>, clients: set<ClientId>,
                                         txIds: set<TransactionId>)
    requires forall m | m in ms :: Within(m, clients, txIds)
    requires forall c, t | c in books && t in books[c] :: t in txIds
    ensures forall c, t | c in Fold(books, ms) && t in Fold(books, ms)[c] :: t in txIds
    decreases |ms|
  {
    if ms == [] {
    } else {
      var m := ms[0];
      assert m in ms;
      forall c, t | c in Handle(books, m) && t in Handle(books, m)[c] ensures t in txIds {
        if c == m.clientId {
          StepKeys(LedgerOf(books, c), Dispatched(m));
        }
      }
      LedgersWithin(Handle(books, ms[0]), ms[1..], clients, txIds);
    }
  }

  lemma EngineSafe(ms: seq<InputMessage>, clients: set<ClientId>, txIds: set<TransactionId>)
    requires forall m | m in ms :: Within(m, clients, txIds)
    ensures Quint.SafetyInv(Abstract(Fold(map[], ms), clients, txIds))
  {
    var books := Fold(map[], ms);
    var q := Abstract(books, clients, txIds);
    LedgersWithin(map[], ms, clients, txIds);
    FoldKeepsSound(map[], ms);
    forall c | c in clients
      ensures q.accounts[c].held >= 0 && (q.accounts[c].locked || q.accounts[c].total >= 0)
      ensures q.accounts[c].locked ==>
                exists p :: p in q.txRecords && p.0 == c && q.txRecords[p].state == ChargedBack
    {
      var l := LedgerOf(books, c);
      ReachableIffGood(l);
      LockCharacterization(l);
      if Locked(l) {
        var t :| t in l && l[t].state == ChargedBack;
        assert (c, t) in q.txRecords && q.txRecords[(c, t)].state == ChargedBack;
      }
    }
  }

  /** Hence all five invariants of payments.qnt hold in every state of every run of it. */
  lemma ReferenceSafe(clients: set<ClientId>, txIds: set<TransactionId>,
                      states: seq<Quint.Machine>, actions: seq<Quint.Action>)
    requires Quint.IsRun(clients, txIds, states, actions)
    ensures forall q | q in states :: Quint.SafetyInv(q)
  {
    forall i | 0 <= i < |states| ensures Quint.SafetyInv(states[i]) {
      ReferenceRunIsEngineRun(clients, txIds, states, actions, i);
      EngineSafe(MessagesOf(actions[..i]), clients, txIds);
    }
  }

  /** An account once locked is frozen for the rest of the run, with its records. */
  lemma {:induction false} LockedStaysLocked(clients: set<ClientId>, txIds: set<TransactionId>,
                                             states: seq<Quint.Machine>, actions: seq<Quint.Action>,
                                             c: ClientId, i: nat, j: nat)
    requires Quint.IsRun(clients, txIds, states, actions) && i <= j < |states|
    requires c in states[i].accounts && states[i].accounts[c].locked
    ensures c in states[j].accounts && states[j].accounts[c] == states[i].accounts[c]
    ensures forall p | p in states[i].txRecords && p.0 == c ::
              p in states[j].txRecords && states[j].txRecords[p] == states[i].txRecords[p]
    decreases j - i
  {
    if i < j {
      LockedStaysLocked(clients, txIds, states, actions, c, i, j - 1);
      assert Quint.Step(states[j - 1], actions[j - 1], states[j]);
    }
  }
}
