/**
 The account object: three running balances, a lock flag, the transaction map and four ID sets,
 all updated in place, and the self-check that runs before every operation.
 */
module Accounts {
  import opened Domain
  import opened Sums
  import opened Ledger
  import opened LedgerLaws

  /** The stored fields of an account at one moment. */
  datatype Fields = Fields(
    available: int,
    held: int,
    total: int,
    locked: bool,
    transactions: Ledger,
    normal: set<TransactionId>,
    disputes: set<TransactionId>,
    resolves: set<TransactionId>,
    chargebacks: set<TransactionId>)

  /** The balances and the lock are those of the ledger. */
  ghost predicate Balanced(l: Ledger, available: int, held: int, total: int, locked: bool) {
    available == Available(l) && held == Held(l) && total == Total(l) && locked == Locked(l)
  }

  /** The four ID sets index the ledger by state. */
  ghost predicate Indexed(l: Ledger, normal: set<TransactionId>, disputes: set<TransactionId>,
                          resolves: set<TransactionId>, chargebacks: set<TransactionId>)
  {
    && normal == InState(l, Normal)
    && disputes == InState(l, Disputed)
    && resolves == InState(l, Resolved)
    && chargebacks == InState(l, ChargedBack)
  }

  // The self-check

  /** What the self-check amounts to. */
  ghost predicate Consistent(f: Fields) {
    && (0 <= f.total || f.locked)
    && f.total == f.available + f.held
    && Indexed(f.transactions, f.normal, f.disputes, f.resolves, f.chargebacks)
    && (f.locked ==> f.chargebacks != {})
    && f.held == Held(f.transactions)
  }

  function Bit(b: bool): nat {
    if b then 1 else 0
  }

  /** The check made on one entry of the map: in exactly one set, and that the recorded one. */
  predicate EntryIndexed(f: Fields, t: TransactionId)
    requires t in f.transactions
  {
    && Bit(t in f.normal) + Bit(t in f.disputes) + Bit(t in f.resolves) + Bit(t in f.chargebacks) == 1
    && match f.transactions[t].state
       case Normal => t in f.normal
       case Disputed => t in f.disputes
       case Resolved => t in f.resolves
       case ChargedBack => t in f.chargebacks
  }

  ghost predicate SetsContained(f: Fields) {
    f.normal + f.disputes + f.resolves + f.chargebacks <= f.transactions.Keys
  }

  /** The per-entry check and the containment check together say exactly that the sets are the indexes. */
  lemma IndexedIffPartitioned(f: Fields)
    ensures SetsContained(f) && (forall t | t in f.transactions :: EntryIndexed(f, t)) <==>
            Indexed(f.transactions, f.normal, f.disputes, f.resolves, f.chargebacks)
  {
    if SetsContained(f) && forall t | t in f.transactions :: EntryIndexed(f, t) {
      forall t ensures t in f.normal + f.disputes + f.resolves + f.chargebacks ==> EntryIndexed(f, t) {
        assert t in f.normal + f.disputes + f.resolves + f.chargebacks ==> t in f.transactions;
      }
    }
    if Indexed(f.transactions, f.normal, f.disputes, f.resolves, f.chargebacks) {
      forall t | t in f.transactions ensures EntryIndexed(f, t) {
        match f.transactions[t].state case _ =>
      }
    }
  }

  /**
   For any account, reachable or not: the size assertion, the six disjointness assertions and the
   re-check of the disputes set follow from the per-entry check and the containment check.
   */
  lemma SizeAndDisjointnessRedundant(f: Fields)
    requires SetsContained(f)
    requires forall t | t in f.transactions :: EntryIndexed(f, t)
    ensures |f.normal| + |f.disputes| + |f.resolves| + |f.chargebacks| == |f.transactions|
    ensures f.normal !! f.disputes !! f.resolves !! f.chargebacks
    ensures forall t | t in f.disputes :: f.transactions[t].state == Disputed
  {
    IndexedIffPartitioned(f);
    assert f.normal + f.disputes + f.resolves + f.chargebacks == f.transactions.Keys by {
      forall t | t in f.transactions
        ensures t in f.normal + f.disputes + f.resolves + f.chargebacks
      {
        assert EntryIndexed(f, t);
      }
    }
  }

  /** For any account, reachable or not: each assertion of the self-check, by itself, can make it fail. */
  lemma ConsistentSpelledOut(f: Fields)
    ensures Consistent(f) <==>
            && (0 <= f.total || f.locked)
            && f.total == f.available + f.held
            && (forall t | t in f.transactions ::
                  var s := f.transactions[t].state;
                  && (t in f.normal <==> s == Normal) && (t in f.disputes <==> s == Disputed)
                  && (t in f.resolves <==> s == Resolved) && (t in f.chargebacks <==> s == ChargedBack))
            && f.normal <= f.transactions.Keys && f.disputes <= f.transactions.Keys
            && f.resolves <= f.transactions.Keys && f.chargebacks <= f.transactions.Keys
            && (f.locked ==> exists t :: t in f.chargebacks)
            && f.held == Sum(f.transactions, DisputedAmount)
  {
    assert f.chargebacks != {} <==> exists t :: t in f.chargebacks;
  }

  /** Fields that stand for a good ledger pass the self-check. */
  lemma GoodFieldsConsistent(f: Fields)
    requires Good(f.transactions)
    requires Balanced(f.transactions, f.available, f.held, f.total, f.locked)
    requires Indexed(f.transactions, f.normal, f.disputes, f.resolves, f.chargebacks)
    ensures Consistent(f)
  {
    var l := f.transactions;
    BalanceBounds(l);
    if Locked(l) {
      var t :| t in l && l[t].state == ChargedBack;
      assert t in f.chargebacks;
    }
  }

  /** One containment loop of the self-check. */
  method AllRecorded(account: Account, ids: set<TransactionId>) returns (ok: bool)
    ensures ok <==> ids <= account.transactions.Keys
  {
    ok := true;
    var todo := ids;
    while todo != {}
      invariant todo <= ids
      invariant ok <==> ids - todo <= account.transactions.Keys
    {
      var t :| t in todo;
      todo := todo - {t};
      ok := ok && t in account.transactions;
    }
  }

  /** The loop of the self-check over the transaction map. */
  method AllEntriesIndexed(account: Account) returns (ok: bool)
    ensures ok <==> forall t | t in account.transactions :: EntryIndexed(account.View(), t)
  {
    ok := true;
    var todo := account.transactions.Keys;
    while todo != {}
      invariant todo <= account.transactions.Keys
      invariant ok <==> forall t | t in account.transactions && t !in todo :: EntryIndexed(account.View(), t)
    {
      var t :| t in todo;
      todo := todo - {t};
      var inNormal, inDisputes := t in account.normal, t in account.disputes;
      var inResolves, inChargebacks := t in account.resolves, t in account.chargebacks;
      var count := Bit(inNormal) + Bit(inDisputes) + Bit(inResolves) + Bit(inChargebacks);
      var expectedSet := match account.transactions[t].state
        case Normal => inNormal
        case Disputed => inDisputes
        case Resolved => inResolves
        case ChargedBack => inChargebacks;
      ok := ok && count == 1 && expectedSet;
    }
  }

  /** The loop of the self-check over the disputes set. */
  method AllDisputesDisputed(account: Account) returns (ok: bool)
    ensures ok <==> forall t | t in account.disputes ::
                      t in account.transactions && account.transactions[t].state == Disputed
  {
    ok := true;
    var todo := account.disputes;
    while todo != {}
      invariant todo <= account.disputes
      invariant ok <==> forall t | t in account.disputes && t !in todo ::
                          t in account.transactions && account.transactions[t].state == Disputed
    {
      var t :| t in todo;
      todo := todo - {t};
      ok := ok && t in account.transactions && account.transactions[t].state == Disputed;
    }
  }

  /** The fold of the self-check over the disputed amounts. */
  method PendingSum(account: Account) returns (sum: int)
    ensures sum == Held(account.transactions)
  {
    sum := 0;
    var todo := account.transactions.Keys;
    ghost var rest := account.transactions;
    while todo != {}
      invariant todo == rest.Keys && rest.Keys <= account.transactions.Keys
      invariant forall t | t in rest :: rest[t] == account.transactions[t]
      invariant sum + Sum(rest, DisputedAmount) == Sum(account.transactions, DisputedAmount)
    {
      var t :| t in todo;
      SumRemove(rest, t, DisputedAmount);
      todo, rest := todo - {t}, rest - {t};
      var Entry(_, state, msg) := account.transactions[t];
      if state == Disputed {
        sum := sum + msg.amount;
      }
    }
  }

  /** The assertions of the self-check in their order; `ok` is false where one of them would fail. */
  method CheckInvariants(account: Account) returns (ok: bool)
    ensures ok <==> Consistent(account.View())
  {
    ghost var f := account.View();
    ok := 0 <= account.total || account.locked;
    ok := ok && account.total == account.available + account.held;

    var entriesOk := AllEntriesIndexed(account);
    var normalOk := AllRecorded(account, account.normal);
    var disputesOk := AllRecorded(account, account.disputes);
    var resolvesOk := AllRecorded(account, account.resolves);
    var chargebacksOk := AllRecorded(account, account.chargebacks);
    var indexed := entriesOk && normalOk && disputesOk && resolvesOk && chargebacksOk;
    IndexedIffPartitioned(f);
    if indexed {
      SizeAndDisjointnessRedundant(f);
    }
    ok := ok && indexed;

    var setTotal := |account.normal| + |account.disputes| + |account.resolves| + |account.chargebacks|;
    ok := ok && setTotal == |account.transactions|;
    ok := ok && account.normal !! account.disputes && account.normal !! account.resolves;
    ok := ok && account.normal !! account.chargebacks && account.disputes !! account.resolves;
    ok := ok && account.disputes !! account.chargebacks && account.resolves !! account.chargebacks;

    var statesOk := AllDisputesDisputed(account);
    ok := ok && statesOk;
    ok := ok && (account.locked ==> account.chargebacks != {});
    var pendingSum := PendingSum(account);
    ok := ok && account.held == pendingSum;
  }

  // The account

  /** Where one ID set stands after its transaction moved between states. */
  function Reindexed(ids: set<TransactionId>, s: TransactionState,
                     from: TransactionState, to: TransactionState, t: TransactionId): set<TransactionId>
  {
    (if from == s then ids - {t} else ids) + (if to == s then {t} else {})
  }

  class Account {
    const clientId: ClientId
    var available: int
    var held: int
    var total: int
    var locked: bool
    var transactions: Ledger
    var normal: set<TransactionId>
    var disputes: set<TransactionId>
    var resolves: set<TransactionId>
    var chargebacks: set<TransactionId>

    ghost function View(): Fields
      reads this
    {
      Fields(available, held, total, locked, transactions, normal, disputes, resolves, chargebacks)
    }

    ghost predicate Valid()
      reads this
    {
      && Good(transactions)
      && Balanced(transactions, available, held, total, locked)
      && Indexed(transactions, normal, disputes, resolves, chargebacks)
    }

    constructor (clientId: ClientId)
      ensures Valid() && this.clientId == clientId
      ensures transactions == map[]
    {
      this.clientId := clientId;
      available, held, total, locked := 0, 0, 0, false;
      transactions, normal, disputes, resolves, chargebacks := map[], {}, {}, {}, {};
    }

    /** `checked` is the verdict of the self-check, on which a debug build would otherwise stop. */
    method SharedPrestep(msg: InputMessage) returns (res: Outcome, checked: bool)
      requires Valid()
      ensures checked
      ensures res == if Locked(transactions) then Rejected(AccountLocked) else Accepted
    {
      GoodFieldsConsistent(View());
      checked := CheckInvariants(this);
      if locked {
        return Rejected(AccountLocked), checked;
      }
      return Accepted, checked;
    }

    method ProcessDeposit(msg: InputMessage) returns (res: Outcome, checked: bool)
      requires Valid()
      modifies this
      ensures Valid() && checked
      ensures StepResult(transactions, res) == Step(old(transactions), Call(Deposit, msg))
    {
      res, checked := SharedPrestep(msg);
      if res != Accepted {
        return;
      }
      if !(msg.amount > 0) {
        return Rejected(AmountNegative), checked;
      }
      if msg.transactionId in transactions {
        return Rejected(DuplicateTransaction), checked;
      }
      StepKeepsGood(transactions, Call(Deposit, msg));
      RecordBalances(transactions, true, msg);
      RecordIndexed(transactions, true, msg, normal, disputes, resolves, chargebacks);
      transactions := transactions[msg.transactionId := Entry(true, Normal, msg)];
      normal := normal + {msg.transactionId};
      available := available + msg.amount;
      total := total + msg.amount;
    }

    method ProcessWithdrawal(msg: InputMessage) returns (res: Outcome, checked: bool)
      requires Valid()
      modifies this
      ensures Valid() && checked
      ensures StepResult(transactions, res) == Step(old(transactions), Call(Withdrawal, msg))
    {
      res, checked := SharedPrestep(msg);
      if res != Accepted {
        return;
      }
      if !(msg.amount > 0) {
        return Rejected(AmountNegative), checked;
      }
      if msg.transactionId in transactions {
        return Rejected(DuplicateTransaction), checked;
      }
      if available < msg.amount {
        return Rejected(InsufficientBalance), checked;
      }
      StepKeepsGood(transactions, Call(Withdrawal, msg));
      RecordBalances(transactions, false, msg);
      RecordIndexed(transactions, false, msg, normal, disputes, resolves, chargebacks);
      transactions := transactions[msg.transactionId := Entry(false, Normal, msg)];
      normal := normal + {msg.transactionId};
      available := available - msg.amount;
      total := total - msg.amount;
    }

    method ProcessDispute(msg: InputMessage) returns (res: Outcome, checked: bool)
      requires Valid()
      modifies this
      ensures Valid() && checked
      ensures StepResult(transactions, res) == Step(old(transactions), Call(Dispute, msg))
    {
      res, checked := SharedPrestep(msg);
      if res != Accepted {
        return;
      }
      var key := msg.transactionId;
      var transition := ValidateTransition(key, Disputed);
      if transition.Forbidden? {
        return Rejected(transition.error), checked;
      }
      // The second lookup cannot miss.
      assert key in transactions;
      var from, amount := transactions[key].state, transactions[key].message.amount;
      available := available - amount;
      held := held + amount;
      StepKeepsGood(transactions, Call(Dispute, msg));
      MoveBalances(transactions, key, Target(Dispute));
      MoveIndexed(transactions, key, Target(Dispute), normal, disputes, resolves, chargebacks);
      Execute(from, Disputed, key);
    }

    method ProcessResolve(msg: InputMessage) returns (res: Outcome, checked: bool)
      requires Valid()
      modifies this
      ensures Valid() && checked
      ensures StepResult(transactions, res) == Step(old(transactions), Call(Resolve, msg))
    {
      res, checked := SharedPrestep(msg);
      if res != Accepted {
        return;
      }
      var key := msg.transactionId;
      var transition := ValidateTransition(key, Resolved);
      if transition.Forbidden? {
        return Rejected(transition.error), checked;
      }
      assert key in transactions;
      var from, amount := transactions[key].state, transactions[key].message.amount;
      held := held - amount;
      available := available + amount;
      StepKeepsGood(transactions, Call(Resolve, msg));
      MoveBalances(transactions, key, Target(Resolve));
      MoveIndexed(transactions, key, Target(Resolve), normal, disputes, resolves, chargebacks);
      Execute(from, Resolved, key);
    }

    method ProcessChargeback(msg: InputMessage) returns (res: Outcome, checked: bool)
      requires Valid()
      modifies this
      ensures Valid() && checked
      ensures StepResult(transactions, res) == Step(old(transactions), Call(Chargeback, msg))
    {
      res, checked := SharedPrestep(msg);
      if res != Accepted {
        return;
      }
      var key := msg.transactionId;
      var transition := ValidateTransition(key, ChargedBack);
      if transition.Forbidden? {
        return Rejected(transition.error), checked;
      }
      assert key in transactions;
      var from, amount := transactions[key].state, transactions[key].message.amount;
      held := held - amount;
      total := total - amount;
      locked := true;
      StepKeepsGood(transactions, Call(Chargeback, msg));
      MoveBalances(transactions, key, Target(Chargeback));
      MoveIndexed(transactions, key, Target(Chargeback), normal, disputes, resolves, chargebacks);
      Execute(from, ChargedBack, key);
    }

    /** Looks a transaction up and asks whether it may move to `to`. */
    method ValidateTransition(key: TransactionId, to: TransactionState) returns (t: Transition)
      requires Valid()
      ensures t == DoTransition(transactions, key, to)
    {
      if key !in transactions {
        return Forbidden(InvalidTransaction);
      }
      t := CanTransition(transactions[key].state, to);
    }

    /** Applies a validated transition to the ID sets and the map. */
    method Execute(from: TransactionState, to: TransactionState, key: TransactionId)
      modifies this`normal, this`disputes, this`resolves, this`chargebacks, this`transactions
      ensures normal == Reindexed(old(normal), Normal, from, to, key)
      ensures disputes == Reindexed(old(disputes), Disputed, from, to, key)
      ensures resolves == Reindexed(old(resolves), Resolved, from, to, key)
      ensures chargebacks == Reindexed(old(chargebacks), ChargedBack, from, to, key)
      ensures transactions == if key in old(transactions) then Move(old(transactions), key, to)
                              else old(transactions)
    {
      match from {
        case Normal => normal := normal - {key};
        case Disputed => disputes := disputes - {key};
        case Resolved => resolves := resolves - {key};
        case ChargedBack => chargebacks := chargebacks - {key};
      }
      match to {
        case Normal => normal := normal + {key};
        case Disputed => disputes := disputes + {key};
        case Resolved => resolves := resolves + {key};
        case ChargedBack => chargebacks := chargebacks + {key};
      }
      if key in transactions {
        transactions := transactions[key := transactions[key].(state := to)];
      }
    }
  }

  /** The operation a call names. */
  method Perform(account: Account, c: Call) returns (res: Outcome, checked: bool)
    requires account.Valid()
    modifies account
    ensures account.Valid() && checked
    ensures StepResult(account.transactions, res) == Step(old(account.transactions), c)
  {
    match c.op {
      case Deposit => res, checked := account.ProcessDeposit(c.message);
      case Withdrawal => res, checked := account.ProcessWithdrawal(c.message);
      case Dispute => res, checked := account.ProcessDispute(c.message);
      case Resolve => res, checked := account.ProcessResolve(c.message);
      case Chargeback => res, checked := account.ProcessChargeback(c.message);
    }
  }

  /**
   Any calls whatever on a new account: they end in the ledger of the run, with its outcomes, and
   the self-check passes before and after each of them.
   */
  method Replay(clientId: ClientId, cs: seq<Call>) returns (account: Account, os: seq<Outcome>, passed: bool)
    ensures account.Valid() && account.clientId == clientId
    ensures account.transactions == After(map[], cs) && os == Outcomes(map[], cs)
    ensures passed
  {
    account := new Account(clientId);
    os, passed := [], true;
    for i := 0 to |cs|
      invariant fresh(account) && account.Valid() && account.clientId == clientId
      invariant account.transactions == After(map[], cs[..i]) && os == Outcomes(map[], cs[..i])
      invariant passed
    {
      assert cs[..i + 1] == cs[..i] + [cs[i]];
      RunSnoc(map[], cs[..i], cs[i]);
      var res, before := Perform(account, cs[i]);
      GoodFieldsConsistent(account.View());
      var after := CheckInvariants(account);
      os, passed := os + [res], passed && before && after;
    }
    assert cs[..|cs|] == cs;
  }

  // How the incremental updates keep the fields in step with the ledger

  lemma RecordIndexed(l: Ledger, credit: bool, m: InputMessage, normal: set<TransactionId>,
                      disputes: set<TransactionId>, resolves: set<TransactionId>, chargebacks: set<TransactionId>)
    requires m.transactionId !in l && Indexed(l, normal, disputes, resolves, chargebacks)
    ensures Indexed(Record(l, credit, m), normal + {m.transactionId}, disputes, resolves, chargebacks)
  {}

  lemma MoveIndexed(l: Ledger, t: TransactionId, to: TransactionState, normal: set<TransactionId>,
                    disputes: set<TransactionId>, resolves: set<TransactionId>, chargebacks: set<TransactionId>)
    requires t in l && Indexed(l, normal, disputes, resolves, chargebacks)
    ensures Indexed(
              Move(l, t, to),
              Reindexed(normal, Normal, l[t].state, to, t), Reindexed(disputes, Disputed, l[t].state, to, t),
              Reindexed(resolves, Resolved, l[t].state, to, t), Reindexed(chargebacks, ChargedBack, l[t].state, to, t))
  {}

  lemma RecordBalances(l: Ledger, credit: bool, m: InputMessage)
    requires m.transactionId !in l
    ensures var k, signed := Record(l, credit, m), if credit then m.amount else -m.amount;
            && Held(k) == Held(l)
            && Total(k) == Total(l) + signed
            && (Locked(k) <==> Locked(l))
  {
    var k := Record(l, credit, m);
    BalancesAfterUpdate(l, m.transactionId, k[m.transactionId]);
    if Locked(l) {
      var t :| t in l && l[t].state == ChargedBack;
      assert t in k && k[t].state == ChargedBack;
    }
  }

  lemma MoveBalances(l: Ledger, t: TransactionId, to: TransactionState)
    requires t in l && l[t].state != ChargedBack
    ensures var k := Move(l, t, to);
            var pending := DisputedAmount(k[t]) - DisputedAmount(l[t]);
            && Held(k) == Held(l) + pending
            && Total(k) == Total(l) - ChargedBackAmount(k[t])
            && (Locked(k) <==> Locked(l) || to == ChargedBack)
  {
    var k := Move(l, t, to);
    BalancesAfterUpdate(l, t, k[t]);
    if to == ChargedBack {
      assert k[t].state == ChargedBack;
    } else if Locked(l) {
      var u :| u in l && l[u].state == ChargedBack;
      assert u in k && k[u].state == ChargedBack;
    }
  }
}
