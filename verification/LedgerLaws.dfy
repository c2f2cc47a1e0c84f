/**
 What every run of one account keeps, and exactly which ledgers runs can reach.
 */
module LedgerLaws {
  import opened Domain
  import opened Sums
  import opened Ledger

  ghost predicate WellFormed(l: Ledger) {
    forall t | t in l :: 0 < l[t].message.amount && l[t].message.transactionId == t
  }

  ghost predicate OneChargeback(l: Ledger) {
    forall t, u | t in l && u in l && l[t].state == ChargedBack && l[u].state == ChargedBack :: t == u
  }

  /** The invariant of a single account. */
  ghost predicate Good(l: Ledger) {
    && WellFormed(l)
    && OneChargeback(l)
    && Sum(l, WithdrawalAmount) <= Sum(l, DepositAmount)
  }

  ghost predicate Reachable(l: Ledger) {
    exists cs: seq<Call> :: After(map[], cs) == l
  }

  // The invariant is kept by every call

  lemma BalanceBounds(l: Ledger)
    requires WellFormed(l)
    ensures 0 <= Held(l)
    ensures !Locked(l) ==> Total(l) == Sum(l, DepositAmount) - Sum(l, WithdrawalAmount)
  {
    SumNonNegative(l, DisputedAmount);
    if !Locked(l) {
      SumZero(l, ChargedBackAmount);
    }
  }

  lemma StepKeepsGood(l: Ledger, c: Call)
    requires Good(l)
    ensures Good(Step(l, c).ledger)
  {
    var m := c.message;
    var k := Step(l, c).ledger;
    if k != l {
      BalanceBounds(l);
      BalancesAfterUpdate(l, m.transactionId, k[m.transactionId]);
      assert k == l[m.transactionId := k[m.transactionId]];
    }
  }

  lemma {:induction false} RunKeepsGood(l: Ledger, cs: seq<Call>)
    requires Good(l)
    ensures Good(After(l, cs))
    decreases |cs|
  {
    if cs == [] {
    } else {
      StepKeepsGood(l, cs[0]);
      RunKeepsGood(Step(l, cs[0]).ledger, cs[1..]);
    }
  }

  // Work: the number of accepted calls a ledger records

  function Work(e: Entry): int {
    match e.state
    case Normal => 1
    case Disputed => 2
    case Resolved => 3
    case ChargedBack => 3
  }

  function CountAccepted(os: seq<Outcome>): nat {
    if os == [] then 0 else (if os[0] == Accepted then 1 else 0) + CountAccepted(os[1..])
  }

  lemma StepWork(l: Ledger, c: Call)
    ensures Sum(Step(l, c).ledger, Work) == Sum(l, Work) + (if Step(l, c).outcome == Accepted then 1 else 0)
  {
    var t := c.message.transactionId;
    var k := Step(l, c).ledger;
    if Step(l, c).outcome == Accepted {
      SumUpdate(l, t, k[t], Work);
      assert k == l[t := k[t]];
    }
  }

  lemma {:induction false} RunWork(l: Ledger, cs: seq<Call>)
    ensures CountAccepted(Outcomes(l, cs)) == Sum(After(l, cs), Work) - Sum(l, Work)
    decreases |cs|
  {
    if cs == [] {
    } else {
      StepWork(l, cs[0]);
      RunWork(Step(l, cs[0]).ledger, cs[1..]);
    }
  }

  lemma {:induction false} AtMostAllAccepted(os: seq<Outcome>)
    ensures CountAccepted(os) <= |os|
    decreases |os|
  {
    if os == [] {
    } else {
      AtMostAllAccepted(os[1..]);
    }
  }

  /** A run to `l` takes at least as many calls as the states of `l` record. */
  lemma WorkNeeded(l: Ledger, cs: seq<Call>)
    requires After(map[], cs) == l
    ensures Sum(l, Work) <= |cs|
  {
    RunWork(map[], cs);
    AtMostAllAccepted(Outcomes(map[], cs));
  }

  lemma InStateRemove(l: Ledger, t: TransactionId, s: TransactionState)
    requires t in l
    ensures |InState(l, s)| == |InState(l - {t}, s)| + (if l[t].state == s then 1 else 0)
  {
    if l[t].state == s {
      assert InState(l, s) == InState(l - {t}, s) + {t};
    } else {
      assert InState(l, s) == InState(l - {t}, s);
    }
  }

  lemma {:induction false} StateCounts(l: Ledger)
    ensures Sum(l, Work) == |InState(l, Normal)| + 2 * |InState(l, Disputed)|
                            + 3 * (|InState(l, Resolved)| + |InState(l, ChargedBack)|)
    ensures |l| == |InState(l, Normal)| + |InState(l, Disputed)|
                   + |InState(l, Resolved)| + |InState(l, ChargedBack)|
    decreases l.Keys
  {
    if l == map[] {
      forall s ensures InState(l, s) == {} {}
    } else {
      var t := Pick(l);
      StateCounts(l - {t});
      InStateRemove(l, t, Normal);
      InStateRemove(l, t, Disputed);
      InStateRemove(l, t, Resolved);
      InStateRemove(l, t, ChargedBack);
      assert l.Keys == (l - {t}).Keys + {t};
    }
  }

  /** From a fresh account the accepted calls can be counted from the four ID sets alone. */
  lemma AcceptedCount(cs: seq<Call>)
    ensures var l := After(map[], cs);
            && CountAccepted(Outcomes(map[], cs)) ==
               |InState(l, Normal)| + 2 * |InState(l, Disputed)|
               + 3 * (|InState(l, Resolved)| + |InState(l, ChargedBack)|)
            && |l| <= CountAccepted(Outcomes(map[], cs)) <= 3 * |l|
  {
    RunWork(map[], cs);
    StateCounts(After(map[], cs));
  }

  // Exactly the good ledgers are reachable

  /** The call repeats what `l` recorded of its transaction. */
  ghost predicate Repeats(c: Call, l: Ledger) {
    && c.message.transactionId in l
    && c.message == l[c.message.transactionId].message
    && (IsLifecycle(c.op) || (c.op == Deposit <==> l[c.message.transactionId].credit))
  }

  /** The last call of a shortest run to `l`, and the ledger it was made on. */
  ghost predicate Precedes(k: Ledger, c: Call, l: Ledger) {
    && Good(k) && Step(k, c) == StepResult(l, Accepted) && Repeats(c, l)
    && forall t | t in k :: t in l && k[t].message == l[t].message && k[t].credit == l[t].credit
  }

  lemma UndoTransition(l: Ledger, t: TransactionId, op: TransactionType) returns (k: Ledger, c: Call)
    requires Good(l) && t in l && IsLifecycle(op) && l[t].state == Target(op)
    requires op == Chargeback || !Locked(l)
    ensures Precedes(k, c, l)
  {
    k := Move(l, t, if op == Dispute then Normal else Disputed);
    c := Call(op, l[t].message);
    BalancesAfterUpdate(l, t, k[t]);
    assert Move(k, t, l[t].state) == l;
    assert !Locked(k) by {
      forall u | u in k ensures k[u].state != ChargedBack {
        assert u == t || l[u].state != ChargedBack;
      }
    }
  }

  lemma UndoRecord(l: Ledger, t: TransactionId) returns (k: Ledger, c: Call)
    requires Good(l) && t in l
    requires forall u | u in l :: l[u].state == Normal
    requires l[t].credit ==> forall u | u in l :: l[u].credit
    ensures Precedes(k, c, l)
  {
    k := l - {t};
    c := Call(if l[t].credit then Deposit else Withdrawal, l[t].message);
    BalancesAfterUpdate(k, t, l[t]);
    assert k[t := l[t]] == l;
    assert Record(k, l[t].credit, l[t].message) == l;
    BalanceBounds(k);
    SumZero(k, DisputedAmount);
    if l[t].credit {
      SumZero(k, WithdrawalAmount);
      SumNonNegative(k, DepositAmount);
    }
  }

  lemma LastCall(l: Ledger) returns (k: Ledger, c: Call)
    requires Good(l) && l != map[]
    ensures Precedes(k, c, l)
  {
    if t :| t in l && l[t].state == ChargedBack {
      k, c := UndoTransition(l, t, Chargeback);
    } else if t :| t in l && l[t].state == Resolved {
      k, c := UndoTransition(l, t, Resolve);
    } else if t :| t in l && l[t].state == Disputed {
      k, c := UndoTransition(l, t, Dispute);
    } else {
      forall u | u in l ensures l[u].state == Normal {
        match l[u].state case _ =>
      }
      if t :| t in l && !l[t].credit {
        k, c := UndoRecord(l, t);
      } else {
        k, c := UndoRecord(l, Pick(l));
      }
    }
  }

  lemma {:induction false} ShortestRun(l: Ledger) returns (cs: seq<Call>)
    requires Good(l)
    ensures After(map[], cs) == l
    ensures |cs| == Sum(l, Work)
    decreases Sum(l, Work)
  {
    if l == map[] {
      cs := [];
    } else {
      var k, c := LastCall(l);
      StepWork(k, c);
      SumNonNegative(k, Work);
      var ds := ShortestRun(k);
      cs := ds + [c];
      RunSnoc(map[], ds, c);
    }
  }

  /** A ledger is reachable from a fresh account if and only if it is good. */
  lemma ReachableIffGood(l: Ledger)
    ensures Reachable(l) <==> Good(l)
  {
    if Good(l) {
      var cs := ShortestRun(l);
    }
    if Reachable(l) {
      var cs :| After(map[], cs) == l;
      RunKeepsGood(map[], cs);
    }
  }

  // The lock

  lemma LockCharacterization(l: Ledger)
    requires Reachable(l)
    ensures Locked(l) <==> |InState(l, ChargedBack)| == 1
    ensures !Locked(l) ==> InState(l, ChargedBack) == {}
    ensures !Locked(l) ==> 0 <= Total(l) && -Held(l) <= Available(l)
    ensures forall t | t in l && l[t].state == ChargedBack :: -l[t].message.amount <= Total(l)
    ensures 0 <= Held(l)
  {
    ReachableIffGood(l);
    BalanceBounds(l);
    if Locked(l) {
      var t :| t in l && l[t].state == ChargedBack;
      assert InState(l, ChargedBack) == {t};
      SumRemove(l, t, ChargedBackAmount);
      SumZero(l - {t}, ChargedBackAmount);
    } else {
      assert InState(l, ChargedBack) == {};
    }
  }

  // The balances an account can have

  ghost predicate Shows(l: Ledger, held: int, total: int, locked: bool) {
    Held(l) == held && Total(l) == total && Locked(l) == locked
  }

  lemma WithEntry(l: Ledger, t: TransactionId, credit: bool, state: TransactionState, amount: int) returns (k: Ledger)
    requires t !in l && WellFormed(l) && !Locked(l) && 0 < amount
    ensures k.Keys == l.Keys + {t} && WellFormed(k) && OneChargeback(k)
    ensures Locked(k) <==> state == ChargedBack
    ensures Held(k) == Held(l) + if state == Disputed then amount else 0
    ensures Total(k) == Total(l) + (if credit then amount else -amount) - if state == ChargedBack then amount else 0
    ensures Sum(k, DepositAmount) == Sum(l, DepositAmount) + if credit then amount else 0
    ensures Sum(k, WithdrawalAmount) == Sum(l, WithdrawalAmount) + if credit then 0 else amount
  {
    var e := Entry(credit, state, InputMessage(0, if credit then Deposit else Withdrawal, 0, t, amount));
    k := l[t := e];
    BalancesAfterUpdate(l, t, e);
    if state == ChargedBack {
      assert k[t].state == ChargedBack;
    }
  }

  lemma HeldMade(held: nat) returns (l: Ledger)
    ensures WellFormed(l) && !Locked(l) && l.Keys <= {1}
    ensures Held(l) == held && Sum(l, DepositAmount) == held && Sum(l, WithdrawalAmount) == 0
  {
    l := map[];
    if held != 0 {
      l := WithEntry(l, 1, true, Disputed, held);
    }
  }

  lemma UnlockedMade(held: nat, spare: nat, spent: nat) returns (l: Ledger)
    requires 0 < spare && 0 < spent
    ensures WellFormed(l) && !Locked(l) && l.Keys <= {1, 2, 3}
    ensures Held(l) == held && Sum(l, DepositAmount) == held + spare && Sum(l, WithdrawalAmount) == spent
  {
    var h := HeldMade(held);
    var k := WithEntry(h, 2, true, Normal, spare);
    l := WithEntry(k, 3, false, Normal, spent);
  }

  /** A deposit under dispute, another deposit, a withdrawal and a deposit charged back make up any balances. */
  lemma BalancesMade(held: nat, total: int, locked: bool) returns (l: Ledger)
    requires locked || 0 <= total
    ensures Good(l) && Shows(l, held, total, locked)
  {
    var spare := if total < 0 then 1 else total + 1;
    l := UnlockedMade(held, spare, held + spare - total);
    BalanceBounds(l);
    if locked {
      l := WithEntry(l, 4, true, ChargedBack, if total < 0 then -total else 1);
    }
  }

  /** Two deposits on a fresh account. */
  lemma TwoDeposits(m: InputMessage, n: InputMessage) returns (l: Ledger)
    requires 0 < m.amount && 0 < n.amount && m.transactionId != n.transactionId
    ensures Reachable(l) && Total(l) == m.amount + n.amount
    ensures l == map[m.transactionId := Entry(true, Normal, m), n.transactionId := Entry(true, Normal, n)]
  {
    var k := Record(map[], true, m);
    l := Record(k, true, n);
    BalancesAfterUpdate(map[], m.transactionId, Entry(true, Normal, m));
    BalancesAfterUpdate(k, n.transactionId, Entry(true, Normal, n));
    ReachableIffGood(l);
  }

  /**
   Exactly these balances can be reached: nothing negative held, and no negative total unless the
   account is locked. What is available is the difference, of either sign.
   */
  lemma ReachableBalances(held: int, total: int, locked: bool)
    ensures (exists l :: Reachable(l) && Shows(l, held, total, locked)) <==> 0 <= held && (locked || 0 <= total)
  {
    if l :| Reachable(l) && Shows(l, held, total, locked) {
      LockCharacterization(l);
    }
    if 0 <= held && (locked || 0 <= total) {
      var l := BalancesMade(held, total, locked);
      ReachableIffGood(l);
    }
  }

  /** A locked account answers `AccountLocked` to everything and never changes again. */
  lemma {:induction false} LockIsFinal(l: Ledger, cs: seq<Call>)
    requires Locked(l)
    ensures After(l, cs) == l
    ensures forall o | o in Outcomes(l, cs) :: o == Rejected(AccountLocked)
    decreases |cs|
  {
    if cs == [] {
    } else {
      LockIsFinal(l, cs[1..]);
    }
  }

  /** A run locks an unlocked account exactly when one of its chargebacks is accepted. */
  lemma {:induction false} LockedByChargeback(l: Ledger, cs: seq<Call>)
    requires !Locked(l)
    ensures Locked(After(l, cs)) <==>
            exists i :: 0 <= i < |cs| && cs[i].op == Chargeback && Outcomes(l, cs)[i] == Accepted
    decreases |cs|
  {
    if cs == [] {
    } else {
      var k, os := Step(l, cs[0]).ledger, Outcomes(l, cs);
      StepLocks(l, cs[0]);
      if Locked(k) {
        LockIsFinal(k, cs[1..]);
        assert cs[0].op == Chargeback && os[0] == Accepted;
      } else {
        LockedByChargeback(k, cs[1..]);
        forall i | 0 < i < |cs| ensures cs[i] == cs[1..][i - 1] && os[i] == Outcomes(k, cs[1..])[i - 1] {}
        if Locked(After(k, cs[1..])) {
          var j :| 0 <= j < |cs[1..]| && cs[1..][j].op == Chargeback && Outcomes(k, cs[1..])[j] == Accepted;
          assert cs[j + 1].op == Chargeback && os[j + 1] == Accepted;
        }
      }
    }
  }

  lemma StepLocks(l: Ledger, c: Call)
    requires !Locked(l)
    ensures Locked(Step(l, c).ledger) <==> c.op == Chargeback && Step(l, c).outcome == Accepted
  {
    var t, k := c.message.transactionId, Step(l, c).ledger;
    if k != l && k[t].state == ChargedBack {
      assert Locked(k);
    }
  }

  // Rejections

  /**
   The lock is the only source of `AccountLocked`: the row of the transition table for a charged
   back transaction is never consulted, and no call is ever refused for reverting to `Normal`.
   */
  lemma RejectionSources(l: Ledger, c: Call)
    ensures Step(l, c).outcome == Rejected(AccountLocked) <==> Locked(l)
    ensures Step(l, c).outcome != Rejected(CannotRevertToNormal)
    ensures !Locked(l) && c.message.transactionId in l ==> l[c.message.transactionId].state != ChargedBack
    ensures Step(l, c).outcome != Accepted ==> Step(l, c).ledger == l
  {
    var t := c.message.transactionId;
    if t in l && l[t].state == ChargedBack {
      assert Locked(l);
    }
  }

  /** The whole transition table. */
  lemma TransitionTable(from: TransactionState, to: TransactionState)
    ensures CanTransition(from, to) == Allowed <==>
            (from == Normal && to == Disputed) || (from == Disputed && (to == Resolved || to == ChargedBack))
    ensures CanTransition(from, to) == Forbidden(CannotRevertToNormal) <==> to == Normal
    ensures CanTransition(from, to) == Forbidden(AccountLocked) <==> from == ChargedBack && to != Normal
    ensures CanTransition(from, to) == Forbidden(TransactionTerminalState) <==> from == Resolved && to != Normal
    ensures CanTransition(from, to) == Forbidden(AlreadyDisputed) <==> from == Disputed && to == Disputed
    ensures CanTransition(from, to) == Forbidden(TransactionNotDisputed) <==>
            from == Normal && (to == Resolved || to == ChargedBack)
  {}

  /** When a dispute, a resolve or a chargeback gets which answer from an unlocked account. */
  lemma LifecycleAnswers(l: Ledger, c: Call)
    requires !Locked(l) && (c.op == Dispute || c.op == Resolve || c.op == Chargeback)
    ensures var t, o := c.message.transactionId, Step(l, c).outcome;
            && (o == Rejected(InvalidTransaction) <==> t !in l)
            && (o == Rejected(AlreadyDisputed) <==> c.op == Dispute && t in l && l[t].state == Disputed)
            && (o == Rejected(TransactionNotDisputed) <==> c.op != Dispute && t in l && l[t].state == Normal)
            && (o == Rejected(TransactionTerminalState) <==> t in l && l[t].state == Resolved)
            && (o == Accepted <==> t in l && l[t].state == if c.op == Dispute then Normal else Disputed)
  {
    RejectionSources(l, c);
  }

  /** When a deposit or a withdrawal gets which answer from an unlocked account. */
  lemma RecordAnswers(l: Ledger, c: Call)
    requires !Locked(l) && (c.op == Deposit || c.op == Withdrawal)
    ensures var t, amount, o := c.message.transactionId, c.message.amount, Step(l, c).outcome;
            && (o == Rejected(AmountNegative) <==> amount <= 0)
            && (o == Rejected(DuplicateTransaction) <==> 0 < amount && t in l)
            && (o == Rejected(InsufficientBalance) <==>
                c.op == Withdrawal && 0 < amount && t !in l && Available(l) < amount)
            && (o == Accepted <==> 0 < amount && t !in l && (c.op == Withdrawal ==> amount <= Available(l)))
  {}

  /** What an accepted call leaves behind. */
  lemma AcceptedEffect(l: Ledger, c: Call)
    requires Step(l, c).outcome == Accepted
    ensures var t, k := c.message.transactionId, Step(l, c).ledger;
            && k.Keys == l.Keys + {t}
            && (forall u | u in l && u != t :: k[u] == l[u])
            && match c.op
               case Deposit => k[t] == Entry(true, Normal, c.message)
               case Withdrawal => k[t] == Entry(false, Normal, c.message)
               case Dispute => t in l && k[t] == Entry(l[t].credit, Disputed, l[t].message)
               case Resolve => t in l && k[t] == Entry(l[t].credit, Resolved, l[t].message)
               case Chargeback => t in l && k[t] == Entry(l[t].credit, ChargedBack, l[t].message)
  {}

  ghost function AcceptedCalls(l: Ledger, cs: seq<Call>): seq<Call>
    decreases |cs|
  {
    if cs == [] then []
    else (if Step(l, cs[0]).outcome == Accepted then [cs[0]] else [])
         + AcceptedCalls(Step(l, cs[0]).ledger, cs[1..])
  }

  /** Dropping the rejected calls of a run changes neither its end nor the fate of the others. */
  lemma {:induction false} RejectedCallsErasable(l: Ledger, cs: seq<Call>)
    ensures After(l, AcceptedCalls(l, cs)) == After(l, cs)
    ensures forall o | o in Outcomes(l, AcceptedCalls(l, cs)) :: o == Accepted
    ensures |AcceptedCalls(l, cs)| == CountAccepted(Outcomes(l, cs))
    decreases |cs|
  {
    if cs == [] {
    } else {
      var k := Step(l, cs[0]).ledger;
      RejectedCallsErasable(k, cs[1..]);
      RejectionSources(l, cs[0]);
      var ds := AcceptedCalls(k, cs[1..]);
      if Step(l, cs[0]).outcome == Accepted {
        assert ([cs[0]] + ds)[1..] == ds;
      } else {
        assert [] + ds == ds;
      }
    }
  }

  // Messages that refer to a transaction

  /** The calls agree, except perhaps in what a lifecycle message says beyond its transaction. */
  ghost predicate SameEffect(c: Call, d: Call) {
    && c.op == d.op
    && c.message.transactionId == d.message.transactionId
    && (IsLifecycle(c.op) || c.message == d.message)
  }

  /** Disputes, resolves and chargebacks use the recorded amount, whatever amount they carry themselves. */
  lemma {:induction false} LifecycleAmountsIgnored(l: Ledger, cs: seq<Call>, ds: seq<Call>)
    requires |cs| == |ds| && forall i | 0 <= i < |cs| :: SameEffect(cs[i], ds[i])
    ensures After(l, cs) == After(l, ds) && Outcomes(l, cs) == Outcomes(l, ds)
    decreases |cs|
  {
    if cs == [] {
    } else {
      assert SameEffect(cs[0], ds[0]);
      assert forall i | 0 <= i < |cs[1..]| :: SameEffect(cs[1..][i], ds[1..][i]);
      LifecycleAmountsIgnored(Step(l, cs[0]).ledger, cs[1..], ds[1..]);
    }
  }
}
