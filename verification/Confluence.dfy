/**
 When calls on different transactions of one account commute. A call is decided by the earlier
 calls on its own transaction, unless the account refuses it for being locked or lacking funds.
 */
module Confluence {
  import opened Domain
  import opened Sums
  import opened Ledger
  import opened LedgerLaws

  // One transaction on its own

  function Lookup(l: Ledger, t: TransactionId): Option<Entry> {
    if t in l then Some(l[t]) else None
  }

  /** What a call does to its own transaction when neither funds nor the lock stand in the way. */
  function EntryStep(e: Option<Entry>, c: Call): (Option<Entry>, Outcome) {
    if IsLifecycle(c.op) then
      if e == None then (e, Rejected(InvalidTransaction))
      else
        match CanTransition(e.value.state, Target(c.op))
        case Forbidden(error) => (e, Rejected(error))
        case Allowed => (Some(e.value.(state := Target(c.op))), Accepted)
    else if c.message.amount <= 0 then (e, Rejected(AmountNegative))
    else if e != None then (e, Rejected(DuplicateTransaction))
    else (Some(Entry(c.op == Deposit, Normal, c.message)), Accepted)
  }

  /** The reason, if any, for which the account refused a call regardless of its transaction. */
  function Refusal(o: Outcome): Option<TransactionError> {
    if o == Rejected(AccountLocked) || o == Rejected(InsufficientBalance) then Some(o.error) else None
  }

  function Refusals(os: seq<Outcome>): seq<Option<TransactionError>> {
    seq(|os|, i requires 0 <= i < |os| => Refusal(os[i]))
  }

  function NoRefusals(n: nat): seq<Option<TransactionError>> {
    seq(n, _ => None)
  }

  /** The calls on one transaction, some of them refused by the account. */
  function EntryRun(e: Option<Entry>, cs: seq<Call>, rs: seq<Option<TransactionError>>): (Option<Entry>, seq<Outcome>)
    requires |cs| == |rs|
    decreases |cs|
  {
    if cs == [] then (e, [])
    else
      var (f, o) := if rs[0] == None then EntryStep(e, cs[0]) else (e, Rejected(rs[0].value));
      var (g, os) := EntryRun(f, cs[1..], rs[1..]);
      (g, [o] + os)
  }

  /** The calls on transaction `t`, in order. */
  function CallsOn(cs: seq<Call>, t: TransactionId): seq<Call> {
    if cs == [] then []
    else (if cs[0].message.transactionId == t then [cs[0]] else []) + CallsOn(cs[1..], t)
  }

  /** The outcomes, among those of `cs`, of the calls on transaction `t`. */
  function OutcomesOn(cs: seq<Call>, os: seq<Outcome>, t: TransactionId): (on: seq<Outcome>)
    requires |cs| == |os|
    ensures |on| == |CallsOn(cs, t)|
  {
    if cs == [] then []
    else (if cs[0].message.transactionId == t then [os[0]] else []) + OutcomesOn(cs[1..], os[1..], t)
  }

  /** `f` is where call `c`, with outcome `o`, leaves its transaction. */
  predicate Decides(e: Option<Entry>, c: Call, f: Option<Entry>, o: Outcome) {
    if Refusal(o) == None then EntryStep(e, c) == (f, o) else o == Rejected(Refusal(o).value) && f == e
  }

  lemma DecidedCons(e: Option<Entry>, c: Call, f: Option<Entry>, o: Outcome,
                    cs: seq<Call>, g: Option<Entry>, os: seq<Outcome>)
    requires Decides(e, c, f, o)
    requires |cs| == |os| && EntryRun(f, cs, Refusals(os)) == (g, os)
    ensures EntryRun(e, [c] + cs, Refusals([o] + os)) == (g, [o] + os)
  {
    assert ([c] + cs)[1..] == cs && Refusals([o] + os)[1..] == Refusals(os);
  }

  /** Every run is decided transaction by transaction, once the refusals are known. */
  lemma {:induction false} DecidedPerTransaction(l: Ledger, cs: seq<Call>, t: TransactionId)
    ensures var os := OutcomesOn(cs, Outcomes(l, cs), t);
            EntryRun(Lookup(l, t), CallsOn(cs, t), Refusals(os)) == (Lookup(After(l, cs), t), os)
    decreases |cs|
  {
    if cs == [] {
    } else {
      var c, ds, r := cs[0], cs[1..], Step(l, cs[0]);
      var on := OutcomesOn(ds, Outcomes(r.ledger, ds), t);
      DecidedPerTransaction(r.ledger, ds, t);
      assert Outcomes(l, cs)[1..] == Outcomes(r.ledger, ds);
      if c.message.transactionId == t {
        StepDecided(l, c);
        DecidedCons(Lookup(l, t), c, Lookup(r.ledger, t), r.outcome, CallsOn(ds, t), Lookup(After(l, cs), t), on);
      } else {
        StepElsewhere(l, c, t);
        assert [] + CallsOn(ds, t) == CallsOn(ds, t) && [] + on == on;
      }
    }
  }

  lemma StepDecided(l: Ledger, c: Call)
    ensures var t := c.message.transactionId;
            Decides(Lookup(l, t), c, Lookup(Step(l, c).ledger, t), Step(l, c).outcome)
  {
    RejectionSources(l, c);
  }

  lemma StepElsewhere(l: Ledger, c: Call, t: TransactionId)
    requires c.message.transactionId != t
    ensures Lookup(Step(l, c).ledger, t) == Lookup(l, t)
  {}

  // Forgetting arrival order

  function StripMessage(m: InputMessage): InputMessage {
    m.(chronoOrder := 0)
  }

  function StripCall(c: Call): Call {
    c.(message := StripMessage(c.message))
  }

  function StripEntry(e: Entry): Entry {
    e.(message := StripMessage(e.message))
  }

  function StripCalls(cs: seq<Call>): seq<Call> {
    seq(|cs|, i requires 0 <= i < |cs| => StripCall(cs[i]))
  }

  function StripLookup(e: Option<Entry>): Option<Entry> {
    if e == None then None else Some(StripEntry(e.value))
  }

  function StripLedger(l: Ledger): Ledger {
    map t | t in l :: StripEntry(l[t])
  }

  lemma {:induction false} EntryRunStrips(e: Option<Entry>, cs: seq<Call>, rs: seq<Option<TransactionError>>)
    requires |cs| == |rs|
    ensures EntryRun(StripLookup(e), StripCalls(cs), rs) == (StripLookup(EntryRun(e, cs, rs).0), EntryRun(e, cs, rs).1)
    decreases |cs|
  {
    if cs == [] {
    } else {
      var (f, o) := if rs[0] == None then EntryStep(e, cs[0]) else (e, Rejected(rs[0].value));
      assert StripCalls(cs)[1..] == StripCalls(cs[1..]);
      if rs[0] == None {
        assert EntryStep(StripLookup(e), StripCall(cs[0])) == (StripLookup(f), o);
      }
      EntryRunStrips(f, cs[1..], rs[1..]);
    }
  }

  // Confluence

  /** Per transaction, the two streams carry the same calls in the same order, up to `chronoOrder`. */
  ghost predicate SameCallsPerTransaction(cs: seq<Call>, ds: seq<Call>) {
    forall t: TransactionId :: StripCalls(CallsOn(cs, t)) == StripCalls(CallsOn(ds, t))
  }

  /** Both runs end in the same ledger up to `chronoOrder`, with the same outcome for each call. */
  ghost predicate Agree(l: Ledger, cs: seq<Call>, ds: seq<Call>) {
    && StripLedger(After(l, cs)) == StripLedger(After(l, ds))
    && forall t: TransactionId :: OutcomesOn(cs, Outcomes(l, cs), t) == OutcomesOn(ds, Outcomes(l, ds), t)
  }

  lemma StripSum(l: Ledger, w: Entry -> int)
    requires forall e :: w(StripEntry(e)) == w(e)
    ensures Sum(StripLedger(l), w) == Sum(l, w)
  {
    assert StripLedger(l).Keys == l.Keys;
    SumCongruent(l, StripLedger(l), w, w);
  }

  lemma StripKeepsBalances(l: Ledger)
    ensures Total(StripLedger(l)) == Total(l) && Held(StripLedger(l)) == Held(l)
  {
    StripSum(l, DepositAmount);
    StripSum(l, WithdrawalAmount);
    StripSum(l, ChargedBackAmount);
    StripSum(l, DisputedAmount);
  }

  lemma StripKeepsStates(l: Ledger, s: TransactionState)
    ensures InState(StripLedger(l), s) == InState(l, s)
  {
    assert StripLedger(l).Keys == l.Keys;
  }

  lemma LockedByState(l: Ledger)
    ensures Locked(l) <==> InState(l, ChargedBack) != {}
  {
    if Locked(l) {
      var t :| t in l && l[t].state == ChargedBack;
      assert t in InState(l, ChargedBack);
    }
  }

  /** For each transaction, the account itself refused the same calls for the same reasons. */
  ghost predicate SameRefusals(l: Ledger, cs: seq<Call>, ds: seq<Call>) {
    forall t: TransactionId ::
      Refusals(OutcomesOn(cs, Outcomes(l, cs), t)) == Refusals(OutcomesOn(ds, Outcomes(l, ds), t))
  }

  /** Any two interleavings agree if and only if the account refuses the same calls in both. */
  lemma AgreeIffSameRefusals(l: Ledger, cs: seq<Call>, ds: seq<Call>)
    requires SameCallsPerTransaction(cs, ds)
    ensures Agree(l, cs, ds) <==> SameRefusals(l, cs, ds)
  {
    if SameRefusals(l, cs, ds) {
      var a, b := After(l, cs), After(l, ds);
      forall t: TransactionId
        ensures OutcomesOn(cs, Outcomes(l, cs), t) == OutcomesOn(ds, Outcomes(l, ds), t)
        ensures StripLookup(Lookup(a, t)) == StripLookup(Lookup(b, t))
      {
        DecidedPerTransaction(l, cs, t);
        DecidedPerTransaction(l, ds, t);
        var rs := Refusals(OutcomesOn(cs, Outcomes(l, cs), t));
        EntryRunStrips(Lookup(l, t), CallsOn(cs, t), rs);
        EntryRunStrips(Lookup(l, t), CallsOn(ds, t), rs);
      }
      SameLookups(a, b);
    }
  }

  lemma SameLookups(a: Ledger, b: Ledger)
    requires forall t: TransactionId :: StripLookup(Lookup(a, t)) == StripLookup(Lookup(b, t))
    ensures StripLedger(a) == StripLedger(b)
  {
    forall t: TransactionId
      ensures t in a <==> t in b
      ensures t in a ==> StripEntry(a[t]) == StripEntry(b[t])
    {
      assert StripLookup(Lookup(a, t)) == StripLookup(Lookup(b, t));
    }
    assert StripLedger(a).Keys == StripLedger(b).Keys;
  }

  lemma AgreeingBalances(l: Ledger, cs: seq<Call>, ds: seq<Call>)
    requires Agree(l, cs, ds)
    ensures var a, b := After(l, cs), After(l, ds);
            && Total(a) == Total(b) && Held(a) == Held(b) && Available(a) == Available(b)
            && (Locked(a) <==> Locked(b))
            && forall s :: InState(a, s) == InState(b, s)
  {
    var a, b := After(l, cs), After(l, ds);
    StripKeepsBalances(a);
    StripKeepsBalances(b);
    forall s ensures InState(a, s) == InState(b, s) {
      StripKeepsStates(a, s);
      StripKeepsStates(b, s);
    }
    LockedByState(a);
    LockedByState(b);
  }

  // Which runs meet no refusal

  /** No call of the run is refused for the lock or for a lack of funds. */
  ghost predicate Unhindered(l: Ledger, cs: seq<Call>) {
    forall o | o in Outcomes(l, cs) :: Refusal(o) == None
  }

  /** Where the calls on transaction `t`, judged by themselves, bring it. */
  function OwnEnd(l: Ledger, cs: seq<Call>, t: TransactionId): Option<Entry> {
    var own := CallsOn(cs, t);
    EntryRun(Lookup(l, t), own, NoRefusals(|own|)).0
  }

  /** Where the earlier calls on its own transaction alone would put the transaction of call `i`. */
  function OwnEntry(l: Ledger, cs: seq<Call>, i: nat): Option<Entry>
    requires i < |cs|
  {
    OwnEnd(l, cs[..i], cs[i].message.transactionId)
  }

  /** What call `i` would then do. */
  function OwnStep(l: Ledger, cs: seq<Call>, i: nat): (Option<Entry>, Outcome)
    requires i < |cs|
  {
    EntryStep(OwnEntry(l, cs, i), cs[i])
  }

  /** What an entry adds to the funds available. */
  function EntryFunds(e: Option<Entry>): int {
    if e == None then 0 else Contribution(e.value) - DisputedAmount(e.value)
  }

  /** The funds available before call `n`, with every earlier call counted as its own transaction has it. */
  ghost function Funds(l: Ledger, cs: seq<Call>, n: nat): int
    requires n <= |cs|
  {
    if n == 0 then Available(l)
    else Funds(l, cs, n - 1) + EntryFunds(OwnStep(l, cs, n - 1).0) - EntryFunds(OwnEntry(l, cs, n - 1))
  }

  /**
   What can be told before the run: the account is unlocked, each withdrawal that its own transaction
   allows is covered by the funds, and no chargeback that its own transaction allows comes before the last call.
   */
  ghost predicate Covered(l: Ledger, cs: seq<Call>) {
    && (cs != [] ==> !Locked(l))
    && forall i | 0 <= i < |cs| && OwnStep(l, cs, i).1 == Accepted ::
         && (cs[i].op == Withdrawal ==> cs[i].message.amount <= Funds(l, cs, i))
         && (cs[i].op == Chargeback ==> i == |cs| - 1)
  }

  lemma UnhinderedRefusals(l: Ledger, cs: seq<Call>, t: TransactionId)
    requires Unhindered(l, cs)
    ensures Refusals(OutcomesOn(cs, Outcomes(l, cs), t)) == NoRefusals(|CallsOn(cs, t)|)
  {
    OutcomesOnWithin(cs, Outcomes(l, cs), t);
  }

  /** What an unlocked account does with a call, seen from the call's own transaction. */
  ghost predicate FollowsOwn(k: Ledger, c: Call, own: (Option<Entry>, Outcome)) {
    var r := Step(k, c);
    if r.outcome == Rejected(InsufficientBalance)
    then c.op == Withdrawal && Available(k) < c.message.amount && own.1 == Accepted
    else
      && (Lookup(r.ledger, c.message.transactionId), r.outcome) == own
      && Refusal(r.outcome) == None
      && (c.op == Withdrawal && r.outcome == Accepted ==> c.message.amount <= Available(k))
  }

  lemma UnlockedStep(k: Ledger, c: Call)
    requires !Locked(k)
    ensures FollowsOwn(k, c, EntryStep(Lookup(k, c.message.transactionId), c))
  {
    RejectionSources(k, c);
    StepDecided(k, c);
  }

  /** After an unhindered run an unlocked account finds the next call where its own transaction has it. */
  lemma OwnStepIsStep(l: Ledger, cs: seq<Call>, n: nat)
    requires n < |cs| && Unhindered(l, cs[..n]) && !Locked(After(l, cs[..n]))
    ensures Lookup(After(l, cs[..n]), cs[n].message.transactionId) == OwnEntry(l, cs, n)
    ensures FollowsOwn(After(l, cs[..n]), cs[n], OwnStep(l, cs, n))
  {
    var t := cs[n].message.transactionId;
    DecidedPerTransaction(l, cs[..n], t);
    UnhinderedRefusals(l, cs[..n], t);
    UnlockedStep(After(l, cs[..n]), cs[n]);
  }

  lemma StepFunds(k: Ledger, c: Call)
    ensures var t, r := c.message.transactionId, Step(k, c).ledger;
            Available(r) == Available(k) + EntryFunds(Lookup(r, t)) - EntryFunds(Lookup(k, t))
  {
    var t, r := c.message.transactionId, Step(k, c).ledger;
    if r != k {
      BalancesAfterUpdate(k, t, r[t]);
      assert r == k[t := r[t]];
    }
  }

  lemma PrefixSnoc(l: Ledger, cs: seq<Call>, n: nat)
    requires n < |cs|
    ensures After(l, cs[..n + 1]) == Step(After(l, cs[..n]), cs[n]).ledger
    ensures Outcomes(l, cs[..n + 1]) == Outcomes(l, cs[..n]) + [Step(After(l, cs[..n]), cs[n]).outcome]
  {
    assert cs[..n + 1] == cs[..n] + [cs[n]];
    RunSnoc(l, cs[..n], cs[n]);
  }

  lemma UnhinderedPrefix(l: Ledger, cs: seq<Call>, n: nat)
    requires Unhindered(l, cs) && n <= |cs|
    ensures Unhindered(l, cs[..n])
  {
    RunConcat(l, cs[..n], cs[n..]);
    assert cs == cs[..n] + cs[n..];
  }

  lemma UnhinderedSnoc(l: Ledger, cs: seq<Call>, n: nat)
    requires n < |cs| && Unhindered(l, cs[..n + 1])
    ensures Unhindered(l, cs[..n]) && !Locked(After(l, cs[..n]))
    ensures Refusal(Step(After(l, cs[..n]), cs[n]).outcome) == None
  {
    PrefixSnoc(l, cs, n);
    assert cs[..n + 1][..n] == cs[..n];
    UnhinderedPrefix(l, cs[..n + 1], n);
    var os := Outcomes(l, cs[..n + 1]);
    assert os[n] in os;
    RejectionSources(After(l, cs[..n]), cs[n]);
  }

  /** As long as nothing is refused, the funds foreseen are the funds there are. */
  lemma {:induction false} FundsForeseen(l: Ledger, cs: seq<Call>, n: nat)
    requires n <= |cs| && Unhindered(l, cs[..n])
    ensures Available(After(l, cs[..n])) == Funds(l, cs, n)
    decreases n
  {
    if n == 0 {
      assert After(l, cs[..0]) == l;
    } else {
      UnhinderedSnoc(l, cs, n - 1);
      FundsForeseen(l, cs, n - 1);
      PrefixSnoc(l, cs, n - 1);
      OwnStepIsStep(l, cs, n - 1);
      StepFunds(After(l, cs[..n - 1]), cs[n - 1]);
    }
  }

  lemma {:induction false} CoveredUnhindered(l: Ledger, cs: seq<Call>, n: nat)
    requires Covered(l, cs) && n <= |cs|
    ensures Unhindered(l, cs[..n])
    ensures n < |cs| ==> !Locked(After(l, cs[..n]))
    decreases n
  {
    if n == 0 {
    } else {
      var i := n - 1;
      CoveredUnhindered(l, cs, i);
      PrefixSnoc(l, cs, i);
      FundsForeseen(l, cs, i);
      OwnStepIsStep(l, cs, i);
      StepLocks(After(l, cs[..i]), cs[i]);
    }
  }

  /** Exactly the covered streams run without a refusal by the account. */
  lemma UnhinderedIffCovered(l: Ledger, cs: seq<Call>)
    ensures Unhindered(l, cs) <==> Covered(l, cs)
  {
    assert cs[..|cs|] == cs;
    if Covered(l, cs) {
      CoveredUnhindered(l, cs, |cs|);
    }
    if Unhindered(l, cs) {
      forall i | 0 <= i < |cs|
        ensures !Locked(After(l, cs[..i]))
        ensures OwnStep(l, cs, i).1 == Accepted ==>
                  && (cs[i].op == Withdrawal ==> cs[i].message.amount <= Funds(l, cs, i))
                  && (cs[i].op == Chargeback ==> i == |cs| - 1)
      {
        UnhinderedAt(l, cs, i);
      }
      assert cs != [] ==> !Locked(After(l, cs[..0]));
    }
  }

  lemma UnhinderedAt(l: Ledger, cs: seq<Call>, i: nat)
    requires Unhindered(l, cs) && i < |cs|
    ensures !Locked(After(l, cs[..i]))
    ensures OwnStep(l, cs, i).1 == Accepted ==>
              && (cs[i].op == Withdrawal ==> cs[i].message.amount <= Funds(l, cs, i))
              && (cs[i].op == Chargeback ==> i == |cs| - 1)
  {
    UnhinderedPrefix(l, cs, i + 1);
    UnhinderedSnoc(l, cs, i);
    FundsForeseen(l, cs, i);
    OwnStepIsStep(l, cs, i);
    if i + 1 < |cs| {
      UnhinderedPrefix(l, cs, i + 2);
      UnhinderedSnoc(l, cs, i + 1);
      PrefixSnoc(l, cs, i);
      StepLocks(After(l, cs[..i]), cs[i]);
    }
  }

  lemma {:induction false} OutcomeOnItsTransaction(cs: seq<Call>, os: seq<Outcome>, i: nat)
    requires |cs| == |os| && i < |os|
    ensures os[i] in OutcomesOn(cs, os, cs[i].message.transactionId)
    decreases |cs|
  {
    if i == 0 {
    } else {
      OutcomeOnItsTransaction(cs[1..], os[1..], i - 1);
    }
  }

  lemma {:induction false} OutcomesOnWithin(cs: seq<Call>, os: seq<Outcome>, t: TransactionId)
    requires |cs| == |os|
    ensures forall o | o in OutcomesOn(cs, os, t) :: o in os
    decreases |cs|
  {
    if cs == [] {
    } else {
      OutcomesOnWithin(cs[1..], os[1..], t);
    }
  }

  lemma AgreeUnhindered(l: Ledger, cs: seq<Call>, ds: seq<Call>)
    requires Unhindered(l, cs) && Agree(l, cs, ds)
    ensures Unhindered(l, ds)
  {
    var os := Outcomes(l, ds);
    forall i | 0 <= i < |os| ensures Refusal(os[i]) == None {
      var t := ds[i].message.transactionId;
      OutcomeOnItsTransaction(ds, os, i);
      OutcomesOnWithin(cs, Outcomes(l, cs), t);
    }
  }

  lemma UnhinderedAgree(l: Ledger, cs: seq<Call>, ds: seq<Call>)
    requires SameCallsPerTransaction(cs, ds) && Unhindered(l, cs) && Unhindered(l, ds)
    ensures Agree(l, cs, ds)
  {
    forall t: TransactionId
      ensures Refusals(OutcomesOn(cs, Outcomes(l, cs), t)) == Refusals(OutcomesOn(ds, Outcomes(l, ds), t))
    {
      UnhinderedRefusals(l, cs, t);
      UnhinderedRefusals(l, ds, t);
      assert |StripCalls(CallsOn(cs, t))| == |StripCalls(CallsOn(ds, t))|;
    }
    AgreeIffSameRefusals(l, cs, ds);
  }

  /**
   An interleaving of the same per-transaction calls agrees with a covered stream if and only if
   it is covered itself, which can be told before either is run.
   */
  lemma InterleavingsAgree(l: Ledger, cs: seq<Call>, ds: seq<Call>)
    requires SameCallsPerTransaction(cs, ds) && Covered(l, cs)
    ensures Agree(l, cs, ds) <==> Covered(l, ds)
  {
    UnhinderedIffCovered(l, cs);
    UnhinderedIffCovered(l, ds);
    if Covered(l, ds) {
      UnhinderedAgree(l, cs, ds);
    }
    if Agree(l, cs, ds) {
      AgreeUnhindered(l, cs, ds);
    }
  }

  lemma CoveredEnd(l: Ledger, cs: seq<Call>, t: TransactionId)
    requires Covered(l, cs)
    ensures Lookup(After(l, cs), t) == OwnEnd(l, cs, t)
  {
    UnhinderedIffCovered(l, cs);
    UnhinderedRefusals(l, cs, t);
    DecidedPerTransaction(l, cs, t);
  }

  lemma SameLookup(a: Ledger, b: Ledger)
    requires forall t: TransactionId :: Lookup(a, t) == Lookup(b, t)
    ensures a == b
  {
    forall t: TransactionId
      ensures t in a <==> t in b
      ensures t in a ==> a[t] == b[t]
    {
      assert Lookup(a, t) == Lookup(b, t);
    }
  }

  /**
   Two covered streams, whatever calls they consist of, end in the same ledger if and only if each
   transaction's own calls end alike.
   */
  lemma CoveredEnds(l: Ledger, cs: seq<Call>, ds: seq<Call>)
    requires Covered(l, cs) && Covered(l, ds)
    ensures After(l, cs) == After(l, ds) <==> forall t: TransactionId :: OwnEnd(l, cs, t) == OwnEnd(l, ds, t)
  {
    forall t: TransactionId
      ensures Lookup(After(l, cs), t) == OwnEnd(l, cs, t) && Lookup(After(l, ds), t) == OwnEnd(l, ds, t)
    {
      CoveredEnd(l, cs, t);
      CoveredEnd(l, ds, t);
    }
    if forall t: TransactionId :: OwnEnd(l, cs, t) == OwnEnd(l, ds, t) {
      SameLookup(After(l, cs), After(l, ds));
    }
  }

  /** Interleavings that agree, with the very same messages, end in the very same ledger. */
  lemma AgreeExactly(l: Ledger, cs: seq<Call>, ds: seq<Call>)
    requires forall t: TransactionId :: CallsOn(cs, t) == CallsOn(ds, t)
    requires Agree(l, cs, ds)
    ensures After(l, cs) == After(l, ds)
  {
    forall t: TransactionId ensures Lookup(After(l, cs), t) == Lookup(After(l, ds), t) {
      DecidedPerTransaction(l, cs, t);
      DecidedPerTransaction(l, ds, t);
    }
    SameLookup(After(l, cs), After(l, ds));
  }

  /** On every account, then, all interleavings of such calls agree, balances and sets included. */
  lemma DepositsDisputesResolvesConfluent(l: Ledger, cs: seq<Call>, ds: seq<Call>)
    requires SameCallsPerTransaction(cs, ds)
    requires forall c | c in cs + ds :: c.op != Withdrawal && c.op != Chargeback
    ensures Agree(l, cs, ds)
    ensures var a, b := After(l, cs), After(l, ds);
            && Total(a) == Total(b) && Held(a) == Held(b) && Available(a) == Available(b)
            && (Locked(a) <==> Locked(b))
            && forall s :: InState(a, s) == InState(b, s)
  {
    if Locked(l) {
      LockedAgree(l, cs, ds);
    } else {
      forall c | c in cs || c in ds ensures c in cs + ds {}
      InterleavingsAgree(l, cs, ds);
    }
    AgreeingBalances(l, cs, ds);
  }

  lemma LockedAgree(l: Ledger, cs: seq<Call>, ds: seq<Call>)
    requires Locked(l) && SameCallsPerTransaction(cs, ds)
    ensures Agree(l, cs, ds)
  {
    LockIsFinal(l, cs);
    LockIsFinal(l, ds);
    forall t: TransactionId
      ensures OutcomesOn(cs, Outcomes(l, cs), t) == OutcomesOn(ds, Outcomes(l, ds), t)
    {
      var os, ps := OutcomesOn(cs, Outcomes(l, cs), t), OutcomesOn(ds, Outcomes(l, ds), t);
      OutcomesOnWithin(cs, Outcomes(l, cs), t);
      OutcomesOnWithin(ds, Outcomes(l, ds), t);
      forall i | 0 <= i < |os| ensures os[i] == Rejected(AccountLocked) { assert os[i] in os; }
      forall i | 0 <= i < |ps| ensures ps[i] == Rejected(AccountLocked) { assert ps[i] in ps; }
      assert |StripCalls(CallsOn(cs, t))| == |StripCalls(CallsOn(ds, t))|;
    }
  }

  // Streams that do not commute

  lemma Disagree(l: Ledger, cs: seq<Call>, ds: seq<Call>, i: nat)
    requires i < |ds| && Unhindered(l, cs) && Refusal(Outcomes(l, ds)[i]) != None
    ensures !Agree(l, cs, ds)
  {
    assert Outcomes(l, ds)[i] in Outcomes(l, ds);
    if Agree(l, cs, ds) {
      AgreeUnhindered(l, cs, ds);
    }
  }

  lemma OutcomesOfTwo(l: Ledger, c: Call, d: Call)
    ensures var k := Step(l, c).ledger; Outcomes(l, [c, d]) == [Step(l, c).outcome, Step(k, d).outcome]
  {
    RunSnoc(l, [], c);
    RunSnoc(l, [c], d);
    assert [] + [c] == [c] && [c] + [d] == [c, d];
  }

  lemma TwoOnTheirOwn(c: Call, d: Call)
    requires c.message.transactionId != d.message.transactionId
    ensures SameCallsPerTransaction([c, d], [d, c])
  {
    assert [c, d][1..] == [d] && [d, c][1..] == [c] && [c][1..] == [] && [d][1..] == [];
    forall t: TransactionId ensures CallsOn([c, d], t) == CallsOn([d, c], t) {
      assert CallsOn([c], t) == if c.message.transactionId == t then [c] else [];
      assert CallsOn([d], t) == if d.message.transactionId == t then [d] else [];
    }
  }

  /** A withdrawal that overtakes the deposit of a fresh account is refused. */
  lemma WithdrawalsDoNotCommute()
    ensures var d := Call(Deposit, InputMessage(0, Deposit, 1, 1, 5));
            var w := Call(Withdrawal, InputMessage(1, Withdrawal, 1, 2, 5));
            && SameCallsPerTransaction([d, w], [w, d])
            && Outcomes(map[], [d, w]) == [Accepted, Accepted]
            && Outcomes(map[], [w, d]) == [Rejected(InsufficientBalance), Accepted]
            && !Agree(map[], [d, w], [w, d])
  {
    var d := Call(Deposit, InputMessage(0, Deposit, 1, 1, 5));
    var w := Call(Withdrawal, InputMessage(1, Withdrawal, 1, 2, 5));
    TwoOnTheirOwn(d, w);
    var one := Record(map[], true, d.message);
    BalancesAfterUpdate(map[], 1, one[1]);
    assert Step(map[], d) == StepResult(one, Accepted);
    OutcomesOfTwo(map[], d, w);
    OutcomesOfTwo(map[], w, d);
    Disagree(map[], [d, w], [w, d], 0);
  }

  lemma DisputedDepositReachable(m: InputMessage)
    requires 0 < m.amount
    ensures Reachable(map[m.transactionId := Entry(true, Disputed, m)])
  {
    var empty: Ledger := map[];
    var e := Entry(true, Disputed, m);
    assert map[m.transactionId := e] == empty[m.transactionId := e];
    BalancesAfterUpdate(empty, m.transactionId, e);
    ReachableIffGood(map[m.transactionId := e]);
  }

  /** A chargeback that overtakes a deposit locks it out, on an account with one disputed deposit. */
  lemma ChargebacksDoNotCommute()
    ensures var l: Ledger := map[1 := Entry(true, Disputed, InputMessage(0, Deposit, 1, 1, 5))];
            var d := Call(Deposit, InputMessage(2, Deposit, 1, 2, 5));
            var c := Call(Chargeback, InputMessage(3, Chargeback, 1, 1, 0));
            && Reachable(l)
            && SameCallsPerTransaction([d, c], [c, d])
            && Outcomes(l, [d, c]) == [Accepted, Accepted]
            && Outcomes(l, [c, d]) == [Accepted, Rejected(AccountLocked)]
            && !Agree(l, [d, c], [c, d])
  {
    var l: Ledger := map[1 := Entry(true, Disputed, InputMessage(0, Deposit, 1, 1, 5))];
    var d := Call(Deposit, InputMessage(2, Deposit, 1, 2, 5));
    var c := Call(Chargeback, InputMessage(3, Chargeback, 1, 1, 0));
    DisputedDepositReachable(l[1].message);
    TwoOnTheirOwn(d, c);
    StepLocks(l, d);
    StepLocks(l, c);
    OutcomesOfTwo(l, d, c);
    OutcomesOfTwo(l, c, d);
    Disagree(l, [d, c], [c, d], 1);
  }
}
