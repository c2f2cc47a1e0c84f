/**
 A dispute followed by its resolve leaves no trace, except to later lifecycle calls on the
 same transaction.
 */
module Resolution {
  import opened Domain
  import opened Ledger
  import opened LedgerLaws

  /** `k` is `l` with its normal transaction `t` resolved instead. */
  ghost predicate ResolvedTwin(l: Ledger, k: Ledger, t: TransactionId) {
    t in l && l[t].state == Normal && k == Move(l, t, Resolved)
  }

  /** Some lifecycle call on `t` is made while the account is still unlocked. */
  ghost predicate Touches(l: Ledger, cs: seq<Call>, t: TransactionId) {
    exists i :: 0 <= i < |cs| && IsLifecycle(cs[i].op) && cs[i].message.transactionId == t
                && !Locked(After(l, cs[..i]))
  }

  lemma TwinBalances(l: Ledger, k: Ledger, t: TransactionId)
    requires ResolvedTwin(l, k, t)
    ensures Total(k) == Total(l) && Held(k) == Held(l) && Available(k) == Available(l)
    ensures Locked(k) <==> Locked(l)
  {
    BalancesAfterUpdate(l, t, k[t]);
    if Locked(l) {
      var u :| u in l && l[u].state == ChargedBack;
      assert u in k && k[u].state == ChargedBack;
    }
  }

  lemma TwinStep(l: Ledger, k: Ledger, t: TransactionId, c: Call)
    requires ResolvedTwin(l, k, t)
    requires Locked(l) || !IsLifecycle(c.op) || c.message.transactionId != t
    ensures Step(l, c).outcome == Step(k, c).outcome
    ensures ResolvedTwin(Step(l, c).ledger, Step(k, c).ledger, t)
  {
    TwinBalances(l, k, t);
    var u := c.message.transactionId;
    if Step(l, c).outcome == Accepted {
      var e := Step(l, c).ledger[u];
      assert u != t;
      assert l[u := e][t := k[t]] == k[u := e];
    }
  }

  lemma TouchesTail(l: Ledger, cs: seq<Call>, t: TransactionId)
    requires cs != []
    requires Locked(l) || !IsLifecycle(cs[0].op) || cs[0].message.transactionId != t
    ensures Touches(l, cs, t) <==> Touches(Step(l, cs[0]).ledger, cs[1..], t)
  {
    var k, ds := Step(l, cs[0]).ledger, cs[1..];
    forall i | 0 < i <= |cs| ensures After(l, cs[..i]) == After(k, ds[..i - 1]) {
      assert cs[..i][1..] == ds[..i - 1];
    }
    if Touches(k, ds, t) {
      var j :| 0 <= j < |ds| && IsLifecycle(ds[j].op) && ds[j].message.transactionId == t
               && !Locked(After(k, ds[..j]));
      assert cs[j + 1] == ds[j];
    }
    assert After(l, cs[..0]) == l;
    if Touches(l, cs, t) {
      var i :| 0 <= i < |cs| && IsLifecycle(cs[i].op) && cs[i].message.transactionId == t
               && !Locked(After(l, cs[..i]));
      if i != 0 {
        assert cs[i] == ds[i - 1];
      }
    }
  }

  /** The twins are told apart by a continuation if and only if it touches `t`. */
  lemma {:induction false} TwinsIndistinguishable(l: Ledger, k: Ledger, t: TransactionId, cs: seq<Call>)
    requires ResolvedTwin(l, k, t)
    ensures Outcomes(l, cs) == Outcomes(k, cs) <==> !Touches(l, cs, t)
    ensures !Touches(l, cs, t) ==> ResolvedTwin(After(l, cs), After(k, cs), t)
    decreases |cs|
  {
    if cs == [] {
    } else {
      var c := cs[0];
      if !Locked(l) && IsLifecycle(c.op) && c.message.transactionId == t {
        assert After(l, cs[..0]) == l;
        assert Touches(l, cs, t);
        TwinBalances(l, k, t);
        assert Outcomes(l, cs)[0] != Outcomes(k, cs)[0];
      } else {
        TwinStep(l, k, t, c);
        TouchesTail(l, cs, t);
        var l', k' := Step(l, c).ledger, Step(k, c).ledger;
        TwinsIndistinguishable(l', k', t, cs[1..]);
        assert Outcomes(l, cs)[1..] == Outcomes(l', cs[1..]);
        assert Outcomes(k, cs)[1..] == Outcomes(k', cs[1..]);
      }
    }
  }

  /**
   Disputing and at once resolving `t` is accepted on an unlocked account, and the calls that
   follow see the same outcomes as without it exactly when none touches `t`; then the balances
   and the lock agree after every one of them.
   */
  lemma DisputeResolveInvisible(l: Ledger, d: InputMessage, r: InputMessage, cs: seq<Call>)
    requires !Locked(l) && d.transactionId == r.transactionId
    requires d.transactionId in l && l[d.transactionId].state == Normal
    ensures var t, pair := d.transactionId, [Call(Dispute, d), Call(Resolve, r)];
            && Outcomes(l, pair) == [Accepted, Accepted]
            && (Outcomes(l, pair + cs) == [Accepted, Accepted] + Outcomes(l, cs) <==> !Touches(l, cs, t))
            && forall i | 0 <= i <= |cs| && !Touches(l, cs, t) ::
                 var a, b := After(l, cs[..i]), After(l, pair + cs[..i]);
                 && Total(a) == Total(b) && Held(a) == Held(b) && Available(a) == Available(b)
                 && (Locked(a) <==> Locked(b))
  {
    var t, pair := d.transactionId, [Call(Dispute, d), Call(Resolve, r)];
    var k := PairResolves(l, d, r);
    RunConcat(l, pair, cs);
    TwinsIndistinguishable(l, k, t, cs);
    var os, ps := Outcomes(l, cs), Outcomes(k, cs);
    assert ([Accepted, Accepted] + os)[2..] == os && ([Accepted, Accepted] + ps)[2..] == ps;
    forall i | 0 <= i <= |cs| && !Touches(l, cs, t)
      ensures ResolvedTwin(After(l, cs[..i]), After(l, pair + cs[..i]), t)
    {
      UntouchedPrefix(l, cs, t, i);
      TwinsIndistinguishable(l, k, t, cs[..i]);
      RunConcat(l, pair, cs[..i]);
    }
    forall i | 0 <= i <= |cs| && !Touches(l, cs, t)
      ensures var a, b := After(l, cs[..i]), After(l, pair + cs[..i]);
              && Total(a) == Total(b) && Held(a) == Held(b) && Available(a) == Available(b)
              && (Locked(a) <==> Locked(b))
    {
      TwinBalances(After(l, cs[..i]), After(l, pair + cs[..i]), t);
    }
  }

  lemma UntouchedPrefix(l: Ledger, cs: seq<Call>, t: TransactionId, i: nat)
    requires i <= |cs| && !Touches(l, cs, t)
    ensures !Touches(l, cs[..i], t)
  {
    forall j | 0 <= j < i ensures cs[..i][..j] == cs[..j] && cs[..i][j] == cs[j] {}
  }

  lemma PairResolves(l: Ledger, d: InputMessage, r: InputMessage) returns (k: Ledger)
    requires !Locked(l) && d.transactionId == r.transactionId
    requires d.transactionId in l && l[d.transactionId].state == Normal
    ensures ResolvedTwin(l, k, d.transactionId)
    ensures After(l, [Call(Dispute, d), Call(Resolve, r)]) == k
    ensures Outcomes(l, [Call(Dispute, d), Call(Resolve, r)]) == [Accepted, Accepted]
  {
    var t := d.transactionId;
    var h := Move(l, t, Disputed);
    k := Move(l, t, Resolved);
    StepLocks(l, Call(Dispute, d));
    assert Step(l, Call(Dispute, d)) == StepResult(h, Accepted);
    assert Move(h, t, Resolved) == k;
    assert Step(h, Call(Resolve, r)) == StepResult(k, Accepted);
    RunSnoc(l, [Call(Dispute, d)], Call(Resolve, r));
    RunSnoc(l, [], Call(Dispute, d));
    assert [] + [Call(Dispute, d)] == [Call(Dispute, d)];
    assert [Call(Dispute, d)] + [Call(Resolve, r)] == [Call(Dispute, d), Call(Resolve, r)];
  }

  /** The trace that is left: the transaction cannot be disputed again, as it could have been before. */
  lemma ResolvedIsTerminal(l: Ledger, d: InputMessage, r: InputMessage)
    requires !Locked(l) && d.transactionId == r.transactionId
    requires d.transactionId in l && l[d.transactionId].state == Normal
    ensures Outcomes(l, [Call(Dispute, d)]) == [Accepted]
    ensures Outcomes(l, [Call(Dispute, d), Call(Resolve, r)] + [Call(Dispute, d)]) ==
            [Accepted, Accepted, Rejected(TransactionTerminalState)]
  {
    var k := PairResolves(l, d, r);
    TwinBalances(l, k, d.transactionId);
    RunSnoc(l, [], Call(Dispute, d));
    assert [] + [Call(Dispute, d)] == [Call(Dispute, d)];
    RunSnoc(l, [Call(Dispute, d), Call(Resolve, r)], Call(Dispute, d));
  }
}
