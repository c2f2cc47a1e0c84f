/**
 Accounts see only the order within their own client, and often only that within a transaction. A
 shuffled arrival may therefore disturb the order without any account or any client noticing.
 */
module ClientOrder {
  import opened Domain
  import opened Ledger
  import opened Engine
  import opened Ordering
  import opened Batching
  import opened Service
  import opened Sequential
  import opened Confluence

  // A part of the transactions

  /** The transactions that satisfy `f`, in order. */
  function Select(ps: seq<Pending>, f: Pending -> bool): seq<Pending> {
    if ps == [] then []
    else (if f(ps[0]) then [ps[0]] else []) + Select(ps[1..], f)
  }

  function SelectWindows(ws: seq<seq<Pending>>, f: Pending -> bool): seq<seq<Pending>> {
    seq(|ws|, i requires 0 <= i < |ws| => Select(ws[i], f))
  }

  /** Among the transactions that satisfy `f`, none is in a later window than a younger one. */
  ghost predicate OrderedOn(ws: seq<seq<Pending>>, f: Pending -> bool) {
    forall i, j, p, q | 0 <= i < j < |ws| && p in ws[i] && q in ws[j] && f(p) && f(q) :: NotAfter(p, q)
  }

  lemma {:induction false} SelectConcat(ps: seq<Pending>, qs: seq<Pending>, f: Pending -> bool)
    ensures Select(ps + qs, f) == Select(ps, f) + Select(qs, f)
    decreases |ps|
  {
    if ps == [] {
      assert ps + qs == qs;
    } else {
      var head := if f(ps[0]) then [ps[0]] else [];
      assert (ps + qs)[1..] == ps[1..] + qs;
      SelectConcat(ps[1..], qs, f);
      assert head + (Select(ps[1..], f) + Select(qs, f)) == head + Select(ps[1..], f) + Select(qs, f);
    }
  }

  lemma {:induction false} SelectCount(ps: seq<Pending>, f: Pending -> bool, p: Pending)
    ensures multiset(Select(ps, f))[p] == if f(p) then multiset(ps)[p] else 0
    decreases |ps|
  {
    if ps == [] {
    } else {
      SelectCount(ps[1..], f, p);
      assert ps == [ps[0]] + ps[1..];
    }
  }

  lemma SelectMember(ps: seq<Pending>, f: Pending -> bool, p: Pending)
    ensures p in Select(ps, f) <==> p in ps && f(p)
  {
    SelectCount(ps, f, p);
    assert p in Select(ps, f) <==> p in multiset(Select(ps, f));
    assert p in ps <==> p in multiset(ps);
  }

  lemma SelectPermutes(ps: seq<Pending>, qs: seq<Pending>, f: Pending -> bool)
    requires multiset(ps) == multiset(qs)
    ensures multiset(Select(ps, f)) == multiset(Select(qs, f))
  {
    forall p ensures multiset(Select(ps, f))[p] == multiset(Select(qs, f))[p] {
      SelectCount(ps, f, p);
      SelectCount(qs, f, p);
    }
  }

  lemma {:induction false} SelectSorted(ps: seq<Pending>, f: Pending -> bool)
    requires Sorted(ps)
    ensures Sorted(Select(ps, f))
    decreases |ps|
  {
    if ps == [] {
    } else {
      var head, tail := [ps[0]], ps[1..];
      assert ps == head + tail;
      SortedConcat(head, tail);
      SelectSorted(tail, f);
      forall p, q | p in head && q in Select(tail, f) ensures NotAfter(p, q) {
        SelectMember(tail, f, q);
      }
      SortedConcat(head, Select(tail, f));
      assert [] + Select(tail, f) == Select(tail, f);
    }
  }

  lemma {:induction false} SelectInOrder(ps: seq<Pending>, f: Pending -> bool)
    requires InOrder(ps)
    ensures InOrder(Select(ps, f))
    decreases |ps|
  {
    if ps == [] {
    } else {
      var tail := ps[1..];
      assert ps == [ps[0]] + tail;
      InOrderSplit([ps[0]], tail);
      SelectInOrder(tail, f);
      forall i | 0 <= i < |Select(tail, f)| ensures ps[0].message.chronoOrder < Select(tail, f)[i].message.chronoOrder {
        SelectMember(tail, f, Select(tail, f)[i]);
        var j :| 0 <= j < |tail| && tail[j] == Select(tail, f)[i];
        assert ps[j + 1] == tail[j];
      }
    }
  }

  lemma SelectDrained(w: seq<Pending>, d: seq<Pending>, f: Pending -> bool)
    requires Drains(w, d) && |d| == |w|
    ensures Drains(Select(w, f), Select(d, f)) && |Select(d, f)| == |Select(w, f)|
  {
    FullDrain(w, d);
    SelectPermutes(w, d, f);
    SelectSorted(d, f);
    assert |Select(d, f)| == |multiset(Select(d, f))| == |Select(w, f)|;
  }

  lemma {:induction false} SelectDrainsAll(ws: seq<seq<Pending>>, applied: seq<Pending>, f: Pending -> bool)
    requires DrainsAll(ws, applied)
    ensures DrainsAll(SelectWindows(ws, f), Select(applied, f))
    decreases |ws|
  {
    if ws == [] {
    } else {
      var k, n := |ws| - 1, |applied| - |ws[|ws| - 1]|;
      var a, d := applied[..n], applied[n..];
      assert applied == a + d;
      SelectConcat(a, d, f);
      assert SelectWindows(ws, f) == SelectWindows(ws[..k], f) + [Select(ws[k], f)];
      SelectDrained(ws[k], d, f);
      SelectDrainsAll(ws[..k], a, f);
      DrainsAllSnoc(SelectWindows(ws[..k], f), Select(a, f), Select(ws[k], f), Select(d, f));
    }
  }

  lemma SelectOrdered(ws: seq<seq<Pending>>, f: Pending -> bool)
    ensures WindowsOrdered(SelectWindows(ws, f)) <==> OrderedOn(ws, f)
  {
    var vs := SelectWindows(ws, f);
    if OrderedOn(ws, f) {
      forall i, j, p, q | 0 <= i < j < |vs| && p in vs[i] && q in vs[j] ensures NotAfter(p, q) {
        SelectMember(ws[i], f, p);
        SelectMember(ws[j], f, q);
      }
    }
    if WindowsOrdered(vs) {
      forall i, j, p, q | 0 <= i < j < |ws| && p in ws[i] && q in ws[j]
                          && f(p) && f(q)
        ensures NotAfter(p, q)
      {
        SelectMember(ws[i], f, p);
        SelectMember(ws[j], f, q);
        assert p in vs[i] && q in vs[j];
      }
    }
  }

  /** The transactions that satisfy `f` are applied in the order of the stream if and only if their windows are ordered. */
  lemma OrderKept(ws: seq<seq<Pending>>, applied: seq<Pending>, stream: seq<Pending>, f: Pending -> bool)
    requires InOrder(stream) && multiset(stream) == multiset(Flatten(ws))
    requires DrainsAll(ws, applied)
    ensures Select(applied, f) == Select(stream, f) <==> OrderedOn(ws, f)
  {
    DrainsAllPermutes(ws, applied);
    SelectDrainsAll(ws, applied, f);
    DrainsAllPermutes(SelectWindows(ws, f), Select(applied, f));
    SelectPermutes(stream, applied, f);
    SelectInOrder(stream, f);
    ShuffledArrival(SelectWindows(ws, f), Select(applied, f), Select(stream, f));
    SelectOrdered(ws, f);
  }

  // Client by client

  function ByClient(c: ClientId): Pending -> bool {
    (p: Pending) => p.message.clientId == c
  }

  function Of(ps: seq<Pending>, c: ClientId): seq<Pending> {
    Select(ps, ByClient(c))
  }

  /** The same transactions in the same order, client by client. */
  ghost predicate SameOrders(ps: seq<Pending>, qs: seq<Pending>) {
    forall c: ClientId :: Of(ps, c) == Of(qs, c)
  }

  /** No client's transaction is in a later window than a younger one of the same client. */
  ghost predicate AllClientWindowsOrdered(ws: seq<seq<Pending>>) {
    forall c: ClientId :: OrderedOn(ws, ByClient(c))
  }

  lemma ClientOrdersKept(ws: seq<seq<Pending>>, applied: seq<Pending>, stream: seq<Pending>)
    requires InOrder(stream) && multiset(stream) == multiset(Flatten(ws))
    requires DrainsAll(ws, applied)
    ensures SameOrders(applied, stream) <==> AllClientWindowsOrdered(ws)
  {
    forall c: ClientId ensures Of(applied, c) == Of(stream, c) <==> OrderedOn(ws, ByClient(c)) {
      OrderKept(ws, applied, stream, ByClient(c));
    }
  }

  // What the accounts and the clients see

  function Calls(ps: seq<Pending>): seq<Call> {
    seq(|ps|, i requires 0 <= i < |ps| => Dispatched(ps[i].message))
  }

  lemma {:induction false} CallsOfMessages(ps: seq<Pending>, c: ClientId)
    ensures CallsOf(Messages(ps), c) == Calls(Of(ps, c))
    decreases |ps|
  {
    if ps == [] {
    } else {
      assert Messages(ps)[1..] == Messages(ps[1..]);
      CallsOfMessages(ps[1..], c);
    }
  }

  /** The two orders of application bring about the same accounts and tell each client the same. */
  ghost predicate SameForClients(books: Books, ps: seq<Pending>, qs: seq<Pending>) {
    && Fold(books, Messages(ps)) == Fold(books, Messages(qs))
    && forall c: ClientId ::
         OutcomesOf(Replies(books, Messages(ps)), c) == OutcomesOf(Replies(books, Messages(qs)), c)
  }

  /** Accounts are the same if each client's calls bring them to the same ledger. */
  lemma SameAccounts(books: Books, ps: seq<Pending>, qs: seq<Pending>)
    requires multiset(ps) == multiset(qs)
    requires forall c: ClientId ::
               After(LedgerOf(books, c), Calls(Of(ps, c))) == After(LedgerOf(books, c), Calls(Of(qs, c)))
    ensures Fold(books, Messages(ps)) == Fold(books, Messages(qs))
  {
    var a, b := Fold(books, Messages(ps)), Fold(books, Messages(qs));
    forall c: ClientId ensures LedgerOf(a, c) == LedgerOf(b, c) && (c in a <==> c in b) {
      assert After(LedgerOf(books, c), Calls(Of(ps, c))) == After(LedgerOf(books, c), Calls(Of(qs, c)));
      CallsOfMessages(ps, c);
      CallsOfMessages(qs, c);
      ClientProjection(books, Messages(ps), c);
      ClientProjection(books, Messages(qs), c);
      Mentioned(ps, c);
      Mentioned(qs, c);
      SelectPermutes(ps, qs, ByClient(c));
      assert Of(ps, c) == [] <==> |multiset(Of(ps, c))| == 0;
      assert Of(qs, c) == [] <==> |multiset(Of(qs, c))| == 0;
    }
    assert forall c | c in a :: a[c] == LedgerOf(a, c);
    assert forall c | c in b :: b[c] == LedgerOf(b, c);
    assert a == b;
  }

  lemma SameOrderPerClient(books: Books, ps: seq<Pending>, qs: seq<Pending>)
    requires multiset(ps) == multiset(qs) && SameOrders(ps, qs)
    ensures SameForClients(books, ps, qs)
  {
    forall c: ClientId
      ensures Of(ps, c) == Of(qs, c)
      ensures OutcomesOf(Replies(books, Messages(ps)), c) == OutcomesOf(Replies(books, Messages(qs)), c)
    {
      assert Of(ps, c) == Of(qs, c);
      CallsOfMessages(ps, c);
      CallsOfMessages(qs, c);
      ClientProjection(books, Messages(ps), c);
      ClientProjection(books, Messages(qs), c);
    }
    SameAccounts(books, ps, qs);
  }

  lemma Mentioned(ps: seq<Pending>, c: ClientId)
    ensures (exists m :: m in Messages(ps) && m.clientId == c) <==> Of(ps, c) != []
  {
    if m :| m in Messages(ps) && m.clientId == c {
      var i :| 0 <= i < |ps| && Messages(ps)[i] == m;
      SelectMember(ps, ByClient(c), ps[i]);
    }
    if Of(ps, c) != [] {
      var p := Of(ps, c)[0];
      SelectMember(ps, ByClient(c), p);
      var i :| 0 <= i < |ps| && ps[i] == p;
      assert Messages(ps)[i] == p.message;
    }
  }

  /**
   A shuffled arrival of an in-order stream is applied in the stream's order, client by client, if
   and only if no client's transaction comes after a younger one of that client was flushed. Then
   the accounts and what each client is told are those of the stream in order.
   */
  lemma ShuffledClients(books: Books, batchSize: nat, inbox: seq<ServiceMessage>,
                        applied: seq<Pending>, stream: seq<Pending>)
    requires InOrder(stream) && multiset(stream) == multiset(Received(inbox))
    requires DrainsAll(AllWindows(batchSize, inbox), applied)
    ensures SameOrders(applied, stream) <==> AllClientWindowsOrdered(AllWindows(batchSize, inbox))
    ensures AllClientWindowsOrdered(AllWindows(batchSize, inbox)) ==> SameForClients(books, applied, stream)
  {
    var s := Windows(batchSize, inbox);
    WindowsPartition(batchSize, inbox);
    FlattenSnoc(s.closed, s.open);
    ClientOrdersKept(AllWindows(batchSize, inbox), applied, stream);
    DrainsAllPermutes(AllWindows(batchSize, inbox), applied);
    if SameOrders(applied, stream) {
      SameOrderPerClient(books, applied, stream);
    }
  }

  // Transaction by transaction

  function ByTransaction(c: ClientId, t: TransactionId): Pending -> bool {
    (p: Pending) => p.message.clientId == c && p.message.transactionId == t
  }

  /** No message of client `c` is in a later window than a younger one on the same transaction. */
  ghost predicate TransactionWindowsOrdered(ws: seq<seq<Pending>>, c: ClientId) {
    forall t: TransactionId :: OrderedOn(ws, ByTransaction(c, t))
  }

  lemma {:induction false} CallsOnSelected(ps: seq<Pending>, c: ClientId, t: TransactionId)
    ensures CallsOn(Calls(Of(ps, c)), t) == Calls(Select(ps, ByTransaction(c, t)))
    decreases |ps|
  {
    if ps == [] {
    } else {
      CallsOnSelected(ps[1..], c, t);
      if ByClient(c)(ps[0]) {
        assert Calls(Of(ps, c))[1..] == Calls(Of(ps[1..], c));
      } else {
        assert Of(ps, c) == Of(ps[1..], c);
      }
      if ByTransaction(c, t)(ps[0]) {
        assert Calls(Select(ps, ByTransaction(c, t))) ==
               [Dispatched(ps[0].message)] + Calls(Select(ps[1..], ByTransaction(c, t)));
      } else {
        assert Select(ps, ByTransaction(c, t)) == Select(ps[1..], ByTransaction(c, t));
      }
    }
  }

  lemma TransactionOrdersKept(ws: seq<seq<Pending>>, applied: seq<Pending>, stream: seq<Pending>, c: ClientId)
    requires InOrder(stream) && multiset(stream) == multiset(Flatten(ws))
    requires DrainsAll(ws, applied) && TransactionWindowsOrdered(ws, c)
    ensures forall t: TransactionId :: CallsOn(Calls(Of(stream, c)), t) == CallsOn(Calls(Of(applied, c)), t)
  {
    forall t: TransactionId ensures CallsOn(Calls(Of(stream, c)), t) == CallsOn(Calls(Of(applied, c)), t) {
      assert OrderedOn(ws, ByTransaction(c, t));
      OrderKept(ws, applied, stream, ByTransaction(c, t));
      CallsOnSelected(stream, c, t);
      CallsOnSelected(applied, c, t);
    }
  }

  predicate WithoutFundsOrLock(cs: seq<Call>) {
    forall c | c in cs :: c.op != Withdrawal && c.op != Chargeback
  }

  /**
   One client of a shuffled stream whose messages on each transaction stay in order. Its account and
   the outcome of each message are those of the stream in order if and only if the account refuses the
   same messages for the lock or for funds. If the stream is covered, that is if and only if the
   order of application is covered; and without withdrawals and chargebacks it is always so.
   */
  lemma ShuffledTransactions(l: Ledger, ws: seq<seq<Pending>>, applied: seq<Pending>, stream: seq<Pending>, c: ClientId)
    requires InOrder(stream) && multiset(stream) == multiset(Flatten(ws))
    requires DrainsAll(ws, applied) && TransactionWindowsOrdered(ws, c)
    ensures var cs, ds := Calls(Of(stream, c)), Calls(Of(applied, c));
            && (Agree(l, cs, ds) <==> SameRefusals(l, cs, ds))
            && (Covered(l, cs) ==> (Agree(l, cs, ds) <==> Covered(l, ds)))
            && (WithoutFundsOrLock(cs) ==> Agree(l, cs, ds))
            && (Agree(l, cs, ds) ==> After(l, cs) == After(l, ds))
  {
    var cs, ds := Calls(Of(stream, c)), Calls(Of(applied, c));
    TransactionOrdersKept(ws, applied, stream, c);
    assert SameCallsPerTransaction(cs, ds);
    AgreeIffSameRefusals(l, cs, ds);
    if Covered(l, cs) {
      InterleavingsAgree(l, cs, ds);
    }
    if WithoutFundsOrLock(cs) {
      DrainsAllPermutes(ws, applied);
      SelectPermutes(stream, applied, ByClient(c));
      CallsPermute(Of(stream, c), Of(applied, c));
      DepositsDisputesResolvesConfluent(l, cs, ds);
    }
    if Agree(l, cs, ds) {
      AgreeExactly(l, cs, ds);
    }
  }

  lemma CallsPermute(ps: seq<Pending>, qs: seq<Pending>)
    requires multiset(ps) == multiset(qs) && WithoutFundsOrLock(Calls(ps))
    ensures forall c | c in Calls(ps) + Calls(qs) :: c.op != Withdrawal && c.op != Chargeback
  {
    forall i | 0 <= i < |qs| ensures Calls(qs)[i] in Calls(ps) {
      assert qs[i] in multiset(ps);
      var j :| 0 <= j < |ps| && ps[j] == qs[i];
      assert Calls(ps)[j] == Calls(qs)[i];
    }
  }

  /** Client `c` cannot tell the two orders of application apart, up to the order of its own messages. */
  ghost predicate AgreeFor(books: Books, ps: seq<Pending>, qs: seq<Pending>, c: ClientId) {
    Agree(LedgerOf(books, c), Calls(Of(ps, c)), Calls(Of(qs, c)))
  }

  /** The funds of client `c` cover the stream, and no chargeback cuts it short. */
  ghost predicate CoveredFor(books: Books, ps: seq<Pending>, c: ClientId) {
    Covered(LedgerOf(books, c), Calls(Of(ps, c)))
  }

  /**
   A covered stream whose messages arrive shuffled, but in order within each transaction: every
   message has its outcome, and every client its account, if and only if for every client the order
   of application is covered. All accounts are then those of the stream in order.
   */
  lemma ShuffledAccounts(books: Books, batchSize: nat, inbox: seq<ServiceMessage>,
                         applied: seq<Pending>, stream: seq<Pending>)
    requires InOrder(stream) && multiset(stream) == multiset(Received(inbox))
    requires DrainsAll(AllWindows(batchSize, inbox), applied)
    requires forall c: ClientId ::
               TransactionWindowsOrdered(AllWindows(batchSize, inbox), c) && CoveredFor(books, stream, c)
    ensures (forall c: ClientId :: AgreeFor(books, stream, applied, c)) <==>
            forall c: ClientId :: CoveredFor(books, applied, c)
    ensures (forall c: ClientId :: AgreeFor(books, stream, applied, c)) ==>
              Fold(books, Messages(stream)) == Fold(books, Messages(applied))
  {
    var s, ws := Windows(batchSize, inbox), AllWindows(batchSize, inbox);
    WindowsPartition(batchSize, inbox);
    FlattenSnoc(s.closed, s.open);
    DrainsAllPermutes(ws, applied);
    forall c: ClientId
      ensures AgreeFor(books, stream, applied, c) <==> CoveredFor(books, applied, c)
      ensures AgreeFor(books, stream, applied, c) ==>
                After(LedgerOf(books, c), Calls(Of(stream, c))) == After(LedgerOf(books, c), Calls(Of(applied, c)))
    {
      assert TransactionWindowsOrdered(ws, c) && CoveredFor(books, stream, c);
      ShuffledTransactions(LedgerOf(books, c), ws, applied, stream, c);
    }
    if forall c: ClientId :: AgreeFor(books, stream, applied, c) {
      SameAccounts(books, stream, applied);
    }
  }

  // Where the order shows

  lemma ClientPair(p: Pending, q: Pending)
    requires p.message.clientId == q.message.clientId
    ensures CallsOf(Messages([p, q]), p.message.clientId) == [Dispatched(p.message), Dispatched(q.message)]
  {
    var c := p.message.clientId;
    assert Messages([p, q])[1..] == [q.message];
    assert CallsOf([q.message], c) == [Dispatched(q.message)];
  }

  /** Without buffering, a withdrawal that arrives before its deposit is refused, though it is the younger. */
  lemma LateArrival()
    ensures var d := Pending(InputMessage(0, Deposit, 1, 1, 5), 0);
            var w := Pending(InputMessage(1, Withdrawal, 1, 2, 5), 1);
            && InOrder([d, w])
            && DrainsAll(AllWindows(1, [Incoming(w), Incoming(d)]), [w, d])
            && OutcomesOf(Replies(map[], Messages([d, w])), 1) == [Accepted, Accepted]
            && OutcomesOf(Replies(map[], Messages([w, d])), 1) == [Rejected(InsufficientBalance), Accepted]
  {
    var d := Pending(InputMessage(0, Deposit, 1, 1, 5), 0);
    var w := Pending(InputMessage(1, Withdrawal, 1, 2, 5), 1);
    UnbufferedPair(w, d);
    WithdrawalsDoNotCommute();
    ClientProjection(map[], Messages([d, w]), 1);
    ClientProjection(map[], Messages([w, d]), 1);
    ClientPair(d, w);
    ClientPair(w, d);
  }

  /** Without buffering, a dispute that arrives before the deposit it is about is lost, though both are covered. */
  lemma LateDispute()
    ensures var d := Pending(InputMessage(0, Deposit, 1, 1, 5), 0);
            var x := Pending(InputMessage(1, Dispute, 1, 1, 0), 1);
            && InOrder([d, x])
            && DrainsAll(AllWindows(1, [Incoming(x), Incoming(d)]), [x, d])
            && OutcomesOf(Replies(map[], Messages([d, x])), 1) == [Accepted, Accepted]
            && OutcomesOf(Replies(map[], Messages([x, d])), 1) == [Rejected(InvalidTransaction), Accepted]
  {
    var d := Pending(InputMessage(0, Deposit, 1, 1, 5), 0);
    var x := Pending(InputMessage(1, Dispute, 1, 1, 0), 1);
    UnbufferedPair(x, d);
    ClientProjection(map[], Messages([d, x]), 1);
    ClientProjection(map[], Messages([x, d]), 1);
    ClientPair(d, x);
    ClientPair(x, d);
    OutcomesOfTwo(map[], Dispatched(d.message), Dispatched(x.message));
    OutcomesOfTwo(map[], Dispatched(x.message), Dispatched(d.message));
    var one := Record(map[], true, d.message);
    assert Step(map[], Dispatched(d.message)) == StepResult(one, Accepted);
  }

  /** With a batch size of zero or one, transactions are applied as they arrive. */
  lemma {:induction false} Unbuffered(batchSize: nat, inbox: seq<ServiceMessage>)
    requires batchSize <= 1
    ensures Windows(batchSize, inbox).open == []
    ensures DrainsAll(Windows(batchSize, inbox).closed, Received(inbox))
    decreases |inbox|
  {
    if inbox == [] {
    } else {
      var before, m := inbox[..|inbox| - 1], inbox[|inbox| - 1];
      Unbuffered(batchSize, before);
      var s, w := Windows(batchSize, before), if m.Incoming? then [m.pending] else [];
      assert s.open + w == w;
      assert Advance(batchSize, s, m) == Split(s.closed + [w], []);
      assert Received(inbox) == Received(before) + w;
      DrainsItself(w);
      DrainsAllSnoc(s.closed, Received(before), w, w);
    }
  }

  lemma DrainsItself(w: seq<Pending>)
    requires |w| <= 1
    ensures Drains(w, w)
  {
    assert multiset(w) - multiset(w) == multiset{};
  }

  lemma UnbufferedPair(p: Pending, q: Pending)
    ensures DrainsAll(AllWindows(1, [Incoming(p), Incoming(q)]), [p, q])
  {
    var inbox := [Incoming(p), Incoming(q)];
    Unbuffered(1, inbox);
    assert inbox[..1] == [Incoming(p)] && inbox[..1][..0] == [];
    assert Received(inbox[..1]) == Received([]) + [p];
    assert Received(inbox) == Received(inbox[..1]) + [q] == [p, q];
    DrainsItself([]);
    DrainsAllSnoc(Windows(1, inbox).closed, Received(inbox), [], []);
    assert [p, q] + [] == [p, q];
  }
}
