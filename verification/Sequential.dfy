/**
 Batching is invisible: what the service does to accounts and callbacks is what a plain left fold
 over the transactions would do.
 */
module Sequential {
  import opened Domain
  import opened Ordering
  import opened Batching
  import opened Engine
  import opened Service

  /** All windows of a stream, the unfinished one included. */
  function AllWindows(batchSize: nat, inbox: seq<ServiceMessage>): seq<seq<Pending>> {
    var s := Windows(batchSize, inbox);
    s.closed + [s.open]
  }

  /** Transactions that arrive in order are applied in order, for every batch size and every completion. */
  lemma InOrderApplication(batchSize: nat, inbox: seq<ServiceMessage>, applied: seq<Pending>)
    requires InOrder(Received(inbox))
    requires DrainsAll(AllWindows(batchSize, inbox), applied)
    ensures applied == Received(inbox)
  {
    var s := Windows(batchSize, inbox);
    WindowsPartition(batchSize, inbox);
    FlattenSnoc(s.closed, s.open);
    InOrderDrainsAll(AllWindows(batchSize, inbox), applied);
  }

  /** If a failed send interrupts the work, a prefix of the transactions has been applied. */
  lemma InOrderInterruption(batchSize: nat, inbox: seq<ServiceMessage>, applied: seq<Pending>)
    requires InOrder(Received(inbox))
    requires var ws := Windows(batchSize, inbox).closed;
             || DrainsAll(ws, applied) || DrainsPrefix(ws, applied)
             || DrainsAll(AllWindows(batchSize, inbox), applied) || DrainsPrefix(AllWindows(batchSize, inbox), applied)
    ensures applied <= Received(inbox)
  {
    var s := Windows(batchSize, inbox);
    var all := AllWindows(batchSize, inbox);
    WindowsPartition(batchSize, inbox);
    FlattenSnoc(s.closed, s.open);
    InOrderSplit(Flatten(s.closed), s.open);
    if DrainsAll(s.closed, applied) {
      InOrderDrainsAll(s.closed, applied);
    } else if DrainsPrefix(s.closed, applied) {
      InOrderDrainsPrefix(s.closed, applied);
    } else if DrainsAll(all, applied) {
      InOrderDrainsAll(all, applied);
    } else {
      InOrderDrainsPrefix(all, applied);
    }
  }

  /** The order of arrival within a window has no influence on accounts and deliveries. */
  lemma ArrivalWithinWindows(books: Books, batchSize: nat, inbox: seq<ServiceMessage>, other: seq<ServiceMessage>,
                             applied: seq<Pending>, otherApplied: seq<Pending>)
    requires DistinctKeys(Received(inbox))
    requires SameWindows(AllWindows(batchSize, inbox), AllWindows(batchSize, other))
    requires DrainsAll(AllWindows(batchSize, inbox), applied)
    requires DrainsAll(AllWindows(batchSize, other), otherApplied)
    ensures Fold(books, Messages(applied)) == Fold(books, Messages(otherApplied))
    ensures Deliveries(books, applied) == Deliveries(books, otherApplied)
  {
    var s := Windows(batchSize, inbox);
    WindowsPartition(batchSize, inbox);
    FlattenSnoc(s.closed, s.open);
    WindowOrderIrrelevant(AllWindows(batchSize, inbox), AllWindows(batchSize, other), applied, otherApplied);
  }

  /**
   A stream whose transactions arrive shuffled is applied in the order of its sequence numbers if
   and only if none of them arrives after its window has been flushed past it.
   */
  lemma ShuffledApplication(batchSize: nat, inbox: seq<ServiceMessage>, applied: seq<Pending>, stream: seq<Pending>)
    requires InOrder(stream) && multiset(stream) == multiset(Received(inbox))
    requires DrainsAll(AllWindows(batchSize, inbox), applied)
    ensures applied == stream <==> WindowsOrdered(AllWindows(batchSize, inbox))
  {
    var s := Windows(batchSize, inbox);
    WindowsPartition(batchSize, inbox);
    FlattenSnoc(s.closed, s.open);
    ShuffledArrival(AllWindows(batchSize, inbox), applied, stream);
  }

  lemma DeliveriesPrefix(books: Books, ps: seq<Pending>, qs: seq<Pending>)
    requires ps <= qs
    ensures Deliveries(books, ps) <= Deliveries(books, qs)
  {
    var rest := qs[|ps|..];
    assert qs == ps + rest;
    assert Messages(qs) == Messages(ps) + Messages(rest);
    RepliesConcat(books, Messages(ps), Messages(rest));
  }

  /**
   A run of the service on a stream that arrives in order. It succeeds exactly if each message taken
   finds the receiver of its outcome or acknowledgement. Then accounts and deliveries are those of
   the fold over all transactions taken. Otherwise the first receiver gone ended the run: the
   accounts are those of the fold over a prefix, all of whose outcomes but at most the last were delivered.
   */
  method Serve(service: Service, inbox: seq<ServiceMessage>, receivers: Receivers, cancelAt: Option<nat>)
    returns (ok: bool, ghost received: seq<ServiceMessage>)
    requires service.Valid() && InOrder(Received(inbox))
    modifies service, service.repr
    ensures ok <==> AllOpen(receivers, |Taken(inbox, cancelAt)|)
    ensures received <= Taken(inbox, cancelAt) && service.sends <= |received|
    ensures ok ==>
              && received == Taken(inbox, cancelAt) && service.sends == |received|
              && service.Holds(Fold(old(service.Books()), Messages(Received(received))))
              && service.sent == Deliveries(old(service.Books()), Received(received))
    ensures !ok ==>
              && StoppedAt(receivers, service.sends)
              && service.Holds(Fold(old(service.Books()), Messages(service.applied)))
              && service.applied <= Received(received)
              && service.sent <= Deliveries(old(service.Books()), Received(received))
              && |service.sent| <= |service.applied| <= |service.sent| + 1
  {
    ok, received := service.ServerForever(inbox, receivers, cancelAt);
    ReceivedPrefix(received, inbox);
    if ok {
      InOrderApplication(service.batchSize, received, service.applied);
    } else {
      InOrderInterruption(service.batchSize, received, service.applied);
      DeliveriesPrefix(service.opening, service.applied, Received(received));
    }
  }

  lemma {:induction false} ReceivedPrefix(received: seq<ServiceMessage>, inbox: seq<ServiceMessage>)
    requires received <= inbox && InOrder(Received(inbox))
    ensures InOrder(Received(received))
    decreases |inbox|
  {
    if |received| < |inbox| {
      var m := inbox[|inbox| - 1];
      InOrderSplit(Received(inbox[..|inbox| - 1]), if m.Incoming? then [m.pending] else []);
      ReceivedPrefix(received, inbox[..|inbox| - 1]);
    } else {
      assert received == inbox;
    }
  }
}
