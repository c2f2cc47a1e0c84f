/**
 The service: transactions are buffered in a heap, flushed in batches to lazily created accounts,
 and every outcome is reported on the callback that came with the transaction.
 */
module Service {
  import opened Domain
  import opened Ledger
  import opened Accounts
  import opened Engine
  import opened Ordering
  import opened Batching

  // The heap

  ghost predicate Oldest(p: Pending, items: multiset<Pending>) {
    p in items && forall q | q in items :: NotAfter(p, q)
  }

  lemma OlderOfTwo(x: Pending, y: Pending, q: Pending)
    requires q == x || NotAfter(y, q)
    ensures NotAfter(if NotAfter(x, y) then x else y, q)
  {}

  lemma OldestWith(rest: multiset<Pending>, x: Pending, y: Pending)
    requires Oldest(y, rest)
    ensures Oldest(if NotAfter(x, y) then x else y, rest + multiset{x})
  {
    forall q | q in rest + multiset{x} ensures NotAfter(if NotAfter(x, y) then x else y, q) {
      assert q == x || q in rest;
      OlderOfTwo(x, y, q);
    }
  }

  lemma {:induction false} OldestExists(items: multiset<Pending>)
    requires items != multiset{}
    ensures exists p :: Oldest(p, items)
    decreases |items|
  {
    var x :| x in items;
    var rest := items - multiset{x};
    assert items == rest + multiset{x};
    if rest == multiset{} {
      assert Oldest(x, items);
    } else {
      OldestExists(rest);
      var y :| Oldest(y, rest);
      OldestWith(rest, x, y);
    }
  }

  /** The standard library's max-heap, by its contract: which of several greatest items is popped is open. */
  class BinaryHeap {
    var items: multiset<Pending>

    constructor ()
      ensures items == multiset{}
    {
      items := multiset{};
    }

    method Push(p: Pending)
      modifies this
      ensures items == old(items) + multiset{p}
    {
      items := items + multiset{p};
    }

    method Pop() returns (top: Option<Pending>)
      modifies this
      ensures old(items) == multiset{} ==> top == None && items == multiset{}
      ensures old(items) != multiset{} ==>
                && top.Some? && top.value in old(items)
                && items == old(items) - multiset{top.value}
                && forall q | q in old(items) :: NotAfter(top.value, q)
    {
      if items == multiset{} {
        return None;
      }
      OldestExists(items);
      forall p, q ensures NotAfter(p, q) <==> Compare(q.message, p.message) != Greater {
        CompareIsReversed(q.message, p.message);
      }
      var p :| p in items && forall q | q in items :: Compare(q.message, p.message) != Greater;
      items := items - multiset{p};
      return Some(p);
    }
  }

  // Deliveries

  /** One outcome sent on one callback. */
  datatype Delivery = Delivery(callback: Channel, reply: Reply)

  function Messages(ps: seq<Pending>): seq<InputMessage> {
    seq(|ps|, i requires 0 <= i < |ps| => ps[i].message)
  }

  /** What is sent, on which callbacks, when `ps` are applied one by one from `books` on. */
  ghost function Deliveries(books: Books, ps: seq<Pending>): seq<Delivery> {
    seq(|ps|, i requires 0 <= i < |ps| => Delivery(ps[i].callback, Replies(books, Messages(ps))[i]))
  }

  lemma DeliveriesSnoc(books: Books, ps: seq<Pending>, p: Pending)
    ensures Fold(books, Messages(ps + [p])) == Handle(Fold(books, Messages(ps)), p.message)
    ensures Deliveries(books, ps + [p]) ==
            Deliveries(books, ps) + [Delivery(p.callback, ReplyTo(Fold(books, Messages(ps)), p.message))]
  {
    assert Messages(ps + [p]) == Messages(ps) + [p.message];
    FoldSnoc(books, Messages(ps), p.message);
  }

  lemma MessagesPrefix(ps: seq<Pending>, i: nat)
    requires i <= |ps|
    ensures Messages(ps) == Messages(ps[..i]) + Messages(ps[i..])
  {}

  /**
   The i-th delivery goes to the callback of the i-th transaction, names its client and its
   transaction, and tells what the client's account answered where its own earlier calls had brought it.
   */
  lemma DeliveryAt(books: Books, ps: seq<Pending>, i: nat)
    requires i < |ps|
    ensures |Deliveries(books, ps)| == |ps|
    ensures var d, m := Deliveries(books, ps)[i], ps[i].message;
            var l := After(LedgerOf(books, m.clientId), CallsOf(Messages(ps[..i]), m.clientId));
            && d.callback == ps[i].callback
            && d.reply.clientId == m.clientId && d.reply.transactionId == m.transactionId
            && d.reply.outcome == Step(l, Call(m.transactionType, m)).outcome
  {
    var before, m := Messages(ps[..i]), ps[i].message;
    MessagesPrefix(ps, i);
    assert Messages(ps[i..])[0] == m;
    RepliesConcat(books, before, Messages(ps[i..]));
    ClientProjection(books, before, m.clientId);
  }

  // What happens outside the service

  /** Whether the k-th send, of an outcome or an acknowledgement, finds its receiver. */
  type Receivers = nat -> bool

  ghost predicate AllOpen(receivers: Receivers, n: nat) {
    forall k: nat | k < n :: receivers(k)
  }

  /** The last of `n` sends was the first to find its receiver gone. */
  ghost predicate StoppedAt(receivers: Receivers, n: nat) {
    n > 0 && AllOpen(receivers, n - 1) && !receivers(n - 1)
  }

  lemma StoppedOrAllOpen(receivers: Receivers, sends: nat, n: nat, ok: bool)
    requires if ok then sends == n && AllOpen(receivers, sends) else sends <= n && StoppedAt(receivers, sends)
    ensures ok <==> AllOpen(receivers, n)
  {}

  /** The messages taken from the inbox: all of them, or as many as cancellation lets through. */
  function Taken(inbox: seq<ServiceMessage>, cancelAt: Option<nat>): seq<ServiceMessage> {
    if cancelAt.Some? && cancelAt.value <= |inbox| then inbox[..cancelAt.value] else inbox
  }

  /** Everything has been taken, or there is one more message to take. */
  lemma TakenSnoc(inbox: seq<ServiceMessage>, cancelAt: Option<nat>, received: seq<ServiceMessage>, i: nat)
    requires received <= Taken(inbox, cancelAt) && i == |received|
    ensures if cancelAt == Some(i) || i == |inbox| then received == Taken(inbox, cancelAt)
            else i < |inbox| && received + [inbox[i]] <= Taken(inbox, cancelAt)
  {}

  // The service

  class Service {
    const batchSize: nat
    var accounts: map<ClientId, Account>
    // The fields below are about the current run of the event loop.
    var receivers: Receivers
    var sends: nat
    var sent: seq<Delivery>
    // The accounts at its start, and the transactions applied since, in order.
    ghost var opening: Books
    ghost var applied: seq<Pending>
    // The account objects.
    ghost var repr: set<Account>

    /** There is one sound account for each client in `books`, and it holds the client's ledger. */
    ghost predicate Holds(books: Books)
      reads this`accounts, this`repr, repr
    {
      && accounts.Keys == books.Keys
      && forall c | c in accounts ::
           accounts[c] in repr && accounts[c].clientId == c && accounts[c].Valid() && accounts[c].transactions == books[c]
    }

    ghost function Books(): Books
      reads this`opening, this`applied
    {
      Fold(opening, Messages(applied))
    }

    /** The accounts are where a fold over the applied transactions puts them. */
    ghost predicate Valid()
      reads this, repr
    {
      Holds(Books())
    }

    ghost predicate Delivered()
      reads this`sent, this`opening, this`applied
    {
      sent == Deliveries(opening, applied)
    }

    /** All outcomes but the last have been sent. */
    ghost predicate DeliveredButLast()
      reads this`sent, this`opening, this`applied
    {
      applied != [] && sent == Deliveries(opening, applied)[..|applied| - 1]
    }

    /** Every send so far found its receiver, or just the last one did not. */
    ghost predicate Answered(ok: bool)
      reads this`receivers, this`sends
    {
      if ok then AllOpen(receivers, sends) else StoppedAt(receivers, sends)
    }

    constructor (batchSize: nat)
      ensures Valid() && this.batchSize == batchSize
      ensures Books() == map[] && accounts == map[] && repr == {}
    {
      this.batchSize := batchSize;
      accounts, repr, opening, applied := map[], {}, map[], [];
      receivers, sends, sent := _ => true, 0, [];
    }

    /** Finds or creates the client's account and lets it process the message. */
    method Dispatch(msg: InputMessage, ghost books: Books) returns (res: Outcome)
      requires Holds(books)
      modifies this`accounts, this`repr, repr
      ensures Holds(Handle(books, msg))
      ensures res == ReplyTo(books, msg).outcome
      ensures fresh(repr - old(repr))
    {
      if msg.clientId !in accounts {
        var created := new Account(msg.clientId);
        accounts, repr := accounts[msg.clientId := created], repr + {created};
      }
      var entry := accounts[msg.clientId];
      var checked;
      res, checked := Process(entry, msg);
    }

    method Apply(tx: Pending) returns (res: Outcome)
      requires Valid()
      modifies this`accounts, this`repr, this`applied, repr
      ensures Valid() && applied == old(applied) + [tx]
      ensures Deliveries(opening, applied) ==
              Deliveries(opening, old(applied))
              + [Delivery(tx.callback, Reply(tx.message.clientId, tx.message.transactionId, res))]
      ensures fresh(repr - old(repr))
    {
      ghost var books := Books();
      res := Dispatch(tx.message, books);
      DeliveriesSnoc(opening, applied, tx);
      applied := applied + [tx];
    }

    /** Sends an outcome, if its receiver is still there. */
    method Send(d: Delivery) returns (ok: bool)
      requires Answered(true)
      modifies this`sent, this`sends
      ensures Answered(ok) && sends == old(sends) + 1
      ensures sent == if ok then old(sent) + [d] else old(sent)
    {
      ok := receivers(sends);
      sends := sends + 1;
      if ok {
        sent := sent + [d];
      }
    }

    /** Confirms a completed batch to its sender, if it is still there. */
    method Acknowledge() returns (ok: bool)
      requires Answered(true)
      modifies this`sends
      ensures Answered(ok) && sends == old(sends) + 1
    {
      ok := receivers(sends);
      sends := sends + 1;
    }

    /** Applies one transaction and reports its outcome. */
    method ApplyAndSend(tx: Pending) returns (ok: bool)
      requires Valid() && Delivered() && Answered(true)
      modifies this`accounts, this`repr, this`applied, this`sent, this`sends, repr
      ensures Valid() && applied == old(applied) + [tx]
      ensures if ok then Delivered() else DeliveredButLast()
      ensures Answered(ok) && sends == old(sends) + 1
      ensures fresh(repr - old(repr))
    {
      var res := Apply(tx);
      ok := Send(Delivery(tx.callback, Reply(tx.message.clientId, tx.message.transactionId, res)));
    }

    /**
     One turn of the flushing loop: pops the oldest transaction, if there is one, applies it and
     reports its outcome. `w` is the window buffered, and `d` what was taken from it before.
     */
    method FlushOldest(buffer: BinaryHeap, ghost w: seq<Pending>, ghost d: seq<Pending>)
      returns (top: Option<Pending>, ok: bool)
      requires Valid() && Delivered() && Answered(true) && DrainsLeaving(w, d, buffer.items)
      modifies this`accounts, this`repr, this`applied, this`sent, this`sends, repr, buffer
      ensures Valid() && fresh(repr - old(repr))
      ensures Answered(ok) && if ok then Delivered() else DeliveredButLast()
      ensures top == None ==>
                && ok && old(buffer.items) == buffer.items == multiset{}
                && applied == old(applied) && sends == old(sends)
      ensures top.Some? ==>
                && Oldest(top.value, old(buffer.items))
                && |buffer.items| < |old(buffer.items)|
                && applied == old(applied) + [top.value] && sends == old(sends) + 1
                && DrainsLeaving(w, d + [top.value], buffer.items)
    {
      ghost var rest := buffer.items;
      top := buffer.Pop();
      if top == None {
        return top, true;
      }
      DrainsSnoc(w, d, top.value, rest);
      ok := ApplyAndSend(top.value);
    }

    /**
     The flushing loop: oldest transaction first, until the buffer is empty or a send fails. `w` is
     the window buffered, in order of arrival, and `d` what was taken from it.
     */
    method DrainBuffer(buffer: BinaryHeap, ghost w: seq<Pending>) returns (ok: bool, ghost d: seq<Pending>)
      requires Valid() && Delivered() && Answered(true) && buffer.items == multiset(w)
      modifies this`accounts, this`repr, this`applied, this`sent, this`sends, repr, buffer
      ensures Valid() && applied == old(applied) + d && Drains(w, d)
      ensures Answered(ok) && sends == old(sends) + |d|
      ensures if ok then Delivered() && |d| == |w| && buffer.items == multiset{} else DeliveredButLast()
      ensures fresh(repr - old(repr))
    {
      d := [];
      DrainsNothing(w);
      while true
        invariant Valid() && Delivered() && Answered(true)
        invariant applied == old(applied) + d && sends == old(sends) + |d|
        invariant DrainsLeaving(w, d, buffer.items)
        invariant fresh(repr - old(repr))
        decreases |buffer.items|
      {
        var top;
        top, ok := FlushOldest(buffer, w, d);
        if top == None {
          break;
        }
        d := d + [top.value];
        if !ok {
          return;
        }
      }
      DrainsEverything(w, d);
    }

    /** Flushes the window `w` in the buffer; `ws` are the windows flushed before. */
    method HandleBuffer(buffer: BinaryHeap, ghost ws: seq<seq<Pending>>, ghost w: seq<Pending>) returns (ok: bool)
      requires Valid() && Delivered() && Answered(true)
      requires DrainsAll(ws, applied) && buffer.items == multiset(w)
      modifies this`accounts, this`repr, this`applied, this`sent, this`sends, repr, buffer
      ensures Valid() && fresh(repr - old(repr))
      ensures Answered(ok)
      ensures if ok then sends == old(sends) + |w| else sends <= old(sends) + |w|
      ensures if ok then Delivered() && DrainsAll(ws + [w], applied) && buffer.items == multiset{}
              else DeliveredButLast() && DrainsPrefix(ws + [w], applied)
    {
      ghost var before := applied;
      if |buffer.items| == 0 {
        DrainsNothing(w);
        DrainsAllSnoc(ws, before, w, []);
        assert before + [] == before;
        return true;
      }
      ghost var d;
      ok, d := DrainBuffer(buffer, w);
      if ok {
        DrainsAllSnoc(ws, before, w, d);
      } else {
        DrainsAtMost(w, d);
        DrainsPrefixSnoc(ws, before, w, d);
      }
    }

    /** Buffers a transaction and flushes a buffer that is full; `s` is how the stream was cut so far. */
    method Receive(p: Pending, buffer: BinaryHeap, ghost s: Split) returns (ok: bool)
      requires Valid() && Delivered() && Answered(true)
      requires DrainsAll(s.closed, applied) && buffer.items == multiset(s.open)
      modifies this`accounts, this`repr, this`applied, this`sent, this`sends, repr, buffer
      ensures Valid() && fresh(repr - old(repr))
      ensures Answered(ok)
      ensures var t := Advance(batchSize, s, Incoming(p));
              if ok then
                && Delivered() && DrainsAll(t.closed, applied) && buffer.items == multiset(t.open)
                && sends + |t.open| == old(sends) + |s.open| + 1
              else
                && DeliveredButLast() && DrainsPrefix(t.closed, applied)
                && sends <= old(sends) + |s.open| + 1
      ensures ok ==> |buffer.items| < Limit(batchSize)
    {
      buffer.Push(p);
      if |buffer.items| < batchSize {
        return true;
      }
      ok := HandleBuffer(buffer, s.closed, s.open + [p]);
    }

    /** Buffers a transaction or completes a batch. */
    method Iteration(msg: ServiceMessage, buffer: BinaryHeap, ghost s: Split) returns (ok: bool)
      requires Valid() && Delivered() && Answered(true)
      requires DrainsAll(s.closed, applied) && buffer.items == multiset(s.open)
      modifies this`accounts, this`repr, this`applied, this`sent, this`sends, repr, buffer
      ensures Valid() && fresh(repr - old(repr))
      ensures Answered(ok)
      ensures var t := Advance(batchSize, s, msg);
              if ok then
                && Delivered() && DrainsAll(t.closed, applied) && buffer.items == multiset(t.open)
                && sends + |t.open| == old(sends) + |s.open| + 1
              else
                && Interrupted(t.closed)
                && sends <= old(sends) + |s.open| + 1
      ensures ok ==> |buffer.items| < Limit(batchSize)
    {
      match msg {
        case Incoming(p) =>
          ok := Receive(p, buffer, s);
        case BatchCompletion =>
          ok := HandleBuffer(buffer, s.closed, s.open);
          if ok {
            ok := Acknowledge();
          }
      }
    }

    /** A failed send cut the work short: in the middle of a window, or after it on acknowledging it. */
    ghost predicate Interrupted(ws: seq<seq<Pending>>)
      reads this`sent, this`opening, this`applied
    {
      || (DeliveredButLast() && DrainsPrefix(ws, applied))
      || (Delivered() && DrainsAll(ws, applied))
    }

    /** The stream `received` so far: its windows drained, or the work cut short, at one send for each message. */
    ghost predicate Abreast(buffer: BinaryHeap, received: seq<ServiceMessage>, ok: bool)
      reads this`sent, this`opening, this`applied, this`sends, buffer
    {
      var s := Windows(batchSize, received);
      if ok then
        && Delivered() && DrainsAll(s.closed, applied)
        && buffer.items == multiset(s.open) && sends + |s.open| == |received|
      else
        && Interrupted(s.closed) && sends <= |received|
    }

    /** Takes one more message. */
    method Take(msg: ServiceMessage, buffer: BinaryHeap, ghost received: seq<ServiceMessage>) returns (ok: bool)
      requires Valid() && Answered(true) && Abreast(buffer, received, true)
      modifies this`accounts, this`repr, this`applied, this`sent, this`sends, repr, buffer
      ensures Valid() && fresh(repr - old(repr))
      ensures Answered(ok) && Abreast(buffer, received + [msg], ok)
    {
      WindowsSnoc(batchSize, received, msg);
      ok := Iteration(msg, buffer, Windows(batchSize, received));
    }

    /** Takes messages from the inbox until it is empty, cancellation comes, or a send fails. */
    method Listen(inbox: seq<ServiceMessage>, cancelAt: Option<nat>, buffer: BinaryHeap)
      returns (ok: bool, ghost received: seq<ServiceMessage>)
      requires Valid() && Answered(true) && Abreast(buffer, [], true)
      modifies this`accounts, this`repr, this`applied, this`sent, this`sends, repr, buffer
      ensures Valid() && fresh(repr - old(repr))
      ensures Answered(ok) && Abreast(buffer, received, ok)
      ensures received <= Taken(inbox, cancelAt) && (ok ==> received == Taken(inbox, cancelAt))
    {
      received, ok := [], true;
      var i := 0;
      while ok
        invariant i == |received| && received <= Taken(inbox, cancelAt)
        invariant Valid() && Answered(ok) && Abreast(buffer, received, ok) && fresh(repr - old(repr))
        decreases |inbox| - i
      {
        TakenSnoc(inbox, cancelAt, received, i);
        if cancelAt == Some(i) || i == |inbox| {
          break;
        }
        ok := Take(inbox[i], buffer, received);
        received, i := received + [inbox[i]], i + 1;
      }
    }

    /** Starts a run of the event loop from the accounts as they are. */
    method Start(receivers: Receivers)
      requires Valid()
      modifies this`opening, this`applied, this`sent, this`receivers, this`sends
      ensures Valid() && Delivered() && Answered(true)
      ensures opening == old(Books()) && applied == [] && this.receivers == receivers && sends == 0
    {
      opening, applied, sent := Books(), [], [];
      this.receivers, sends := receivers, 0;
    }

    /**
     The event loop, ended by cancellation, by the channel closing, or by a failed send. Whether it
     succeeds depends on the receivers alone: each message taken costs one send.
     */
    method ServerForever(inbox: seq<ServiceMessage>, receivers: Receivers, cancelAt: Option<nat>)
      returns (ok: bool, ghost received: seq<ServiceMessage>)
      requires Valid()
      modifies this, repr
      ensures Valid() && opening == old(Books()) && this.receivers == receivers
      ensures ok <==> AllOpen(receivers, |Taken(inbox, cancelAt)|)
      ensures received <= Taken(inbox, cancelAt) && (ok ==> received == Taken(inbox, cancelAt))
      ensures Answered(ok) && sends <= |received| && (ok ==> sends == |received|)
      ensures var s := Windows(batchSize, received);
              if ok then Delivered() && DrainsAll(s.closed + [s.open], applied)
              else Interrupted(s.closed) || Interrupted(s.closed + [s.open])
    {
      Start(receivers);
      var buffer := new BinaryHeap();
      ok, received := Listen(inbox, cancelAt, buffer);
      if ok {
        ghost var s := Windows(batchSize, received);
        ok := HandleBuffer(buffer, s.closed, s.open);
      }
      StoppedOrAllOpen(receivers, sends, |Taken(inbox, cancelAt)|, ok);
    }
  }

  /** The dispatch on the type of a message, and the self-check after it. */
  method Process(entry: Account, msg: InputMessage) returns (res: Outcome, checked: bool)
    requires entry.Valid()
    modifies entry
    ensures entry.Valid() && checked
    ensures StepResult(entry.transactions, res) == Step(old(entry.transactions), Dispatched(msg))
  {
    res, checked := Perform(entry, Dispatched(msg));
    GoodFieldsConsistent(entry.View());
    var after := CheckInvariants(entry);
    checked := checked && after;
  }
}
