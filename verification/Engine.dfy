/**
 The engine as a plain left fold over messages: one ledger per client, created on first mention.
 */
module Engine {
  import opened Domain
  import opened Ledger
  import opened LedgerLaws
  import opened Sums

  type Books = map<ClientId, Ledger>

  /** What is sent back for one message. */
  datatype Reply = Reply(clientId: ClientId, transactionId: TransactionId, outcome: Outcome)

  function Dispatched(m: InputMessage): Call {
    Call(m.transactionType, m)
  }

  function LedgerOf(books: Books, c: ClientId): Ledger {
    if c in books then books[c] else map[]
  }

  ghost function Handle(books: Books, m: InputMessage): Books {
    books[m.clientId := Step(LedgerOf(books, m.clientId), Dispatched(m)).ledger]
  }

  ghost function ReplyTo(books: Books, m: InputMessage): Reply {
    Reply(m.clientId, m.transactionId, Step(LedgerOf(books, m.clientId), Dispatched(m)).outcome)
  }

  ghost function Fold(books: Books, ms: seq<InputMessage>): Books
    decreases |ms|
  {
    if ms == [] then books else Fold(Handle(books, ms[0]), ms[1..])
  }

  ghost function Replies(books: Books, ms: seq<InputMessage>): (rs: seq<Reply>)
    ensures |rs| == |ms|
    decreases |ms|
  {
    if ms == [] then [] else [ReplyTo(books, ms[0])] + Replies(Handle(books, ms[0]), ms[1..])
  }

  lemma {:induction false} FoldConcat(books: Books, ms: seq<InputMessage>, ns: seq<InputMessage>)
    ensures Fold(books, ms + ns) == Fold(Fold(books, ms), ns)
    decreases |ms|
  {
    if ms == [] {
      assert ms + ns == ns;
    } else {
      assert (ms + ns)[1..] == ms[1..] + ns;
      FoldConcat(Handle(books, ms[0]), ms[1..], ns);
    }
  }

  lemma {:induction false} RepliesConcat(books: Books, ms: seq<InputMessage>, ns: seq<InputMessage>)
    ensures Replies(books, ms + ns) == Replies(books, ms) + Replies(Fold(books, ms), ns)
    decreases |ms|
  {
    if ms == [] {
      assert ms + ns == ns;
    } else {
      assert (ms + ns)[1..] == ms[1..] + ns;
      RepliesConcat(Handle(books, ms[0]), ms[1..], ns);
    }
  }

  lemma FoldSnoc(books: Books, ms: seq<InputMessage>, m: InputMessage)
    ensures Fold(books, ms + [m]) == Handle(Fold(books, ms), m)
    ensures Replies(books, ms + [m]) == Replies(books, ms) + [ReplyTo(Fold(books, ms), m)]
  {
    FoldConcat(books, ms, [m]);
    RepliesConcat(books, ms, [m]);
    var b := Fold(books, ms);
    assert Fold(b, [m]) == Fold(Handle(b, m), []);
    assert Replies(b, [m]) == [ReplyTo(b, m)] + Replies(Handle(b, m), []);
  }

  // Clients do not see each other

  function CallsOf(ms: seq<InputMessage>, c: ClientId): seq<Call> {
    if ms == [] then []
    else (if ms[0].clientId == c then [Dispatched(ms[0])] else []) + CallsOf(ms[1..], c)
  }

  function OutcomesOf(rs: seq<Reply>, c: ClientId): seq<Outcome> {
    if rs == [] then []
    else (if rs[0].clientId == c then [rs[0].outcome] else []) + OutcomesOf(rs[1..], c)
  }

  /**
   After any run each client stands where its own calls alone would have brought it, has been
   told their outcomes, and has an account exactly if it was mentioned, accepted or not.
   */
  lemma {:induction false} ClientProjection(books: Books, ms: seq<InputMessage>, c: ClientId)
    ensures LedgerOf(Fold(books, ms), c) == After(LedgerOf(books, c), CallsOf(ms, c))
    ensures OutcomesOf(Replies(books, ms), c) == Outcomes(LedgerOf(books, c), CallsOf(ms, c))
    ensures c in Fold(books, ms) <==> c in books || exists m :: m in ms && m.clientId == c
    decreases |ms|
  {
    if ms == [] {
    } else {
      var m, b := ms[0], Handle(books, ms[0]);
      ClientProjection(b, ms[1..], c);
      assert Replies(books, ms)[1..] == Replies(b, ms[1..]);
      if m.clientId == c {
        assert CallsOf(ms, c)[1..] == CallsOf(ms[1..], c);
        assert m in ms;
      } else {
        assert CallsOf(ms, c) == CallsOf(ms[1..], c);
        assert OutcomesOf(Replies(books, ms), c) == OutcomesOf(Replies(b, ms[1..]), c);
        assert LedgerOf(b, c) == LedgerOf(books, c);
      }
      if n :| n in ms && n.clientId == c {
        assert n == m || n in ms[1..];
      }
    }
  }

  // Exactly which books runs can reach

  /** The entries were made by messages of the client, typed as deposits or withdrawals. */
  ghost predicate Filed(c: ClientId, l: Ledger) {
    forall t | t in l ::
      && l[t].message.clientId == c
      && l[t].message.transactionType == if l[t].credit then Deposit else Withdrawal
  }

  ghost predicate Sound(books: Books) {
    forall c | c in books :: Good(books[c]) && Filed(c, books[c])
  }

  lemma {:induction false} FoldKeepsSound(books: Books, ms: seq<InputMessage>)
    requires Sound(books)
    ensures Sound(Fold(books, ms))
    decreases |ms|
  {
    if ms == [] {
    } else {
      StepKeepsGood(LedgerOf(books, ms[0].clientId), Dispatched(ms[0]));
      FoldKeepsSound(Handle(books, ms[0]), ms[1..]);
    }
  }

  lemma {:induction false} CallsOfConcat(ms: seq<InputMessage>, ns: seq<InputMessage>, c: ClientId)
    ensures CallsOf(ms + ns, c) == CallsOf(ms, c) + CallsOf(ns, c)
    decreases |ms|
  {
    if ms == [] {
      assert ms + ns == ns;
    } else {
      assert (ms + ns)[1..] == ms[1..] + ns;
      CallsOfConcat(ms[1..], ns, c);
    }
  }

  /** Messages of one client that bring a fresh account to the ledger `l`. */
  lemma {:induction false} FiledRun(c: ClientId, l: Ledger) returns (ms: seq<InputMessage>)
    requires Good(l) && Filed(c, l)
    ensures After(map[], CallsOf(ms, c)) == l
    ensures forall m | m in ms :: m.clientId == c
    decreases Sum(l, Work)
  {
    if l == map[] {
      ms := [];
    } else {
      var k, call := LastCall(l);
      StepWork(k, call);
      SumNonNegative(k, Work);
      var ns := FiledRun(c, k);
      var m := call.message.(transactionType := call.op);
      ms := ns + [m];
      CallsOfConcat(ns, [m], c);
      assert CallsOf([m], c) == [Dispatched(m)];
      RunSnoc(map[], CallsOf(ns, c), Dispatched(m));
      assert Step(k, Dispatched(m)).ledger == l;
    }
  }

  lemma {:induction false} CallsOfNone(ms: seq<InputMessage>, c: ClientId)
    requires forall m | m in ms :: m.clientId != c
    ensures CallsOf(ms, c) == []
    decreases |ms|
  {
    if ms == [] {
    } else {
      assert ms[0] in ms;
      CallsOfNone(ms[1..], c);
    }
  }

  /** The messages of one client change the books of that client alone. */
  lemma RunOfOneClient(books: Books, c: ClientId, ms: seq<InputMessage>)
    requires ms != [] && forall m | m in ms :: m.clientId == c
    ensures Fold(books, ms) == books[c := After(LedgerOf(books, c), CallsOf(ms, c))]
  {
    var b := Fold(books, ms);
    assert ms[0] in ms;
    forall d: ClientId ensures d in b <==> d in books || d == c
                       ensures d in b && d != c ==> b[d] == books[d]
    {
      ClientProjection(books, ms, d);
      if d != c {
        CallsOfNone(ms, d);
      }
    }
    ClientProjection(books, ms, c);
  }

  /** A message no fresh account accepts: the client is now known, and nothing else has happened. */
  function Mention(c: ClientId): InputMessage {
    InputMessage(0, Dispute, c, 0, 0)
  }

  /** One more client, with a sound ledger. */
  lemma ClientRun(books: Books, c: ClientId, l: Ledger) returns (ms: seq<InputMessage>)
    requires c !in books && Good(l) && Filed(c, l)
    ensures Fold(books, ms) == books[c := l]
  {
    var own := FiledRun(c, l);
    var mention := Dispatched(Mention(c));
    ms := [Mention(c)] + own;
    assert ms[1..] == own && CallsOf(ms, c) == [mention] + CallsOf(own, c);
    RunConcat(map[], [mention], CallsOf(own, c));
    RunSnoc(map[], [], mention);
    assert [] + [mention] == [mention];
    RunOfOneClient(books, c, ms);
  }

  lemma {:induction false} SoundRun(books: Books) returns (ms: seq<InputMessage>)
    requires Sound(books)
    ensures Fold(map[], ms) == books
    decreases books.Keys
  {
    if books == map[] {
      ms := [];
    } else {
      var c := Pick(books);
      var rest := books - {c};
      var ns := SoundRun(rest);
      var run := ClientRun(rest, c, books[c]);
      FoldConcat(map[], ns, run);
      ms := ns + run;
      assert rest[c := books[c]] == books;
    }
  }

  /** Books can be reached from empty ones if and only if they are sound. */
  lemma ReachableIffSound(books: Books)
    ensures (exists ms :: Fold(map[], ms) == books) <==> Sound(books)
  {
    if Sound(books) {
      var ms := SoundRun(books);
    }
    if ms :| Fold(map[], ms) == books {
      FoldKeepsSound(map[], ms);
    }
  }
}
