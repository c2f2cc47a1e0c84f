/**
 From the rows of a file to the rows of the snapshot.
 */
module Pipeline {
  import opened Domain
  import opened Ledger
  import opened LedgerLaws
  import opened Engine
  import opened Ordering
  import opened Batching
  import opened Service
  import opened Sequential
  import opened CsvReader
  import opened Snapshot
  import Amount

  function Pendings(ms: seq<InputMessage>, callback: Channel): seq<Pending> {
    seq(|ms|, i requires 0 <= i < |ms| => Pending(ms[i], callback))
  }

  /** The loader sends every message, then the completion signal. */
  function InboxOf(ms: seq<InputMessage>, callback: Channel): seq<ServiceMessage> {
    seq(|ms|, i requires 0 <= i < |ms| => Incoming(Pending(ms[i], callback))) + [BatchCompletion]
  }

  lemma {:induction false} ReceivedPendings(ms: seq<InputMessage>, callback: Channel, n: nat)
    requires n <= |ms|
    ensures Received(InboxOf(ms, callback)[..n]) == Pendings(ms[..n], callback)
    decreases n
  {
    if n == 0 {
    } else {
      var inbox := InboxOf(ms, callback);
      assert inbox[..n][..n - 1] == inbox[..n - 1];
      ReceivedPendings(ms, callback, n - 1);
      assert Pendings(ms[..n], callback) == Pendings(ms[..n - 1], callback) + [Pending(ms[n - 1], callback)];
    }
  }

  /**
   A file reaches the service in order, each row once, and then the completion signal, which
   leaves nothing buffered whatever the batch size.
   */
  lemma FileArrivesInOrder(build: Amount.Build, records: seq<Record>, callback: Channel)
    ensures var ms := Load(DecoderOf(build), records, 0).messages;
            var ps := Received(InboxOf(ms, callback));
            InOrder(ps) && Messages(ps) == ms && forall p | p in ps :: p.callback == callback
    ensures forall batchSize: nat ::
              Windows(batchSize, InboxOf(Load(DecoderOf(build), records, 0).messages, callback)).open == []
  {
    var ms := Load(DecoderOf(build), records, 0).messages;
    var inbox := InboxOf(ms, callback);
    NumberedFromZero(build, records);
    ReceivedPendings(ms, callback, |ms|);
    assert inbox[..|inbox| - 1] == inbox[..|ms|];
    assert ms[..|ms|] == ms;
    assert Received(inbox) == Pendings(ms, callback) + [];
    forall batchSize: nat ensures Windows(batchSize, inbox).open == [] {
      WindowSizes(batchSize, inbox);
    }
  }

  lemma CompletionTaken(ms: seq<InputMessage>, callback: Channel, cancelAt: Option<nat>)
    ensures var n := |Taken(InboxOf(ms, callback), cancelAt)|;
            n <= |ms| + 1 && (n == |ms| + 1 <==> cancelAt == None || |ms| < cancelAt.value)
    ensures Taken(InboxOf(ms, callback), cancelAt) <= InboxOf(ms, callback)
  {}

  /** Runs a new service on the messages; the snapshot is taken once the completion is acknowledged. */
  method RunMessages(batchSize: nat, messages: seq<InputMessage>, callback: Channel,
                     receivers: Receivers, cancelAt: Option<nat>)
    returns (rows: Option<seq<Row>>)
    requires InOrder(Received(InboxOf(messages, callback)))
    requires Messages(Received(InboxOf(messages, callback))) == messages
    ensures rows.Some? <==>
              (cancelAt == None || |messages| < cancelAt.value) && AllOpen(receivers, |messages| + 1)
    ensures rows.Some? ==> IsSnapshot(rows.value, Table(Fold(map[], messages)))
  {
    rows := None;
    CompletionTaken(messages, callback, cancelAt);
    var service := new Service(batchSize);
    var ok;
    ghost var received;
    ok, received := Serve(service, InboxOf(messages, callback), receivers, cancelAt);
    var acknowledged := ok && service.sends == |messages| + 1;
    if acknowledged {
      assert received == InboxOf(messages, callback);
      var written := WriteSnapshot(service, Fold(map[], messages));
      rows := Some(written);
    }
  }

  /** Some message names client `c`. */
  ghost predicate Mentions(ms: seq<InputMessage>, c: ClientId) {
    exists m :: m in ms && m.clientId == c
  }

  /** Some chargeback of client `c` was accepted. */
  ghost predicate ChargebackAccepted(ms: seq<InputMessage>, c: ClientId) {
    var cs := CallsOf(ms, c);
    exists j :: 0 <= j < |cs| && cs[j].op == Chargeback && Outcomes(map[], cs)[j] == Accepted
  }

  /**
   In the snapshot of a run every mentioned client has its row, and no other; its balances are those
   its own messages alone produce and obey the account invariants, and it is shown as locked exactly
   if one of its chargebacks was accepted.
   */
  lemma SnapshotOfClients(ms: seq<InputMessage>, rows: seq<Row>)
    requires IsSnapshot(rows, Table(Fold(map[], ms)))
    ensures forall m | m in ms :: exists i :: 0 <= i < |rows| && rows[i].client == m.clientId
    ensures forall i | 0 <= i < |rows| ::
              var l := After(map[], CallsOf(ms, rows[i].client));
              && Mentions(ms, rows[i].client)
              && rows[i].available == Amount.Display(Available(l))
              && rows[i].held == Amount.Display(Held(l))
              && rows[i].total == Amount.Display(Total(l))
              && (rows[i].locked <==> ChargebackAccepted(ms, rows[i].client))
              && (rows[i].locked || 0 <= Total(l)) && 0 <= Held(l)
  {
    ColumnsOf(rows, Fold(map[], ms));
    forall m | m in ms ensures exists i :: 0 <= i < |rows| && rows[i].client == m.clientId {
      ClientProjection(map[], ms, m.clientId);
    }
    forall i | 0 <= i < |rows|
      ensures var l := After(map[], CallsOf(ms, rows[i].client));
              && Mentions(ms, rows[i].client)
              && rows[i].available == Amount.Display(Available(l))
              && rows[i].held == Amount.Display(Held(l))
              && rows[i].total == Amount.Display(Total(l))
              && (rows[i].locked <==> ChargebackAccepted(ms, rows[i].client))
              && (rows[i].locked || 0 <= Total(l)) && 0 <= Held(l)
    {
      RowOfClient(ms, rows[i].client);
    }
  }

  lemma RowOfClient(ms: seq<InputMessage>, c: ClientId)
    ensures var l := After(map[], CallsOf(ms, c));
            && LedgerOf(Fold(map[], ms), c) == l
            && (c in Fold(map[], ms) <==> Mentions(ms, c))
            && (Locked(l) <==> ChargebackAccepted(ms, c))
            && (Locked(l) || 0 <= Total(l)) && 0 <= Held(l)
  {
    ClientProjection(map[], ms, c);
    LockedByChargeback(map[], CallsOf(ms, c));
    LockCharacterization(After(map[], CallsOf(ms, c)));
  }

  // A file from end to end

  ghost predicate AllDecode(build: Amount.Build, records: seq<Record>) {
    forall i | 0 <= i < |records| :: Decode(build, records[i], i).Message?
  }

  /** The messages of the rows, numbered from zero. */
  ghost function Decoded(build: Amount.Build, records: seq<Record>): seq<InputMessage>
    requires AllDecode(build, records)
  {
    seq(|records|, i requires 0 <= i < |records| => Decode(build, records[i], i).message)
  }

  lemma LoadsDecoded(build: Amount.Build, records: seq<Record>, messages: seq<InputMessage>, last: Item)
    requires LoadedFrom(build, records, messages, last)
    ensures last == EndOfFile <==> AllDecode(build, records)
    ensures AllDecode(build, records) ==> messages == Decoded(build, records)
  {
    if |messages| < |records| {
      RowsWithoutMessage(build, records[|messages|], |messages|);
    } else {
      forall i | 0 <= i < |records| ensures Decode(build, records[i], i) == Message(messages[i]) {}
    }
  }

  /**
   Loads a file and runs a new service on it. There is a snapshot exactly if every row is a message,
   cancellation does not come before the completion signal, and every outcome and the
   acknowledgement find their receivers. Then its rows are those of a left fold over the file,
   for every batch size.
   */
  method RunFile(build: Amount.Build, batchSize: nat, records: seq<Record>, callback: Channel,
                 receivers: Receivers, cancelAt: Option<nat>)
    returns (rows: Option<seq<Row>>)
    ensures rows.Some? <==>
            && (forall i | 0 <= i < |records| :: Decode(build, records[i], i).Message?)
            && (cancelAt == None || |records| < cancelAt.value)
            && (forall k: nat | k <= |records| :: receivers(k))
    ensures rows.Some? ==> IsSnapshot(rows.value, Table(Fold(map[], Decoded(build, records))))
    ensures rows.Some? ==> forall i | 0 <= i < |rows.value| ::
              rows.value[i].locked <==> ChargebackAccepted(Decoded(build, records), rows.value[i].client)
  {
    var messages, last := LoadFile(build, records);
    LoadsDecoded(build, records, messages, last);
    if last != EndOfFile {
      return None;
    }
    FileArrivesInOrder(build, records, callback);
    rows := RunMessages(batchSize, messages, callback, receivers, cancelAt);
    if rows.Some? {
      SnapshotOfClients(messages, rows.value);
    }
  }
}
