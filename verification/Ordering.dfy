/**
 The order of messages in the buffer. The comparison is reversed, so that the greatest message
 of a max-heap is the oldest one.
 */
module Ordering {
  import opened Domain

  datatype Ordering = Less | Equal | Greater

  /** The channel a transaction's outcome is to be sent on. */
  type Channel = nat

  /** A buffered transaction and where to report its outcome. */
  datatype Pending = Pending(message: InputMessage, callback: Channel)

  function CompareInt(a: int, b: int): Ordering {
    if a < b then Less else if a == b then Equal else Greater
  }

  function Compare(a: InputMessage, b: InputMessage): Ordering {
    match CompareInt(b.chronoOrder, a.chronoOrder)
    case Equal =>
      (match CompareInt(b.clientId, a.clientId)
       case Equal => CompareInt(b.transactionId, a.transactionId)
       case order => order)
    case order => order
  }

  /** Lexicographically earlier by sequence number, client and transaction. */
  predicate Before(a: InputMessage, b: InputMessage) {
    || a.chronoOrder < b.chronoOrder
    || (a.chronoOrder == b.chronoOrder && a.clientId < b.clientId)
    || (a.chronoOrder == b.chronoOrder && a.clientId == b.clientId && a.transactionId < b.transactionId)
  }

  predicate SameKey(a: InputMessage, b: InputMessage) {
    a.chronoOrder == b.chronoOrder && a.clientId == b.clientId && a.transactionId == b.transactionId
  }

  /**
   The comparison is exactly the reverse of the lexicographic order by sequence number, client and
   transaction, and equality is that of all three.
   */
  lemma CompareIsReversed(a: InputMessage, b: InputMessage)
    ensures Compare(a, b) == Greater <==>
            || a.chronoOrder < b.chronoOrder
            || (a.chronoOrder == b.chronoOrder && a.clientId < b.clientId)
            || (a.chronoOrder == b.chronoOrder && a.clientId == b.clientId && a.transactionId < b.transactionId)
    ensures Compare(a, b) == Equal <==>
            a.chronoOrder == b.chronoOrder && a.clientId == b.clientId && a.transactionId == b.transactionId
    ensures Compare(a, b) == Less <==> Compare(b, a) == Greater
    ensures Before(a, b) <==> Compare(a, b) == Greater
    ensures SameKey(a, b) <==> Compare(a, b) == Equal
  {}

  // Sorted sequences

  predicate NotAfter(p: Pending, q: Pending) {
    !Before(q.message, p.message)
  }

  ghost predicate Sorted(ps: seq<Pending>) {
    forall i, j | 0 <= i < j < |ps| :: NotAfter(ps[i], ps[j])
  }

  ghost predicate DistinctKeys(ps: seq<Pending>) {
    forall i, j | 0 <= i < j < |ps| :: !SameKey(ps[i].message, ps[j].message)
  }

  /** Arrival in the order of the sequence numbers. */
  ghost predicate InOrder(ps: seq<Pending>) {
    forall i, j | 0 <= i < j < |ps| :: ps[i].message.chronoOrder < ps[j].message.chronoOrder
  }

  lemma DistinctByMultiset(ps: seq<Pending>, qs: seq<Pending>)
    requires multiset(ps) == multiset(qs) && DistinctKeys(ps)
    ensures DistinctKeys(qs)
  {
    forall i, j | 0 <= i < j < |qs| ensures !SameKey(qs[i].message, qs[j].message) {
      var p, q := qs[i], qs[j];
      assert p in multiset(ps) && q in multiset(ps);
      var a :| 0 <= a < |ps| && ps[a] == p;
      var b :| 0 <= b < |ps| && ps[b] == q;
      if p == q {
        TwiceInMultiset(qs, i, j);
        OnceInDistinct(ps, p);
        assert false;
      }
    }
  }

  lemma TwiceInMultiset(ps: seq<Pending>, i: nat, j: nat)
    requires i < j < |ps| && ps[i] == ps[j]
    ensures multiset(ps)[ps[i]] >= 2
  {
    assert ps == ps[..j] + [ps[j]] + ps[j + 1..];
    assert ps[i] in ps[..j];
  }

  lemma {:induction false} OnceInDistinct(ps: seq<Pending>, p: Pending)
    requires DistinctKeys(ps)
    ensures multiset(ps)[p] <= 1
    decreases |ps|
  {
    if ps == [] {
    } else {
      OnceInDistinct(ps[1..], p);
      assert ps == [ps[0]] + ps[1..];
      if p == ps[0] {
        assert p !in ps[1..];
      }
    }
  }

  lemma MultisetTail(ps: seq<Pending>)
    requires ps != []
    ensures multiset(ps[1..]) == multiset(ps) - multiset{ps[0]}
  {
    assert ps == [ps[0]] + ps[1..];
  }

  lemma SameHead(ps: seq<Pending>, qs: seq<Pending>)
    requires multiset(ps) == multiset(qs) && DistinctKeys(ps)
    requires Sorted(ps) && Sorted(qs) && ps != [] && qs != []
    ensures ps[0] == qs[0]
  {
    assert ps[0] in multiset(qs) && qs[0] in multiset(ps);
    var j :| 0 <= j < |qs| && qs[j] == ps[0];
    var i :| 0 <= i < |ps| && ps[i] == qs[0];
    assert NotAfter(qs[0], qs[j]) || j == 0;
    assert NotAfter(ps[0], ps[i]) || i == 0;
  }

  /** Keys being distinct, there is only one way to sort. */
  lemma {:induction false} SortedUnique(ps: seq<Pending>, qs: seq<Pending>)
    requires multiset(ps) == multiset(qs) && DistinctKeys(ps)
    requires Sorted(ps) && Sorted(qs)
    ensures ps == qs
    decreases |ps|
  {
    assert |ps| == |multiset(ps)| == |multiset(qs)| == |qs|;
    if ps == [] {
    } else {
      SameHead(ps, qs);
      MultisetTail(ps);
      MultisetTail(qs);
      SortedUnique(ps[1..], qs[1..]);
      assert ps == [ps[0]] + ps[1..] && qs == [qs[0]] + qs[1..];
    }
  }
}
