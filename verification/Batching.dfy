/**
 How the stream of service messages is cut into windows, and in what order the windows are drained.
 */
module Batching {
  import opened Ordering

  datatype ServiceMessage = Incoming(pending: Pending) | BatchCompletion

  /** The windows already flushed, and the one still being filled. */
  datatype Split = Split(closed: seq<seq<Pending>>, open: seq<Pending>)

  /** The number of transactions that fills a window; a batch size of zero acts as one. */
  function Limit(batchSize: nat): nat {
    if batchSize == 0 then 1 else batchSize
  }

  function Advance(batchSize: nat, s: Split, m: ServiceMessage): Split {
    match m
    case Incoming(p) =>
      var open := s.open + [p];
      if |open| >= batchSize then Split(s.closed + [open], []) else Split(s.closed, open)
    case BatchCompletion =>
      Split(s.closed + [s.open], [])
  }

  function Windows(batchSize: nat, inbox: seq<ServiceMessage>): Split {
    if inbox == [] then Split([], [])
    else Advance(batchSize, Windows(batchSize, inbox[..|inbox| - 1]), inbox[|inbox| - 1])
  }

  lemma WindowsSnoc(batchSize: nat, inbox: seq<ServiceMessage>, m: ServiceMessage)
    ensures Windows(batchSize, inbox + [m]) == Advance(batchSize, Windows(batchSize, inbox), m)
  {
    assert (inbox + [m])[..|inbox|] == inbox;
  }

  /** The transactions received, in order of arrival. */
  function Received(inbox: seq<ServiceMessage>): seq<Pending> {
    if inbox == [] then []
    else
      var m := inbox[|inbox| - 1];
      Received(inbox[..|inbox| - 1]) + if m.Incoming? then [m.pending] else []
  }

  function Flatten(ws: seq<seq<Pending>>): seq<Pending> {
    if ws == [] then [] else Flatten(ws[..|ws| - 1]) + ws[|ws| - 1]
  }

  lemma FlattenSnoc(ws: seq<seq<Pending>>, w: seq<Pending>)
    ensures Flatten(ws + [w]) == Flatten(ws) + w
  {
    assert (ws + [w])[..|ws|] == ws;
  }

  /** Windows lose and duplicate nothing, and keep the order of arrival. */
  lemma {:induction false} WindowsPartition(batchSize: nat, inbox: seq<ServiceMessage>)
    ensures var s := Windows(batchSize, inbox); Flatten(s.closed) + s.open == Received(inbox)
    decreases |inbox|
  {
    if inbox == [] {
    } else {
      var before, m := inbox[..|inbox| - 1], inbox[|inbox| - 1];
      WindowsPartition(batchSize, before);
      var s := Windows(batchSize, before);
      match m {
        case Incoming(p) => FlattenSnoc(s.closed, s.open + [p]);
        case BatchCompletion => FlattenSnoc(s.closed, s.open);
      }
    }
  }

  /** A window is closed when it is full or a completion asks for it, and not before. */
  lemma {:induction false} WindowSizes(batchSize: nat, inbox: seq<ServiceMessage>)
    ensures var s, limit := Windows(batchSize, inbox), if batchSize == 0 then 1 else batchSize;
            && |s.open| < limit
            && (forall w | w in s.closed :: |w| <= limit)
            && (BatchCompletion !in inbox ==> forall w | w in s.closed :: |w| == limit)
            && (inbox != [] && inbox[|inbox| - 1] == BatchCompletion ==> s.open == [])
    decreases |inbox|
  {
    if inbox == [] {
    } else {
      WindowSizes(batchSize, inbox[..|inbox| - 1]);
    }
  }

  // Draining a window

  /** `d` has been taken from window `w`, oldest first. */
  ghost predicate Drains(w: seq<Pending>, d: seq<Pending>) {
    && Sorted(d)
    && multiset(d) <= multiset(w)
    && forall p, q | p in d && q in multiset(w) - multiset(d) :: NotAfter(p, q)
  }

  /** `rest` is what is left of window `w` after taking `d` from it. */
  ghost predicate DrainsLeaving(w: seq<Pending>, d: seq<Pending>, rest: multiset<Pending>) {
    Drains(w, d) && multiset(d) + rest == multiset(w)
  }

  lemma DrainsNothing(w: seq<Pending>)
    ensures DrainsLeaving(w, [], multiset(w))
  {}

  lemma DrainsEverything(w: seq<Pending>, d: seq<Pending>)
    requires DrainsLeaving(w, d, multiset{})
    ensures Drains(w, d) && |d| == |w|
  {
    assert |multiset(d)| == |multiset(w)|;
  }

  lemma DrainsAtMost(w: seq<Pending>, d: seq<Pending>)
    requires Drains(w, d)
    ensures |d| <= |w|
  {
    assert multiset(w) == multiset(d) + (multiset(w) - multiset(d));
    assert |multiset(w)| == |multiset(d)| + |multiset(w) - multiset(d)|;
  }

  lemma SortedSnoc(d: seq<Pending>, p: Pending)
    requires Sorted(d) && forall q | q in d :: NotAfter(q, p)
    ensures Sorted(d + [p])
  {
    var e := d + [p];
    forall i, j | 0 <= i < j < |e| ensures NotAfter(e[i], e[j]) {
      assert e[i] == d[i] && d[i] in d;
      assert j < |d| ==> e[j] == d[j];
    }
  }

  /** Taking the oldest of what is left of a window continues its draining. */
  lemma DrainsSnoc(w: seq<Pending>, d: seq<Pending>, p: Pending, rest: multiset<Pending>)
    requires DrainsLeaving(w, d, rest)
    requires p in rest && forall q | q in rest :: NotAfter(p, q)
    ensures DrainsLeaving(w, d + [p], rest - multiset{p})
  {
    var e := d + [p];
    assert multiset(w) - multiset(d) == rest;
    assert multiset(e) == multiset(d) + multiset{p};
    assert multiset(w) - multiset(e) == rest - multiset{p};
    forall q | q in d ensures NotAfter(q, p) {
      assert p in multiset(w) - multiset(d);
    }
    SortedSnoc(d, p);
  }

  /** Each window has been drained to the end before the next. */
  ghost predicate DrainsAll(ws: seq<seq<Pending>>, applied: seq<Pending>) {
    if ws == [] then applied == []
    else
      var w := ws[|ws| - 1];
      && |w| <= |applied|
      && Drains(w, applied[|applied| - |w|..])
      && DrainsAll(ws[..|ws| - 1], applied[..|applied| - |w|])
  }

  lemma DrainsAllSnoc(ws: seq<seq<Pending>>, applied: seq<Pending>, w: seq<Pending>, d: seq<Pending>)
    requires DrainsAll(ws, applied) && Drains(w, d) && |d| == |w|
    ensures DrainsAll(ws + [w], applied + d)
  {
    assert (ws + [w])[..|ws|] == ws;
    assert (applied + d)[|applied|..] == d && (applied + d)[..|applied|] == applied;
  }

  lemma FullDrain(w: seq<Pending>, d: seq<Pending>)
    requires Drains(w, d) && |d| == |w|
    ensures multiset(d) == multiset(w)
  {
    assert |multiset(w) - multiset(d)| == 0;
  }

  lemma InOrderFirst(w: seq<Pending>, d: seq<Pending>)
    requires InOrder(w) && Drains(w, d) && d != []
    ensures w != [] && d[0] == w[0]
  {
    assert d[0] in d && d[0] in multiset(w);
    var i :| 0 <= i < |w| && w[i] == d[0];
    assert NotAfter(d[0], w[0]) by {
      if w[0] in multiset(d) {
        var j :| 0 <= j < |d| && d[j] == w[0];
        assert j == 0 || NotAfter(d[0], d[j]);
      } else {
        assert w[0] in multiset(w) - multiset(d);
      }
    }
  }

  lemma DrainsTail(w: seq<Pending>, d: seq<Pending>)
    requires Drains(w, d) && d != [] && w != [] && d[0] == w[0]
    ensures Drains(w[1..], d[1..])
  {
    MultisetTail(w);
    MultisetTail(d);
    assert multiset(w[1..]) - multiset(d[1..]) == multiset(w) - multiset(d);
    forall i, j | 0 <= i < j < |d[1..]| ensures NotAfter(d[1..][i], d[1..][j]) {
      assert NotAfter(d[i + 1], d[j + 1]);
    }
  }

  lemma {:induction false} InOrderPointwise(w: seq<Pending>, d: seq<Pending>)
    requires InOrder(w) && Drains(w, d)
    ensures |d| <= |w| && forall i | 0 <= i < |d| :: d[i] == w[i]
    decreases |w|
  {
    if d == [] {
    } else {
      InOrderFirst(w, d);
      DrainsTail(w, d);
      InOrderPointwise(w[1..], d[1..]);
      forall i | 0 < i < |d| ensures d[i] == w[i] {
        assert d[1..][i - 1] == w[1..][i - 1];
      }
    }
  }

  /** A window that arrived in order is drained in order of arrival. */
  lemma InOrderDrain(w: seq<Pending>, d: seq<Pending>)
    requires InOrder(w) && Drains(w, d)
    ensures |d| <= |w| && d == w[..|d|]
  {
    InOrderPointwise(w, d);
  }

  lemma InOrderSplit(ps: seq<Pending>, qs: seq<Pending>)
    requires InOrder(ps + qs)
    ensures InOrder(ps) && InOrder(qs)
  {
    var rs := ps + qs;
    forall i, j | 0 <= i < j < |ps| ensures ps[i].message.chronoOrder < ps[j].message.chronoOrder {
      assert rs[i] == ps[i] && rs[j] == ps[j];
    }
    forall i, j | 0 <= i < j < |qs| ensures qs[i].message.chronoOrder < qs[j].message.chronoOrder {
      assert rs[|ps| + i] == qs[i] && rs[|ps| + j] == qs[j];
    }
  }

  /** Arrival in order is application in order, however the stream is cut. */
  lemma {:induction false} InOrderDrainsAll(ws: seq<seq<Pending>>, applied: seq<Pending>)
    requires InOrder(Flatten(ws)) && DrainsAll(ws, applied)
    ensures applied == Flatten(ws)
    decreases |ws|
  {
    if ws == [] {
    } else {
      var k, n := |ws| - 1, |applied| - |ws[|ws| - 1]|;
      InOrderSplit(Flatten(ws[..k]), ws[k]);
      InOrderDrainsAll(ws[..k], applied[..n]);
      InOrderDrain(ws[k], applied[n..]);
      assert applied[n..] == ws[k];
      assert applied == applied[..n] + applied[n..];
    }
  }

  /** All windows but the last have been drained, and the last at least in part. */
  ghost predicate DrainsPrefix(ws: seq<seq<Pending>>, applied: seq<Pending>) {
    && ws != []
    && var k := |ws| - 1;
       var n := |Flatten(ws[..k])|;
       n <= |applied| && DrainsAll(ws[..k], applied[..n]) && Drains(ws[k], applied[n..])
  }

  lemma DrainsPrefixSnoc(ws: seq<seq<Pending>>, applied: seq<Pending>, w: seq<Pending>, d: seq<Pending>)
    requires DrainsAll(ws, applied) && Drains(w, d)
    ensures DrainsPrefix(ws + [w], applied + d)
  {
    DrainsAllPermutes(ws, applied);
    assert |applied| == |multiset(applied)| == |multiset(Flatten(ws))| == |Flatten(ws)|;
    assert (ws + [w])[..|ws|] == ws;
    assert (applied + d)[|applied|..] == d && (applied + d)[..|applied|] == applied;
  }

  /** If the stream arrived in order, an interrupted run has applied a prefix of it. */
  lemma InOrderDrainsPrefix(ws: seq<seq<Pending>>, applied: seq<Pending>)
    requires InOrder(Flatten(ws)) && DrainsPrefix(ws, applied)
    ensures applied <= Flatten(ws)
  {
    var k := |ws| - 1;
    var vs, w, n := ws[..k], ws[k], |Flatten(ws[..k])|;
    var a, d := applied[..n], applied[n..];
    assert applied == a + d && Flatten(ws) == Flatten(vs) + w;
    InOrderSplit(Flatten(vs), w);
    InOrderDrainsAll(vs, a);
    InOrderDrain(w, d);
    PrefixOfConcat(a, d, w);
  }

  lemma PrefixOfConcat(a: seq<Pending>, d: seq<Pending>, w: seq<Pending>)
    requires |d| <= |w| && d == w[..|d|]
    ensures a + d <= a + w
  {
    assert a + w == a + d + w[|d|..];
  }

  // Arrival out of order

  /** The two streams differ only in the order within windows. */
  ghost predicate SameWindows(ws: seq<seq<Pending>>, vs: seq<seq<Pending>>) {
    |ws| == |vs| && forall i | 0 <= i < |ws| :: multiset(ws[i]) == multiset(vs[i])
  }

  lemma DistinctSplit(ps: seq<Pending>, qs: seq<Pending>)
    requires DistinctKeys(ps + qs)
    ensures DistinctKeys(ps) && DistinctKeys(qs)
  {
    var rs := ps + qs;
    forall i, j | 0 <= i < j < |ps| ensures !SameKey(ps[i].message, ps[j].message) {
      assert rs[i] == ps[i] && rs[j] == ps[j];
    }
    forall i, j | 0 <= i < j < |qs| ensures !SameKey(qs[i].message, qs[j].message) {
      assert rs[|ps| + i] == qs[i] && rs[|ps| + j] == qs[j];
    }
  }

  /** With distinct keys the order of arrival within a window does not matter. */
  lemma {:induction false} WindowOrderIrrelevant(ws: seq<seq<Pending>>, vs: seq<seq<Pending>>,
                                                 applied: seq<Pending>, other: seq<Pending>)
    requires SameWindows(ws, vs) && DistinctKeys(Flatten(ws))
    requires DrainsAll(ws, applied) && DrainsAll(vs, other)
    ensures applied == other
    decreases |ws|
  {
    if ws == [] {
    } else {
      var k := |ws| - 1;
      var n, m := |applied| - |ws[k]|, |other| - |vs[k]|;
      DistinctSplit(Flatten(ws[..k]), ws[k]);
      WindowOrderIrrelevant(ws[..k], vs[..k], applied[..n], other[..m]);
      assert |ws[k]| == |multiset(ws[k])| == |vs[k]|;
      FullDrain(ws[k], applied[n..]);
      FullDrain(vs[k], other[m..]);
      DistinctByMultiset(ws[k], applied[n..]);
      SortedUnique(applied[n..], other[m..]);
      assert applied == applied[..n] + applied[n..] && other == other[..m] + other[m..];
    }
  }

  /** No window holds a transaction older than one of an earlier window. */
  ghost predicate WindowsOrdered(ws: seq<seq<Pending>>) {
    forall i, j, p, q | 0 <= i < j < |ws| && p in ws[i] && q in ws[j] :: NotAfter(p, q)
  }

  lemma {:induction false} FlattenMembers(ws: seq<seq<Pending>>, p: Pending)
    ensures p in Flatten(ws) <==> exists i :: 0 <= i < |ws| && p in ws[i]
    decreases |ws|
  {
    if ws == [] {
    } else {
      var k := |ws| - 1;
      FlattenMembers(ws[..k], p);
      if i :| 0 <= i < |ws| && p in ws[i] {
        assert i == k || p in ws[..k][i];
      }
      if j :| 0 <= j < |ws[..k]| && p in ws[..k][j] {
        assert p in ws[j];
      }
    }
  }

  lemma {:induction false} DrainsAllPermutes(ws: seq<seq<Pending>>, applied: seq<Pending>)
    requires DrainsAll(ws, applied)
    ensures multiset(applied) == multiset(Flatten(ws))
    decreases |ws|
  {
    if ws == [] {
    } else {
      var k, n := |ws| - 1, |applied| - |ws[|ws| - 1]|;
      DrainsAllPermutes(ws[..k], applied[..n]);
      FullDrain(ws[k], applied[n..]);
      assert applied == applied[..n] + applied[n..];
    }
  }

  lemma SortedConcat(ps: seq<Pending>, qs: seq<Pending>)
    ensures Sorted(ps + qs) <==>
            Sorted(ps) && Sorted(qs) && forall p, q | p in ps && q in qs :: NotAfter(p, q)
  {
    var rs := ps + qs;
    if Sorted(rs) {
      forall i, j | 0 <= i < |ps| && 0 <= j < |qs| ensures NotAfter(ps[i], qs[j]) {
        assert NotAfter(rs[i], rs[|ps| + j]);
      }
      forall i, j | 0 <= i < j < |ps| ensures NotAfter(ps[i], ps[j]) {
        assert NotAfter(rs[i], rs[j]);
      }
      forall i, j | 0 <= i < j < |qs| ensures NotAfter(qs[i], qs[j]) {
        assert NotAfter(rs[|ps| + i], rs[|ps| + j]);
      }
    }
  }

  /** The application order is chronological if and only if the windows are. */
  lemma {:induction false} ChronologicalIffWindowsOrdered(ws: seq<seq<Pending>>, applied: seq<Pending>)
    requires DrainsAll(ws, applied)
    ensures Sorted(applied) <==> WindowsOrdered(ws)
    decreases |ws|
  {
    if ws == [] {
    } else {
      var k, n := |ws| - 1, |applied| - |ws[|ws| - 1]|;
      var vs, a, d := ws[..k], applied[..n], applied[n..];
      ChronologicalIffWindowsOrdered(vs, a);
      DrainsAllPermutes(vs, a);
      FullDrain(ws[k], d);
      SortedConcat(a, d);
      assert applied == a + d;
      forall p ensures p in a <==> exists i :: 0 <= i < k && p in ws[i] {
        FlattenMembers(vs, p);
        assert p in a <==> p in multiset(a);
        assert forall i | 0 <= i < k :: vs[i] == ws[i];
      }
      forall q ensures q in d <==> q in ws[k] {
        assert q in d <==> q in multiset(d);
      }
      WindowsOrderedSnoc(ws);
    }
  }

  lemma WindowsOrderedSnoc(ws: seq<seq<Pending>>)
    requires ws != []
    ensures var k := |ws| - 1;
            WindowsOrdered(ws) <==>
            && WindowsOrdered(ws[..k])
            && forall i, p, q | 0 <= i < k && p in ws[i] && q in ws[k] :: NotAfter(p, q)
  {
    var k := |ws| - 1;
    if WindowsOrdered(ws) {
      forall i, j, p, q | 0 <= i < j < k && p in ws[..k][i] && q in ws[..k][j] ensures NotAfter(p, q) {
        assert p in ws[i] && q in ws[j];
      }
    }
    if WindowsOrdered(ws[..k]) {
      forall i, j, p, q | 0 <= i < j < k && p in ws[i] && q in ws[j] ensures NotAfter(p, q) {
        assert p in ws[..k][i] && q in ws[..k][j];
      }
    }
  }

  /**
   A shuffled arrival of an in-order stream is applied in the original order if and only if no
   transaction came after its window had been closed by a younger one.
   */
  lemma ShuffledArrival(ws: seq<seq<Pending>>, applied: seq<Pending>, stream: seq<Pending>)
    requires InOrder(stream) && multiset(stream) == multiset(Flatten(ws))
    requires DrainsAll(ws, applied)
    ensures applied == stream <==> WindowsOrdered(ws)
  {
    ChronologicalIffWindowsOrdered(ws, applied);
    DrainsAllPermutes(ws, applied);
    if WindowsOrdered(ws) {
      SortedUnique(stream, applied);
    }
  }
}
