/** Packets of mixed levels through the layers of two ratchets that hold the same keys. */
module LayerTheorems {
  import opened Words
  import opened Bytes
  import opened Finite
  import opened AntiReplay
  import opened Layers

  ghost predicate AllFaithful(layers: seq<Layer>)
  {
    forall n :: 0 <= n < |layers| ==> Faithful(layers[n])
  }

  lemma FaithfulExists() returns (l: Layer)
    ensures Faithful(l)
  {
    l := Layer((h, p) => p, (h, c) => Some(c));
  }

  /** The histories after the identifiers of the first n layers came in. */
  function Noted(hist: seq<History>, pids: seq<u64>, n: nat): seq<History>
    requires n <= |pids| == |hist|
  {
    seq(|hist|, (k: int) requires 0 <= k < |hist| => if k < n then hist[k].Received(pids[k]).0 else hist[k])
  }

  lemma {:induction false} PidRead(body: seq<byte>, pid: u64)
    ensures var plain := body + BigEndian(pid, PID_LEN);
            && |plain| >= PID_LEN && plain[..|plain| - PID_LEN] == body && PidOf(plain[|plain| - PID_LEN..]) == pid
  {
    WordSizes();
    ValueOfBigEndian(pid, PID_LEN);
    var plain := body + BigEndian(pid, PID_LEN);
    assert plain[|plain| - PID_LEN..] == BigEndian(pid, PID_LEN);
  }

  ghost predicate Accepted(hist: seq<History>, pids: seq<u64>, n: nat)
  {
    n <= |hist| == |pids| && forall k :: 0 <= k < n ==> hist[k].Received(pids[k]).1
  }

  /** One layer opens what it sealed, and says whether the identifier is accepted. */
  lemma LayerOpens(layers: seq<Layer>, n: nat, header: seq<byte>, body: seq<byte>, pid: u64, hist: seq<History>)
    requires 0 < n <= |layers| == |hist| && Faithful(layers[n - 1])
    ensures var sealed := layers[n - 1].seal(header, body + BigEndian(pid, PID_LEN));
            var (h, accepted) := hist[n - 1].Received(pid);
            Opened(layers, n, header, sealed, hist)
            == if accepted then Opened(layers, n - 1, header, body, hist[n - 1 := h]) else (Err, hist[n - 1 := h])
  {
    PidRead(body, pid);
  }

  lemma NotedStep(hist: seq<History>, pids: seq<u64>, n: nat)
    requires 0 < n && Accepted(hist, pids, n)
    ensures var hist' := hist[n - 1 := hist[n - 1].Received(pids[n - 1]).0];
            Accepted(hist', pids, n - 1) && Noted(hist', pids, n - 1) == Noted(hist, pids, n)
  {
  }

  /** The payload comes back out of n layers, which leaves the histories `after`. */
  ghost predicate Passes(layers: seq<Layer>, n: nat, header: seq<byte>, payload: seq<byte>, pids: seq<u64>,
                         hist: seq<History>, after: seq<History>)
    requires n <= |layers| == |hist| == |pids|
  {
    Opened(layers, n, header, Sealed(layers, n, header, payload, pids), hist) == (Ok(payload), after)
  }

  lemma OneMoreOpens(layers: seq<Layer>, n: nat, header: seq<byte>, payload: seq<byte>, pids: seq<u64>,
                     hist: seq<History>, after: seq<History>)
    requires 0 < n <= |layers| == |hist| == |pids| && Faithful(layers[n - 1]) && hist[n - 1].Received(pids[n - 1]).1
    requires Passes(layers, n - 1, header, payload, pids, hist[n - 1 := hist[n - 1].Received(pids[n - 1]).0], after)
    ensures Passes(layers, n, header, payload, pids, hist, after)
  {
    LayerOpens(layers, n, header, Sealed(layers, n - 1, header, payload, pids), pids[n - 1], hist);
  }

  /** What the layers sealed they open, if every layer accepts its identifier. */
  lemma {:induction false} OpenedSealed(layers: seq<Layer>, n: nat, header: seq<byte>, payload: seq<byte>, pids: seq<u64>, hist: seq<History>)
    requires AllFaithful(layers) && n <= |layers| == |hist| && Accepted(hist, pids, n)
    ensures Passes(layers, n, header, payload, pids, hist, Noted(hist, pids, n))
  {
    if n == 0 {
      assert Noted(hist, pids, 0) == hist;
    } else {
      NotedStep(hist, pids, n);
      OpenedSealed(layers, n - 1, header, payload, pids, hist[n - 1 := hist[n - 1].Received(pids[n - 1]).0]);
      OneMoreOpens(layers, n, header, payload, pids, hist, Noted(hist, pids, n));
    }
  }

  datatype Item = Item(level: nat, header: seq<byte>, payload: seq<byte>)

  /** A packet protected with the counters `pids` comes to a receiver with the histories `hist`. */
  function Arrive(layers: seq<Layer>, item: Item, pids: seq<u64>, hist: seq<History>): (r: (Result<seq<byte>>, seq<History>))
    requires item.level < |layers| == |pids| == |hist|
    ensures |r.1| == |hist|
  {
    var n := item.level + 1;
    Opened(layers, n, item.header, Sealed(layers, n, item.header, item.payload, pids), hist)
  }

  lemma ArrivesIntact(layers: seq<Layer>, item: Item, pids: seq<u64>, hist: seq<History>)
    requires AllFaithful(layers) && item.level < |layers| == |hist| && Accepted(hist, pids, item.level + 1)
    ensures Arrive(layers, item, pids, hist) == (Ok(item.payload), Noted(hist, pids, item.level + 1))
  {
    OpenedSealed(layers, item.level + 1, item.header, item.payload, pids, hist);
  }

  // ---- A sender's packets ----

  predicate Fits(items: seq<Item>, layers: seq<Layer>)
  {
    |items| <= TWO64 && forall k :: 0 <= k < |items| ==> items[k].level < |layers|
  }

  /** The sender's counters when k packets have been protected. */
  function Counters(layers: seq<Layer>, items: seq<Item>, k: nat): (r: seq<u64>)
    requires Fits(items, layers) && k <= |items|
    ensures |r| == |layers|
  {
    if k == 0 then seq(|layers|, _ => 0) else Counted(Counters(layers, items, k - 1), items[k - 1].level + 1)
  }

  function Uses(items: seq<Item>, k: nat, n: nat): nat
    requires k <= |items|
  {
    if k == 0 then 0 else Uses(items, k - 1, n) + if items[k - 1].level >= n then 1 else 0
  }

  lemma {:induction false} UsesGrow(items: seq<Item>, j: nat, k: nat, n: nat)
    requires j <= k <= |items|
    ensures Uses(items, j, n) <= Uses(items, k, n) <= Uses(items, j, n) + k - j
    ensures j < k && items[j].level >= n ==> Uses(items, j, n) < Uses(items, k, n)
    decreases k
  {
    if j < k { UsesGrow(items, j, k - 1, n); }
  }

  /** Layer n numbers the packets that pass through it from 0 on. */
  lemma {:induction false} CountersAre(layers: seq<Layer>, items: seq<Item>, k: nat, n: nat)
    requires Fits(items, layers) && k < |items| && n < |layers|
    ensures Counters(layers, items, k)[n] == Uses(items, k, n)
  {
    if k > 0 {
      CountersAre(layers, items, k - 1, n);
      UsesGrow(items, 0, k, n);
    }
  }

  // ---- Deliveries in some order ----

  predicate InRange(ds: seq<nat>, bound: nat)
  {
    forall k :: 0 <= k < |ds| ==> ds[k] < bound
  }

  function Delivered(layers: seq<Layer>, items: seq<Item>, hist: seq<History>, d: nat): (r: (Result<seq<byte>>, seq<History>))
    requires Fits(items, layers) && d < |items| && |hist| == |layers|
    ensures |r.1| == |layers|
  {
    Arrive(layers, items[d], Counters(layers, items, d), hist)
  }

  /** The receiver's histories after the packets numbered ds. */
  function Histories(layers: seq<Layer>, items: seq<Item>, ds: seq<nat>): (r: seq<History>)
    requires Fits(items, layers) && InRange(ds, |items|)
    ensures |r| == |layers|
    decreases |ds|
  {
    if ds == [] then seq(|layers|, _ => History(0, {}))
    else Delivered(layers, items, Histories(layers, items, ds[..|ds| - 1]), ds[|ds| - 1]).1
  }

  /** The identifiers layer n sees in those deliveries. */
  function Pids(items: seq<Item>, ds: seq<nat>, n: nat): seq<u64>
    requires |items| <= TWO64 && InRange(ds, |items|)
    decreases |ds|
  {
    if ds == [] then [] else
    var d := ds[|ds| - 1];
    UsesGrow(items, 0, d, n);
    Pids(items, ds[..|ds| - 1], n) + if items[d].level >= n then [Uses(items, d, n)] else []
  }

  lemma {:induction false} PidsOf(items: seq<Item>, ds: seq<nat>, n: nat, d: nat)
    requires |items| <= TWO64 && InRange(ds, |items|) && d < |items| && items[d].level >= n
    ensures Uses(items, d, n) in Pids(items, ds, n) <==> d in ds
    decreases |ds|
  {
    if ds != [] {
      var front, e := ds[..|ds| - 1], ds[|ds| - 1];
      PidsOf(items, front, n, d);
      if d < e { UsesGrow(items, d, e, n); }
      if e < d { UsesGrow(items, e, d, n); }
      assert ds == front + [e];
    }
  }

  predicate Once(ds: seq<nat>)
  {
    forall j, k :: 0 <= j < k < |ds| ==> ds[j] != ds[k]
  }

  /** Every layer's history is that of the identifiers it saw. */
  ghost predicate HistoriesAre(layers: seq<Layer>, items: seq<Item>, ds: seq<nat>, hist: seq<History>)
    requires |items| <= TWO64 && InRange(ds, |items|)
  {
    |hist| == |layers| && forall n :: 0 <= n < |layers| ==> hist[n] == After(Pids(items, ds, n))
  }

  lemma {:induction false} NewPidAccepted(layers: seq<Layer>, items: seq<Item>, ds: seq<nat>, d: nat, n: nat)
    requires Fits(items, layers) && InRange(ds, |items|) && d < |items| && d !in ds && n <= items[d].level
    ensures After(Pids(items, ds, n)).Received(Counters(layers, items, d)[n]).1
  {
    CountersAre(layers, items, d, n);
    PidsOf(items, ds, n, d);
    AcceptedExactly(Pids(items, ds, n), Counters(layers, items, d)[n]);
  }

  lemma {:induction false} NewPidsAccepted(layers: seq<Layer>, items: seq<Item>, ds: seq<nat>, d: nat, hist: seq<History>)
    requires Fits(items, layers) && InRange(ds, |items|) && d < |items| && d !in ds
    requires HistoriesAre(layers, items, ds, hist)
    ensures Accepted(hist, Counters(layers, items, d), items[d].level + 1)
  {
    forall k | 0 <= k < items[d].level + 1
      ensures hist[k].Received(Counters(layers, items, d)[k]).1
    {
      NewPidAccepted(layers, items, ds, d, k);
    }
  }

  lemma {:induction false} NewPacketOpens(layers: seq<Layer>, items: seq<Item>, ds: seq<nat>, d: nat, hist: seq<History>)
    requires AllFaithful(layers) && Fits(items, layers) && InRange(ds, |items|) && d < |items| && d !in ds
    requires HistoriesAre(layers, items, ds, hist)
    ensures Delivered(layers, items, hist, d) == (Ok(items[d].payload), Noted(hist, Counters(layers, items, d), items[d].level + 1))
  {
    NewPidsAccepted(layers, items, ds, d, hist);
    ArrivesIntact(layers, items[d], Counters(layers, items, d), hist);
  }

  lemma {:induction false} AfterOneMore(pids: seq<u64>, pid: u64)
    ensures After(pids + [pid]) == After(pids).Received(pid).0
  {
    assert (pids + [pid])[..|pids|] == pids;
  }

  lemma {:induction false} PidsOneMore(items: seq<Item>, front: seq<nat>, d: nat, n: nat)
    requires |items| <= TWO64 && InRange(front, |items|) && d < |items|
    ensures InRange(front + [d], |items|) && Uses(items, d, n) <= d
    ensures items[d].level >= n ==> Pids(items, front + [d], n) == Pids(items, front, n) + [Uses(items, d, n)]
    ensures items[d].level < n ==> Pids(items, front + [d], n) == Pids(items, front, n)
  {
    UsesGrow(items, 0, d, n);
    assert (front + [d])[..|front|] == front;
  }

  lemma {:induction false} HistoryMoves(items: seq<Item>, front: seq<nat>, d: nat, n: nat, pid: u64)
    requires |items| <= TWO64 && InRange(front, |items|) && d < |items| && pid == Uses(items, d, n)
    ensures InRange(front + [d], |items|)
    ensures var h := After(Pids(items, front, n));
            After(Pids(items, front + [d], n)) == if n <= items[d].level then h.Received(pid).0 else h
  {
    PidsOneMore(items, front, d, n);
    if items[d].level >= n {
      AfterOneMore(Pids(items, front, n), pid);
    }
  }

  lemma {:induction false} HistoriesMove(layers: seq<Layer>, items: seq<Item>, front: seq<nat>, d: nat, hist: seq<History>)
    requires Fits(items, layers) && InRange(front, |items|) && d < |items| && HistoriesAre(layers, items, front, hist)
    ensures InRange(front + [d], |items|)
    ensures HistoriesAre(layers, items, front + [d], Noted(hist, Counters(layers, items, d), items[d].level + 1))
  {
    forall n | 0 <= n < |layers|
      ensures Noted(hist, Counters(layers, items, d), items[d].level + 1)[n] == After(Pids(items, front + [d], n))
    {
      CountersAre(layers, items, d, n);
      HistoryMoves(items, front, d, n, Counters(layers, items, d)[n]);
    }
  }

  lemma {:induction false} HistoriesHold(layers: seq<Layer>, items: seq<Item>, ds: seq<nat>)
    requires AllFaithful(layers) && Fits(items, layers) && InRange(ds, |items|) && Once(ds)
    ensures HistoriesAre(layers, items, ds, Histories(layers, items, ds))
    decreases |ds|
  {
    if ds != [] {
      var front, d := ds[..|ds| - 1], ds[|ds| - 1];
      HistoriesHold(layers, items, front);
      var hist := Histories(layers, items, front);
      NewPacketOpens(layers, items, front, d, hist);
      HistoriesMove(layers, items, front, d, hist);
      assert front + [d] == ds;
    }
  }

  // ---- Deliveries with repetitions ----

  /** A layer takes note of the identifier or stays as it was. */
  ghost predicate Moved(h: History, h': History, pid: u64)
  {
    h' == h || h' == h.Received(pid).0
  }

  /** Whatever the histories, a packet moves no layer it was not sealed with, and each other one at most once. */
  lemma {:induction false} OpenedMoves(layers: seq<Layer>, n: nat, header: seq<byte>, payload: seq<byte>, pids: seq<u64>,
                                       hist: seq<History>, k: nat)
    requires AllFaithful(layers) && n <= |layers| == |hist| == |pids| && k < |layers|
    ensures var hist' := Opened(layers, n, header, Sealed(layers, n, header, payload, pids), hist).1;
            if k < n then Moved(hist[k], hist'[k], pids[k]) else hist'[k] == hist[k]
  {
    if n > 0 {
      var (h, accepted) := hist[n - 1].Received(pids[n - 1]);
      LayerOpens(layers, n, header, Sealed(layers, n - 1, header, payload, pids), pids[n - 1], hist);
      if accepted { OpenedMoves(layers, n - 1, header, payload, pids, hist[n - 1 := h], k); }
    }
  }

  /** The payload if every one of the n layers accepts its identifier, else an error. */
  ghost function Verdict(hist: seq<History>, pids: seq<u64>, n: nat, payload: seq<byte>): Result<seq<byte>>
  {
    if Accepted(hist, pids, n) then Ok(payload) else Err
  }

  ghost predicate Decides(layers: seq<Layer>, n: nat, header: seq<byte>, payload: seq<byte>, pids: seq<u64>,
                          hist: seq<History>, verdict: Result<seq<byte>>)
    requires n <= |layers| == |hist| == |pids|
  {
    Opened(layers, n, header, Sealed(layers, n, header, payload, pids), hist).0 == verdict
  }

  lemma OneMoreDecides(layers: seq<Layer>, n: nat, header: seq<byte>, payload: seq<byte>, pids: seq<u64>,
                       hist: seq<History>, verdict: Result<seq<byte>>)
    requires 0 < n <= |layers| == |hist| == |pids| && Faithful(layers[n - 1])
    requires var (h, accepted) := hist[n - 1].Received(pids[n - 1]);
             if accepted then Decides(layers, n - 1, header, payload, pids, hist[n - 1 := h], verdict) else verdict == Err
    ensures Decides(layers, n, header, payload, pids, hist, verdict)
  {
    LayerOpens(layers, n, header, Sealed(layers, n - 1, header, payload, pids), pids[n - 1], hist);
  }

  lemma {:induction false} OpensExactly(layers: seq<Layer>, n: nat, header: seq<byte>, payload: seq<byte>, pids: seq<u64>, hist: seq<History>)
    requires AllFaithful(layers) && n <= |layers| == |hist| == |pids|
    ensures Decides(layers, n, header, payload, pids, hist, Verdict(hist, pids, n, payload))
  {
    if n > 0 {
      VerdictBelow(hist, pids, n, payload);
      var (h, accepted) := hist[n - 1].Received(pids[n - 1]);
      if accepted { OpensExactly(layers, n - 1, header, payload, pids, hist[n - 1 := h]); }
      OneMoreDecides(layers, n, header, payload, pids, hist, Verdict(hist, pids, n, payload));
    }
  }

  lemma VerdictBelow(hist: seq<History>, pids: seq<u64>, n: nat, payload: seq<byte>)
    requires 0 < n <= |hist| == |pids|
    ensures var (h, accepted) := hist[n - 1].Received(pids[n - 1]);
            Verdict(hist, pids, n, payload) == if accepted then Verdict(hist[n - 1 := h], pids, n - 1, payload) else Err
  {
    var (h, accepted) := hist[n - 1].Received(pids[n - 1]);
    if accepted { AcceptedBelow(hist, pids, n, h); }
  }

  lemma AcceptedBelow(hist: seq<History>, pids: seq<u64>, n: nat, h: History)
    requires 0 < n <= |hist| == |pids| && hist[n - 1].Received(pids[n - 1]).1
    ensures Accepted(hist[n - 1 := h], pids, n - 1) <==> Accepted(hist, pids, n)
  {
    var hist' := hist[n - 1 := h];
    assert forall k :: 0 <= k < n - 1 ==> hist'[k] == hist[k];
    if Accepted(hist', pids, n - 1) {
      forall k | 0 <= k < n
        ensures hist[k].Received(pids[k]).1
      {
        if k < n - 1 { assert hist'[k].Received(pids[k]).1; }
      }
    }
  }

  /** A packet is taken, the first time or again, if and only if every layer accepts its identifier. */
  lemma {:induction false} TakenExactly(layers: seq<Layer>, items: seq<Item>, hist: seq<History>, d: nat)
    requires AllFaithful(layers) && Fits(items, layers) && d < |items| && |hist| == |layers|
    ensures Delivered(layers, items, hist, d).0
            == Verdict(hist, Counters(layers, items, d), items[d].level + 1, items[d].payload)
  {
    ArrivesExactly(layers, items[d], Counters(layers, items, d), hist);
  }

  lemma ArrivesExactly(layers: seq<Layer>, item: Item, pids: seq<u64>, hist: seq<History>)
    requires AllFaithful(layers) && item.level < |layers| == |hist| == |pids|
    ensures Arrive(layers, item, pids, hist).0 == Verdict(hist, pids, item.level + 1, item.payload)
  {
    OpensExactly(layers, item.level + 1, item.header, item.payload, pids, hist);
  }

  /** A history of these identifiers, some of them perhaps several times. */
  ghost predicate Saw(h: History, pids: seq<u64>)
  {
    exists q: seq<u64> :: After(q) == h && Elements(q) == Elements(pids)
  }

  lemma {:induction false} SawOneMore(h: History, pids: seq<u64>, pid: u64)
    requires Saw(h, pids)
    ensures Saw(h.Received(pid).0, pids + [pid])
  {
    var q: seq<u64> :| After(q) == h && Elements(q) == Elements(pids);
    AfterOneMore(q, pid);
    assert Elements(q + [pid]) == Elements(q) + {pid} && Elements(pids + [pid]) == Elements(pids) + {pid};
  }

  lemma {:induction false} SawAgain(h: History, pids: seq<u64>, pid: u64)
    requires Saw(h, pids) && pid in pids
    ensures Saw(h, pids + [pid])
  {
    var q: seq<u64> :| After(q) == h && Elements(q) == Elements(pids);
    assert Elements(pids + [pid]) == Elements(pids);
  }

  lemma {:induction false} UnseenAccepted(h: History, pids: seq<u64>, pid: u64)
    requires Saw(h, pids) && pid !in pids
    ensures h.Received(pid).1
  {
    var q: seq<u64> :| After(q) == h && Elements(q) == Elements(pids);
    assert pid !in Elements(pids);
    AcceptedExactly(q, pid);
  }

  lemma {:induction false} SeenAmongFew(h: History, pids: seq<u64>, pid: u64)
    requires Saw(h, pids) && pid in pids && |Elements(pids)| <= HISTORY_LEN
    ensures !h.Received(pid).1
  {
    var q: seq<u64> :| After(q) == h && Elements(q) == Elements(pids);
    assert pid in Elements(pids);
    NoReplayAmongFew(q, pid);
  }

  ghost predicate AllSaw(layers: seq<Layer>, items: seq<Item>, ds: seq<nat>, hist: seq<History>)
    requires |items| <= TWO64 && InRange(ds, |items|)
  {
    |hist| == |layers| && forall n :: 0 <= n < |layers| ==> Saw(hist[n], Pids(items, ds, n))
  }

  lemma {:induction false} UnseenTaken(layers: seq<Layer>, items: seq<Item>, ds: seq<nat>, d: nat, hist: seq<History>)
    requires AllFaithful(layers) && Fits(items, layers) && InRange(ds, |items|) && d < |items| && d !in ds
    requires AllSaw(layers, items, ds, hist)
    ensures Delivered(layers, items, hist, d) == (Ok(items[d].payload), Noted(hist, Counters(layers, items, d), items[d].level + 1))
  {
    forall n | 0 <= n < items[d].level + 1
      ensures hist[n].Received(Counters(layers, items, d)[n]).1
    {
      CountersAre(layers, items, d, n);
      PidsOf(items, ds, n, d);
      UnseenAccepted(hist[n], Pids(items, ds, n), Counters(layers, items, d)[n]);
    }
    ArrivesIntact(layers, items[d], Counters(layers, items, d), hist);
  }

  /** Layer n after one more delivery, of a new packet or of an old one. */
  lemma {:induction false} LayerSaw(layers: seq<Layer>, items: seq<Item>, ds: seq<nat>, d: nat, hist: seq<History>, n: nat)
    requires AllFaithful(layers) && Fits(items, layers) && InRange(ds, |items|) && d < |items| && n < |layers|
    requires AllSaw(layers, items, ds, hist)
    ensures InRange(ds + [d], |items|)
    ensures Saw(Delivered(layers, items, hist, d).1[n], Pids(items, ds + [d], n))
  {
    var pid, h' := Counters(layers, items, d)[n], Delivered(layers, items, hist, d).1[n];
    PidsOneMore(items, ds, d, n);
    CountersAre(layers, items, d, n);
    DeliveredMoves(layers, items, ds, d, hist, n);
    if items[d].level >= n {
      if d in ds { PidsOf(items, ds, n, d); }
      SawMoved(hist[n], h', Pids(items, ds, n), pid);
    }
  }

  lemma {:induction false} SawMoved(h: History, h': History, pids: seq<u64>, pid: u64)
    requires Saw(h, pids) && Moved(h, h', pid) && (pid in pids || h' == h.Received(pid).0)
    ensures Saw(h', pids + [pid])
  {
    if h' == h.Received(pid).0 { SawOneMore(h, pids, pid); } else { SawAgain(h, pids, pid); }
  }

  lemma {:induction false} DeliveredMoves(layers: seq<Layer>, items: seq<Item>, ds: seq<nat>, d: nat, hist: seq<History>, n: nat)
    requires AllFaithful(layers) && Fits(items, layers) && InRange(ds, |items|) && d < |items| && n < |layers|
    requires AllSaw(layers, items, ds, hist)
    ensures var h, h' := hist[n], Delivered(layers, items, hist, d).1[n];
            var pid := Counters(layers, items, d)[n];
            if n > items[d].level then h' == h else Moved(h, h', pid) && (d !in ds ==> h' == h.Received(pid).0)
  {
    OpenedMoves(layers, items[d].level + 1, items[d].header, items[d].payload, Counters(layers, items, d), hist, n);
    if d !in ds { UnseenTaken(layers, items, ds, d, hist); }
  }

  lemma {:induction false} HistoriesSaw(layers: seq<Layer>, items: seq<Item>, ds: seq<nat>)
    requires AllFaithful(layers) && Fits(items, layers) && InRange(ds, |items|)
    ensures AllSaw(layers, items, ds, Histories(layers, items, ds))
    decreases |ds|
  {
    forall n | 0 <= n < |layers|
      ensures Saw(Histories(layers, items, ds)[n], Pids(items, ds, n))
    {
      if ds == [] {
        assert After([]) == History(0, {});
      } else {
        var front, d := ds[..|ds| - 1], ds[|ds| - 1];
        HistoriesSaw(layers, items, front);
        LayerSaw(layers, items, front, d, Histories(layers, items, front), n);
        assert front + [d] == ds;
      }
    }
  }

  /**
   Whatever the levels, in whatever order packets come and however often others have come before, each
   opens to its payload the first time.
   */
  lemma {:induction false} AnyOrderDelivery(layers: seq<Layer>, items: seq<Item>, ds: seq<nat>, d: nat)
    requires AllFaithful(layers) && Fits(items, layers) && InRange(ds, |items|) && d < |items| && d !in ds
    ensures Delivered(layers, items, Histories(layers, items, ds), d).0 == Ok(items[d].payload)
  {
    HistoriesSaw(layers, items, ds);
    UnseenTaken(layers, items, ds, d, Histories(layers, items, ds));
  }

  lemma FewMore(pids: seq<nat>, front: seq<nat>, pid: nat, d: nat)
    requires |Elements(pids)| <= |Elements(front)|
    ensures |Elements(pids)| <= |Elements(front + [d])|
    ensures (d in front ==> pid in pids) ==> |Elements(pids + [pid])| <= |Elements(front + [d])|
  {
    assert Elements(front + [d]) == Elements(front) + {d} && Elements(pids + [pid]) == Elements(pids) + {pid};
    SubsetSize(Elements(front), Elements(front + [d]));
    if d in front && pid in pids { assert Elements(pids + [pid]) == Elements(pids); }
  }

  lemma {:induction false} FewPids(items: seq<Item>, ds: seq<nat>, n: nat)
    requires |items| <= TWO64 && InRange(ds, |items|)
    ensures |Elements(Pids(items, ds, n))| <= |Elements(ds)|
    decreases |ds|
  {
    if ds == [] {
      assert Elements(Pids(items, ds, n)) == {};
    } else {
      var front, d := ds[..|ds| - 1], ds[|ds| - 1];
      FewPids(items, front, n);
      PidsOneMore(items, front, d, n);
      assert front + [d] == ds;
      if items[d].level >= n {
        PidsOf(items, front, n, d);
        FewMore(Pids(items, front, n), front, Uses(items, d, n), d);
      } else {
        FewMore(Pids(items, front, n), front, 0, d);
      }
    }
  }

  /** An identifier the outermost layer refuses is as far as it gets. */
  lemma RefusedAtTop(layers: seq<Layer>, item: Item, pids: seq<u64>, hist: seq<History>)
    requires AllFaithful(layers) && item.level < |layers| == |hist| == |pids|
    requires !hist[item.level].Received(pids[item.level]).1
    ensures Arrive(layers, item, pids, hist) == (Err, hist)
  {
    var n := item.level;
    LayerOpens(layers, n + 1, item.header, Sealed(layers, n, item.header, item.payload, pids), pids[n], hist);
    assert hist[n := hist[n]] == hist;
  }

  /** Until more than HISTORY_LEN different packets are in, one that comes again is refused and changes nothing. */
  lemma {:induction false} RepetitionRefused(layers: seq<Layer>, items: seq<Item>, ds: seq<nat>, d: nat)
    requires AllFaithful(layers) && Fits(items, layers) && InRange(ds, |items|)
    requires d in ds && |Elements(ds)| <= HISTORY_LEN
    ensures Delivered(layers, items, Histories(layers, items, ds), d) == (Err, Histories(layers, items, ds))
  {
    var n := items[d].level;
    HistoriesSaw(layers, items, ds);
    CountersAre(layers, items, d, n);
    PidsOf(items, ds, n, d);
    FewPids(items, ds, n);
    SeenAmongFew(Histories(layers, items, ds)[n], Pids(items, ds, n), Counters(layers, items, d)[n]);
    RefusedAtTop(layers, items[d], Counters(layers, items, d), Histories(layers, items, ds));
  }

  // ---- Deliveries in order ----

  function First(k: nat): (ds: seq<nat>)
    ensures |ds| == k && forall i :: 0 <= i < k ==> ds[i] == i
  {
    seq<nat>(k, (i: int) requires 0 <= i < k => i)
  }

  lemma FirstNext(k: nat)
    ensures First(k + 1) == First(k) + [k]
  {
  }

  lemma UptoNext(k: nat)
    requires k < TWO64
    ensures Upto(k + 1) == Upto(k) + [k]
  {
  }

  lemma {:induction false} NextPidInOrder(items: seq<Item>, front: seq<nat>, k: nat, n: nat)
    requires k < |items| <= TWO64 && InRange(front, |items|) && Uses(items, k, n) <= k
    requires Pids(items, front, n) == Upto(Uses(items, k, n))
    ensures InRange(front + [k], |items|) && Uses(items, k + 1, n) <= k + 1
    ensures Pids(items, front + [k], n) == Upto(Uses(items, k + 1, n))
  {
    PidsOneMore(items, front, k, n);
    UptoNext(Uses(items, k, n));
  }

  /** In order, each layer sees its identifiers from 0 on without gap. */
  lemma {:induction false} PidsInOrder(items: seq<Item>, k: nat, n: nat)
    requires k <= |items| <= TWO64
    ensures InRange(First(k), |items|) && Uses(items, k, n) <= k
    ensures Pids(items, First(k), n) == Upto(Uses(items, k, n))
  {
    UsesGrow(items, 0, k, n);
    if k > 0 {
      PidsInOrder(items, k - 1, n);
      FirstNext(k - 1);
      NextPidInOrder(items, First(k - 1), k - 1, n);
    }
  }

  /** Layer n would accept packet d a second time. */
  ghost predicate InWindow(items: seq<Item>, k: nat, d: nat, n: nat)
    requires d <= |items| && k <= |items|
  {
    Uses(items, d, n) + HISTORY_LEN < Uses(items, k, n) <= Uses(items, d, n) + 2 * HISTORY_LEN
  }

  lemma {:induction false} LayerReplays(layers: seq<Layer>, items: seq<Item>, k: nat, d: nat, n: nat)
    requires Fits(items, layers) && d < k <= |items| && n <= items[d].level
    ensures Uses(items, k, n) <= k && Uses(items, d, n) < TWO64
    ensures After(Upto(Uses(items, k, n))).Received(Counters(layers, items, d)[n]).1 <==> InWindow(items, k, d, n)
  {
    CountersAre(layers, items, d, n);
    UsesGrow(items, 0, k, n);
    UsesGrow(items, d, k, n);
    InOrderReplayWindow(Uses(items, k, n), Uses(items, d, n));
  }

  /**
   After the first k packets in order, whatever their levels, packet d is taken again if and only if in
   each of its layers it lies in the window behind the history; a layer counts the packets that reach it.
   */
  lemma {:induction false} InOrderPacketReplay(layers: seq<Layer>, items: seq<Item>, k: nat, d: nat)
    requires AllFaithful(layers) && Fits(items, layers) && d < k <= |items|
    ensures InRange(First(k), |items|)
    ensures Delivered(layers, items, Histories(layers, items, First(k)), d).0.Ok?
            <==> forall n :: 0 <= n <= items[d].level ==> InWindow(items, k, d, n)
  {
    var pids := Counters(layers, items, d);
    PidsInOrder(items, k, 0);
    HistoriesHold(layers, items, First(k));
    var hist := Histories(layers, items, First(k));
    TakenExactly(layers, items, hist, d);
    forall n | 0 <= n <= items[d].level
      ensures hist[n].Received(pids[n]).1 <==> InWindow(items, k, d, n)
    {
      PidsInOrder(items, k, n);
      LayerReplays(layers, items, k, d, n);
    }
  }

  lemma {:induction false} UsesOfOneLevel(items: seq<Item>, k: nat, level: nat, n: nat)
    requires k <= |items| && n <= level && forall i :: 0 <= i < |items| ==> items[i].level == level
    ensures Uses(items, k, n) == k
  {
    if k > 0 { UsesOfOneLevel(items, k - 1, level, n); }
  }

  /** With one level throughout the window is the same in all layers. */
  lemma {:induction false} OneLevelReplay(layers: seq<Layer>, items: seq<Item>, k: nat, d: nat, level: nat)
    requires AllFaithful(layers) && Fits(items, layers) && d < k <= |items|
    requires forall i :: 0 <= i < |items| ==> items[i].level == level
    ensures InRange(First(k), |items|)
    ensures Delivered(layers, items, Histories(layers, items, First(k)), d).0.Ok?
            <==> d + HISTORY_LEN < k <= d + 2 * HISTORY_LEN
  {
    InOrderPacketReplay(layers, items, k, d);
    forall n | 0 <= n <= level
      ensures Uses(items, d, n) == d && Uses(items, k, n) == k
    {
      UsesOfOneLevel(items, d, level, n);
      UsesOfOneLevel(items, k, level, n);
    }
    assert InWindow(items, k, d, 0) <==> d + HISTORY_LEN < k <= d + 2 * HISTORY_LEN;
  }
}
