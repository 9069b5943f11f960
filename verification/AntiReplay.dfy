/** Packet identifiers and the replay history (citadel_pqcrypto/src/replay_attack_container.rs). */
module AntiReplay {
  import opened Words
  import opened Finite

  const HISTORY_LEN: nat := 1024

  datatype History = History(base: nat, seen: set<nat>)
  {
    /** on_pid_received */
    function Received(pid: u64): (History, bool)
    {
      if pid in seen || pid + HISTORY_LEN < base then (this, false)
      else if |seen| >= HISTORY_LEN && base in seen then (History(base + 1, seen - {base} + {pid}), true)
      else (History(base, seen + {pid}), true)
    }
  }

  class AntiReplayAttackContainer {
    var base: nat
    var seen: set<nat>
    var counterOut: u64

    ghost function View(): History
      reads this
    {
      History(base, seen)
    }

    constructor ()
      ensures View() == History(0, {}) && counterOut == 0
    {
      base, seen, counterOut := 0, {}, 0;
    }

    method GetNextPid() returns (pid: u64)
      modifies this`counterOut
      ensures pid == old(counterOut) && counterOut == Succ64(old(counterOut))
    {
      pid := counterOut;
      counterOut := Succ64(counterOut);
    }

    method OnPidReceived(pid: u64) returns (accepted: bool)
      modifies this`base, this`seen
      ensures (View(), accepted) == old(View().Received(pid))
    {
      if pid in seen {
        return false;
      }
      var min := if base < HISTORY_LEN then 0 else base - HISTORY_LEN;
      if pid < min {
        return false;
      }
      if |seen| >= HISTORY_LEN {
        var lowest := base;
        if lowest in seen {
          seen := seen - {lowest};
          base := base + 1;
        }
      }
      seen := seen + {pid};
      return true;
    }

    method HasTrackedPackets() returns (tracked: bool)
      ensures tracked <==> counterOut != 0 || base != 0
    {
      return counterOut != 0 || base != 0;
    }

    method Reset()
      modifies this
      ensures View() == History(0, {}) && counterOut == 0
    {
      counterOut, base, seen := 0, 0, {};
    }
  }

  // ---- Any sequence of arrivals ----

  function After(pids: seq<u64>): History
    decreases |pids|
  {
    if pids == [] then History(0, {}) else After(pids[..|pids| - 1]).Received(pids[|pids| - 1]).0
  }

  lemma RemembersOneMore(h: History, pid: u64)
    ensures var h' := h.Received(pid).0; h'.seen + Range(h'.base) == h.seen + Range(h.base) + {pid}
  {
    var h' := h.Received(pid).0;
    forall p: nat
      ensures p in h'.seen + Range(h'.base) <==> p in h.seen + Range(h.base) + {pid}
    {
    }
  }

  /** Nothing is forgotten: what arrived is in the set, or lies below the base. */
  lemma {:induction false} HistoryRemembers(pids: seq<u64>)
    ensures var h := After(pids); Elements(pids) == h.seen + Range(h.base)
    decreases |pids|
  {
    if pids == [] {
      assert Elements(pids) == {};
    } else {
      var front, pid := pids[..|pids| - 1], pids[|pids| - 1];
      HistoryRemembers(front);
      RemembersOneMore(After(front), pid);
      ElementsSplit(pids);
    }
  }

  /**
   A new identifier is accepted in whatever order it comes. One seen before is accepted again exactly
   when it has left the set and the base has not moved more than HISTORY_LEN past it.
   */
  lemma {:induction false} AcceptedExactly(pids: seq<u64>, pid: u64)
    ensures var h := After(pids);
            h.Received(pid).1 <==> pid !in pids || (pid !in h.seen && h.base <= pid + HISTORY_LEN)
  {
    HistoryRemembers(pids);
    var h := After(pids);
    assert pid in Elements(pids) <==> pid in h.seen + Range(h.base);
  }

  lemma {:induction false} BaseNeverFalls(pids: seq<u64>, more: seq<u64>)
    ensures After(pids).base <= After(pids + more).base
    decreases |more|
  {
    if more == [] {
      assert pids + more == pids;
    } else {
      BaseNeverFalls(pids, more[..|more| - 1]);
      assert (pids + more)[..|pids + more| - 1] == pids + more[..|more| - 1];
    }
  }

  /** Once more than HISTORY_LEN below the base an identifier is refused for good, until a reset. */
  lemma {:induction false} RefusedForGood(pids: seq<u64>, more: seq<u64>, pid: u64)
    requires pid + HISTORY_LEN < After(pids).base
    ensures !After(pids + more).Received(pid).1
  {
    BaseNeverFalls(pids, more);
  }

  lemma {:induction false} FewIdentifiers(pids: seq<u64>)
    requires |Elements(pids)| <= HISTORY_LEN
    ensures After(pids) == History(0, Elements(pids))
    decreases |pids|
  {
    if pids == [] {
      assert Elements(pids) == {};
    } else {
      var front, pid := pids[..|pids| - 1], pids[|pids| - 1];
      assert Elements(pids) == Elements(front) + {pid};
      SubsetSize(Elements(front), Elements(pids));
      FewIdentifiers(front);
    }
  }

  /** As long as no more than HISTORY_LEN identifiers have arrived, no repetition is accepted. */
  lemma {:induction false} NoReplayAmongFew(pids: seq<u64>, pid: u64)
    requires |Elements(pids)| <= HISTORY_LEN
    ensures After(pids).Received(pid).1 <==> pid !in pids
  {
    FewIdentifiers(pids);
    assert pid in Elements(pids) <==> pid in pids;
  }

  function Upto(k: nat): seq<u64>
    requires k <= TWO64
  {
    seq(k, (i: int) requires 0 <= i < k => i)
  }

  function Between(a: nat, b: nat): set<nat>
    requires a <= b
  {
    Range(b) - Range(a)
  }

  lemma BetweenSize(a: nat, b: nat)
    requires a <= b
    ensures |Between(a, b)| == b - a
  {
    RangeSize(a);
    RangeSize(b);
    assert Range(b) == Between(a, b) + Range(a);
  }

  lemma BetweenGrows(a: nat, b: nat)
    requires a <= b
    ensures Between(a, b) + {b} == Between(a, b + 1)
    ensures a < b ==> a in Between(a, b) && Between(a, b) - {a} + {b} == Between(a + 1, b + 1)
    ensures b !in Between(a, b)
  {
  }

  /** The next identifier in order, with the history not yet full and with it full. */
  lemma NextInOrder(base: nat, k: u64)
    requires base <= k <= base + HISTORY_LEN && (base > 0 ==> k == base + HISTORY_LEN)
    ensures History(base, Between(base, k)).Received(k).0
            == if k < HISTORY_LEN then History(base, Between(base, k + 1)) else History(base + 1, Between(base + 1, k + 1))
  {
    BetweenSize(base, k);
    BetweenGrows(base, k);
  }

  lemma {:induction false} AfterUpto(k: nat)
    requires k < TWO64
    ensures After(Upto(k + 1)) == After(Upto(k)).Received(k).0
  {
    assert Upto(k + 1)[..k] == Upto(k);
  }

  lemma {:induction false} InOrderHistory(k: nat)
    requires k <= TWO64
    ensures var base := if k <= HISTORY_LEN then 0 else k - HISTORY_LEN;
            After(Upto(k)) == History(base, Between(base, k))
  {
    if k > 0 {
      InOrderHistory(k - 1);
      var base := if k - 1 <= HISTORY_LEN then 0 else k - 1 - HISTORY_LEN;
      NextInOrder(base, k - 1);
      AfterUpto(k - 1);
    } else {
      assert Between(0, 0) == {};
    }
  }

  /** After 0..k in order, p is accepted a second time exactly in the window behind the history. */
  lemma InOrderReplayWindow(k: nat, p: u64)
    requires p < k <= TWO64
    ensures After(Upto(k)).Received(p).1 <==> p + HISTORY_LEN < k <= p + 2 * HISTORY_LEN
  {
    InOrderHistory(k);
  }

  /** One identifier more than HISTORY_LEN is enough: then the first is accepted again. */
  lemma OldestAcceptedTwice()
    ensures 0 in Upto(HISTORY_LEN + 1) && After(Upto(HISTORY_LEN + 1)).Received(0).1
  {
    assert Upto(HISTORY_LEN + 1)[0] == 0;
    InOrderReplayWindow(HISTORY_LEN + 1, 0);
  }
}
