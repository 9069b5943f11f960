/** What the rekey protocol guarantees over whole runs: all of it until a stray TRUNCATE, and no longer. */
module RekeyRuns {
  import opened Words
  import opened Ratchets
  import opened Toolsets
  import opened SessionCrypto
  import opened RekeyModel
  import opened RekeyInvariant
  import opened RekeyHandshake
  import opened RekeySteps
  import opened RekeyTheorems
  import opened RekeyStray

  /** The status of a run of a new session without strays. */
  lemma {:induction false} RunStatus(initCid: u64, respCid: u64, acts: seq<Action>) returns (st: Status)
    requires StrayFree(NewSystem(initCid, respCid), acts)
    ensures InStatus(Run(NewSystem(initCid, respCid), acts), st)
  {
    StartInv(initCid, respCid);
    st := StrayFreeStatus(NewSystem(initCid, respCid), acts);
  }

  /** No step of the run reports a fault. */
  predicate Faultless(s: System, acts: seq<Action>)
    decreases |acts|
  {
    acts == [] ||
    var before, a := acts[..|acts| - 1], acts[|acts| - 1];
    Faultless(s, before) && Step(Run(s, before), a).1 == {}
  }

  /**
   Over every run: no packet names an unknown version, every commit and deregistration succeeds, every
   unlock finds the flag set, every answer its constructor and the usable ratchet is always there, if
   and only if no TRUNCATE is handed to an endpoint that does not hold Bob's lock.
   */
  lemma {:induction false} FaultlessExactlyWithoutStrays(initCid: u64, respCid: u64, acts: seq<Action>)
    ensures Faultless(NewSystem(initCid, respCid), acts) <==> StrayFree(NewSystem(initCid, respCid), acts)
    decreases |acts|
  {
    if acts != [] {
      var s, before, a := NewSystem(initCid, respCid), acts[..|acts| - 1], acts[|acts| - 1];
      FaultlessExactlyWithoutStrays(initCid, respCid, before);
      if StrayFree(s, before) {
        var st := RunStatus(initCid, respCid, before);
        if Stray(Run(s, before), a) {
          StrayBreaks(Run(s, before), st, a);
        } else {
          var st' := StatusStep(Run(s, before), st, a);
        }
      }
    }
  }

  lemma StrayDecipherable(s: System, k: nat, ph: Phase)
    requires Tainted(s, k, ph)
    ensures Decipherable(s, Initiator, k)
  {
    StrayReach(s, k, ph);
    SharedBy(s.init.session.window, s.resp.session.window, s.toInit[k].version);
  }

  lemma OthersDecipherable(s: System, at: nat, ph: Phase, y: Side, k: nat)
    requires Tainted(s, at, ph) && k < |s.Inbox(y)| && !(y == Initiator && k == at)
    ensures Decipherable(s, y, k)
  {
    PacketDecipherable(Without(s, at), ph, y, if y == Initiator && k > at then k - 1 else k);
  }

  lemma StatusDecipherable(s: System, st: Status, y: Side, k: nat)
    requires InStatus(s, st) && k < |s.Inbox(y)|
    ensures Decipherable(s, y, k)
  {
    match st
    case Sound(ph) => PacketDecipherable(s, ph, y, k);
    case Threatened(at, ph) =>
      if y == Initiator && k == at { StrayDecipherable(s, k, ph); } else { OthersDecipherable(s, at, ph, y, k); }
  }

  /**
   Whatever the interleaving of messages, rekeys and deliveries, until a stray the version on every packet
   in flight is in the receiver's window and names the same key there as at the sender.
   */
  lemma {:induction false} InFlightPacketsDecipherable(initCid: u64, respCid: u64, acts: seq<Action>, y: Side, k: nat)
    requires StrayFree(NewSystem(initCid, respCid), acts)
    requires k < |Run(NewSystem(initCid, respCid), acts).Inbox(y)|
    ensures Decipherable(Run(NewSystem(initCid, respCid), acts), y, k)
  {
    var st := RunStatus(initCid, respCid, acts);
    StatusDecipherable(Run(NewSystem(initCid, respCid), acts), st, y, k);
  }

  /** What the proposer does with the answer to its proposal: one version more, and a TRUNCATE. */
  ghost predicate Truncates(e: Endpoint, r: Packet, o: Outcome)
    requires r.Reply?
  {
    var w' := o.end.session.window;
    && w'.mostRecent == Succ32(e.session.window.mostRecent) && o.end.pending == map[]
    && o.sent == [Truncate(if r.path == Rekey then w'.mostRecent else r.version, r.status.RequiresTruncation())]
  }

  lemma AnswerPhase(c: System, ph: Phase, y: Side)
    requires InPhase(c, ph) && c.Inbox(y) != [] && c.Inbox(y)[0].Reply? && c.Inbox(y)[0].status.Transfer?
    ensures ph.BobCommitted? && ph.x == y && ph.left != Unanswered
  {
  }

  lemma SoundTruncates(s: System, ph: Phase, y: Side, seed: nat)
    requires Inv(s, ph) && s.Inbox(y) != [] && s.Inbox(y)[0].Reply? && s.Inbox(y)[0].status.Transfer?
    ensures Truncates(s.End(y), s.Inbox(y)[0], Receive(s.End(y), s.Inbox(y)[0], seed))
  {
    CoreHead(s, y);
    AnswerPhase(Core(s), ph, y);
    CoreTruncates(Core(s), y, ph.left, seed);
  }

  lemma CoreTruncates(c: System, x: Side, left: Leftover, seed: nat)
    requires Windows(c) && InBobCommitted(c, x, left) && left != Unanswered
    ensures Truncates(c.End(x), c.Inbox(x)[0], Receive(c.End(x), c.Inbox(x)[0], seed))
  {
    AnswerStep(c, x, left, seed);
    SentIs(c, x, seed, Concluded(c, x));
  }

  /** The outcome of a delivery, read off the state it leads to. */
  lemma SentIs(c: System, y: Side, seed: nat, c': System)
    requires c.Inbox(y) != [] && Step(c, Deliver(y, seed)).0 == c'
    ensures var o := Receive(c.End(y), c.Inbox(y)[0], seed);
            o.end == c'.End(y) && c'.Inbox(y.Peer())[|c.Inbox(y.Peer())|..] == o.sent
  {
  }

  lemma {:induction false} StatusTruncates(s: System, st: Status, y: Side, seed: nat)
    requires InStatus(s, st) && s.Inbox(y) != [] && s.Inbox(y)[0].Reply? && s.Inbox(y)[0].status.Transfer?
    ensures Truncates(s.End(y), s.Inbox(y)[0], Receive(s.End(y), s.Inbox(y)[0], seed))
  {
    match st
    case Sound(ph) => SoundTruncates(s, ph, y, seed);
    case Threatened(k, ph) =>
      HeadWithout(s, k, y);
      SoundTruncates(Without(s, k), ph, y, seed);
  }

  /**
   Whenever, before a stray, the answer to a proposal is taken, what is appended to the other stream is one
   TRUNCATE, under the proposer's new version if it was a rekey and under the answer's if it rode on a message.
   */
  lemma {:induction false} AnswerTruncates(initCid: u64, respCid: u64, acts: seq<Action>, y: Side, seed: nat)
    requires StrayFree(NewSystem(initCid, respCid), acts)
    requires var s := Run(NewSystem(initCid, respCid), acts);
             s.Inbox(y) != [] && s.Inbox(y)[0].Reply? && s.Inbox(y)[0].status.Transfer?
    ensures var s := Run(NewSystem(initCid, respCid), acts);
            var s', r := Step(s, Deliver(y, seed)).0, s.Inbox(y)[0];
            var w' := s'.End(y).session.window;
            && w'.mostRecent == Succ32(s.End(y).session.window.mostRecent)
            && s'.Inbox(y.Peer()) == s.Inbox(y.Peer())
                 + [Truncate(if r.path == Rekey then w'.mostRecent else r.version, r.status.RequiresTruncation())]
  {
    var s := Run(NewSystem(initCid, respCid), acts);
    var st := RunStatus(initCid, respCid, acts);
    StatusTruncates(s, st, y, seed);
  }

  lemma HeadWithout(s: System, k: nat, y: Side)
    requires k < |s.toInit| && s.toInit[k].Truncate? && s.Inbox(y) != [] && !s.Inbox(y)[0].Truncate?
    ensures Without(s, k).Inbox(y) != [] && Without(s, k).Inbox(y)[0] == s.Inbox(y)[0]
  {
  }

  ghost predicate CurrentIfUnlocked(e: Endpoint)
  {
    && (!e.session.updateInProgress ==>
          e.session.latestUsable == e.session.window.mostRecent && e.session.lockSetByAlice.None? && e.pending == map[])
    && 1 <= |e.session.window.entries| <= MAX_HYPER_RATCHETS_IN_MEMORY + 1
    && e.session.Usable().Some?
  }

  lemma PhaseUnlocked(c: System, ph: Phase, x: Side)
    requires Windows(c) && InPhase(c, ph)
    ensures CurrentIfUnlocked(c.End(x))
  {
    UnlockedExactlyWhenMayPropose(c, ph, x);
    PhaseLinesUp(c, ph);
    PhaseUsable(c, ph, x);
  }

  /** An endpoint that may start an update sends with its newest version, and no window outgrows its bound. */
  lemma {:induction false} UnlockedIsCurrent(initCid: u64, respCid: u64, acts: seq<Action>, x: Side)
    requires StrayFree(NewSystem(initCid, respCid), acts)
    ensures CurrentIfUnlocked(Run(NewSystem(initCid, respCid), acts).End(x))
  {
    var s := Run(NewSystem(initCid, respCid), acts);
    var st := RunStatus(initCid, respCid, acts);
    PhaseUnlocked(if st.Sound? then Core(s) else Core(Without(s, st.k)), st.ph, x);
  }

  /** Same versions, same keys, nobody holds a lock. */
  ghost predicate Agree(a: Endpoint, b: Endpoint)
  {
    var wa, wb := a.session.window, b.session.window;
    && wa.mostRecent == wb.mostRecent == a.session.latestUsable == b.session.latestUsable
    && wa.oldest == wb.oldest && |wa.entries| == |wb.entries| <= MAX_HYPER_RATCHETS_IN_MEMORY
    && (forall k :: 0 <= k < |wa.entries| ==> wa.entries[k].secret == wb.entries[k].secret)
    && !a.session.updateInProgress && !b.session.updateInProgress
    && a.session.lockSetByAlice.None? && b.session.lockSetByAlice.None?
  }

  lemma QuietPhase(c: System, ph: Phase)
    requires Windows(c) && InPhase(c, ph) && c.toInit == [] && c.toResp == []
    ensures ph == Idle && Agree(c.init, c.resp)
  {
  }

  /** With nothing in flight both ends hold the same versions and keys, and both locks are clear. */
  lemma {:induction false} QuietEndpointsAgree(initCid: u64, respCid: u64, acts: seq<Action>)
    requires StrayFree(NewSystem(initCid, respCid), acts)
    requires var s := Run(NewSystem(initCid, respCid), acts); s.toInit == [] && s.toResp == []
    ensures var s := Run(NewSystem(initCid, respCid), acts); Agree(s.init, s.resp)
  {
    var st := RunStatus(initCid, respCid, acts);
    QuietPhase(Core(Run(NewSystem(initCid, respCid), acts)), st.ph);
  }

  // ---- A run that goes wrong ----

  function K1(): Secret { Next(Root, 1, 3) }

  function K2(): Secret { Next(K1(), 5, 6) }

  /** A window holding versions 0 up to n - 1, the given keys newest first. */
  function Holding(cid: u64, keys: seq<Secret>): Window
    requires 0 < |keys| <= 3
  {
    Window(cid, |keys| - 1, 0, seq(|keys|, (i: int) requires 0 <= i < |keys| => Ratchet(|keys| - 1 - i, cid, keys[i])))
  }

  function Ending(cid: u64, isInitiator: bool, keys: seq<Secret>, lock: Option<bool>, usable: u32, groups: u64,
                  pending: map<Path, Constructor>, messages: nat): Endpoint
    requires 0 < |keys| <= 3
  {
    Endpoint(Session(Holding(cid, keys), lock.Some?, isInitiator, 1, groups, lock, usable), pending, messages)
  }

  /** After the two crossing proposals and the initiator's refusal. */
  function Refused(i: u64, r: u64): System
  {
    System(Ending(i, true, [Root], Some(true), 0, 1, map[Message(0) := Constructor(Root, 1, None)], 1),
           Ending(r, false, [Root], Some(true), 0, 0, map[Rekey := Constructor(Root, 2, None)], 0),
           [], [Proposal(0, Message(0), 1), Reply(0, Rekey, Omitted)])
  }

  /** After the initiator's proposal went through, with the stray TRUNCATE behind. */
  function Answered(i: u64, r: u64): System
  {
    System(Ending(i, true, [K1(), Root], None, 1, 1, map[], 1),
           Ending(r, false, [K1(), Root], Some(false), 0, 0, map[], 0),
           [Truncate(0, None)], [Truncate(0, None)])
  }

  /** After the stray: the initiator's lock and usable version are off, its second proposal is out. */
  function AfterStray(i: u64, r: u64): System
  {
    System(Ending(i, true, [K1(), Root], None, 2, 2, map[Message(1) := Constructor(K1(), 4, None)], 2),
           Ending(r, false, [K1(), Root], None, 1, 0, map[], 0),
           [], [Proposal(1, Message(1), 4)])
  }

  lemma ToRefused(i: u64, r: u64)
    ensures var s1 := Step(NewSystem(i, r), Send(Initiator, 1)).0;
            Step(Step(s1, Propose(Responder, 2)).0, Deliver(Initiator, 0)).0 == Refused(i, r)
  {
    var s1 := Step(NewSystem(i, r), Send(Initiator, 1)).0;
    var s2 := Step(s1, Propose(Responder, 2)).0;
    assert s2.toInit == [Proposal(0, Rekey, 2)] && s2.toResp == [Proposal(0, Message(0), 1)];
  }

  lemma ToAnswered(i: u64, r: u64)
    ensures var s5 := Step(Step(Refused(i, r), Deliver(Responder, 3)).0, Deliver(Responder, 0)).0;
            Step(s5, Deliver(Initiator, 0)).0 == Answered(i, r)
  {
    var s4 := Step(Refused(i, r), Deliver(Responder, 3)).0;
    assert s4.toInit == [Reply(0, Message(0), Transfer(3, Committed(1)))];
    assert s4.resp == Ending(r, false, [K1(), Root], Some(false), 0, 0, map[Rekey := Constructor(Root, 2, None)], 0);
    var s5 := Step(s4, Deliver(Responder, 0)).0;
    assert s5.resp.pending == map[];
    assert s5.toInit == [Reply(0, Message(0), Transfer(3, Committed(1))), Truncate(0, None)];
    var s6 := Step(s5, Deliver(Initiator, 0)).0;
    assert s6.init.pending == map[];
    assert s6.init.session.window == Holding(i, [K1(), Root]);
  }

  lemma ToAfterStray(i: u64, r: u64)
    ensures var s8 := Step(Step(Answered(i, r), Send(Initiator, 4)).0, Deliver(Responder, 0)).0;
            Step(s8, Deliver(Initiator, 0)).0 == AfterStray(i, r)
  {
    var s7 := Step(Answered(i, r), Send(Initiator, 4)).0;
    assert s7.toResp == [Truncate(0, None), Proposal(1, Message(1), 4)];
  }

  lemma ToUndecipherable(i: u64, r: u64)
    ensures var s11 := Step(Step(AfterStray(i, r), Send(Responder, 5)).0, Deliver(Initiator, 6)).0;
            var s12 := Step(s11, Send(Initiator, 7)).0;
            && |s12.toResp| == 3 && s12.toResp[2] == Data(2, 2)
            && s12.resp.session.window == Holding(r, [K1(), Root])
  {
    var s10 := Step(AfterStray(i, r), Send(Responder, 5)).0;
    assert s10.toInit == [Proposal(1, Message(0), 5)];
    var s11 := Step(s10, Deliver(Initiator, 6)).0;
    assert s11.init.session.window == Holding(i, [K2(), K1(), Root]);
  }

  /** Twelve steps from a fresh session to a packet whose version its receiver does not hold. */
  lemma StrayLeadsToUndecipherable(i: u64, r: u64) returns (acts: seq<Action>)
    ensures |acts| == 12
    ensures var s := Run(NewSystem(i, r), acts); |s.toResp| == 3 && !Decipherable(s, Responder, 2)
  {
    var s0 := NewSystem(i, r);
    var a3 := [Send(Initiator, 1)] + [Propose(Responder, 2)] + [Deliver(Initiator, 0)];
    var a6 := a3 + [Deliver(Responder, 3)] + [Deliver(Responder, 0)] + [Deliver(Initiator, 0)];
    var a9 := a6 + [Send(Initiator, 4)] + [Deliver(Responder, 0)] + [Deliver(Initiator, 0)];
    acts := a9 + [Send(Responder, 5)] + [Deliver(Initiator, 6)] + [Send(Initiator, 7)];
    ThreeSteps(s0, [], Send(Initiator, 1), Propose(Responder, 2), Deliver(Initiator, 0));
    assert [] + [Send(Initiator, 1)] + [Propose(Responder, 2)] + [Deliver(Initiator, 0)] == a3;
    ThreeSteps(s0, a3, Deliver(Responder, 3), Deliver(Responder, 0), Deliver(Initiator, 0));
    ThreeSteps(s0, a6, Send(Initiator, 4), Deliver(Responder, 0), Deliver(Initiator, 0));
    ThreeSteps(s0, a9, Send(Responder, 5), Deliver(Initiator, 6), Send(Initiator, 7));
    ToRefused(i, r);
    ToAnswered(i, r);
    ToAfterStray(i, r);
    ToUndecipherable(i, r);
  }

  lemma {:induction false} ThreeSteps(s: System, before: seq<Action>, a: Action, b: Action, c: Action)
    ensures Run(s, before + [a] + [b] + [c]) == Step(Step(Step(Run(s, before), a).0, b).0, c).0
  {
    RunStep(s, before, a);
    RunStep(s, before + [a], b);
    RunStep(s, before + [a] + [b], c);
  }
}
