/**
 What goes wrong when a lost rekey is answered: STAGE1 is followed by a TRUNCATE even if it carried
 `Omitted`, and the initiator counts that TRUNCATE as the end of an update. The usable version then
 runs past the newest one. These lemmas say exactly in which runs that happens.
 */
module RekeyStray {
  import opened Words
  import opened Ratchets
  import opened Toolsets
  import opened SessionCrypto
  import opened RekeyModel
  import opened RekeyInvariant
  import opened RekeyHandshake
  import opened RekeySteps
  import opened RekeyTheorems

  /** The packet at the head is a TRUNCATE and its receiver is not waiting for one as Bob. */
  predicate Stray(s: System, a: Action)
  {
    && a.Deliver? && s.Inbox(a.side) != [] && s.Inbox(a.side)[0].Truncate?
    && s.End(a.side).session.lockSetByAlice != Some(false)
  }

  predicate Healthy(s: System)
  {
    s.init.session.Usable().Some? && s.resp.session.Usable().Some?
  }

  lemma {:induction false} ControlConcat(a: seq<Packet>, b: seq<Packet>)
    ensures Control(a + b) == Control(a) + Control(b)
    decreases |a|
  {
    if a == [] {
      assert a + b == b;
    } else {
      assert (a + b)[0] == a[0] && (a + b)[1..] == a[1..] + b;
      ControlConcat(a[1..], b);
      var head := if IsControl(a[0]) then [a[0]] else [];
      assert Control(a + b) == head + Control(a[1..] + b) && Control(a) == head + Control(a[1..]);
    }
  }

  lemma PhaseNotStray(c: System, ph: Phase, y: Side)
    requires InPhase(c, ph) && c.Inbox(y) != [] && c.Inbox(y)[0].Truncate?
    ensures c.End(y).session.lockSetByAlice == Some(false)
  {
  }

  lemma InvNotStray(s: System, ph: Phase, a: Action)
    requires Inv(s, ph)
    ensures !Stray(s, a)
  {
    if a.Deliver? && s.Inbox(a.side) != [] && s.Inbox(a.side)[0].Truncate? {
      PhaseNotStray(Core(s), ph, a.side);
    }
  }

  lemma InvHealthy(s: System, ph: Phase)
    requires Inv(s, ph)
    ensures Healthy(s)
  {
    PhaseUsable(Core(s), ph, Initiator);
    PhaseUsable(Core(s), ph, Responder);
  }

  // ---- A stray TRUNCATE on its way ----

  function Without(s: System, k: nat): System
    requires k < |s.toInit|
  {
    s.(toInit := s.toInit[..k] + s.toInit[k + 1..])
  }

  predicate NoOmission(ph: Phase)
  {
    match ph
    case CrossedOmitted => false
    case BobCommitted(_, left) => left != Omission
    case BothCommitted(_, omission, _) => !omission
    case Truncating(_, omission) => !omission
    case _ => true
  }

  /**
   The packet at `k` is a stray TRUNCATE; leaving it out, the state is as it should be. Either nothing
   of the handshake is ahead of it, or only the answer to the initiator's own proposal.
   */
  ghost predicate Tainted(s: System, k: nat, ph: Phase)
  {
    && k < |s.toInit| && s.toInit[k].Truncate? && s.toInit[k].truncate.None?
    && Inv(Without(s, k), ph) && NoOmission(ph)
    && s.resp.session.window.Has(s.toInit[k].version)
    && Standing(s.init, s.toInit[k].version, Control(s.toInit[..k]), ph)
  }

  /** What the initiator is up to when a stray under version `v` is behind the handshake packets `ahead`. */
  ghost predicate Standing(e: Endpoint, v: u32, ahead: seq<Packet>, ph: Phase)
  {
    var w := e.session.window;
    if ahead == [] then Current(e) && e.session.lockSetByAlice != Some(false) && Sub32(w.mostRecent, v) <= 1 && w.Has(v)
    else ph == BobCommitted(Initiator, Nothing) && v == w.mostRecent
  }

  lemma TaintedBy(s: System, k: nat, ph: Phase, t: System)
    requires k < |s.toInit| && s.toInit[k].Truncate? && s.toInit[k].truncate.None?
    requires t == Without(s, k) && Inv(t, ph) && NoOmission(ph)
    requires s.resp.session.window.Has(s.toInit[k].version)
    requires Standing(s.init, s.toInit[k].version, Control(s.toInit[..k]), ph)
    ensures Tainted(s, k, ph)
  {
  }

  /** The step reports no fault and leaves the stray packet at `k`. */
  ghost predicate Drifts(s: System, a: Action, k: nat, ph: Phase)
  {
    var (s', faults) := Step(s, a);
    faults == {} && Tainted(s', k, ph)
  }

  /** Taken up to date, a TRUNCATE moves the usable version one past the newest ratchet. */
  lemma StrayTaken(e: Endpoint, p: Packet, seed: nat)
    requires p.Truncate? && p.truncate.None? && Current(e)
    requires var w := e.session.window; w.Has(p.version) && |w.entries| <= MAX_HYPER_RATCHETS_IN_MEMORY + 1 && w.Valid()
    ensures var o := Receive(e, p, seed);
            && o.end.session.latestUsable == Succ32(o.end.session.window.mostRecent)
            && o.end.session.Usable().None? && UsableMissing in o.faults
            && o.end.session.window == e.session.window && o.sent == []
  {
  }

  lemma StrayArrives(s: System, ph: Phase, seed: nat)
    requires Tainted(s, 0, ph)
    ensures Stray(s, Deliver(Initiator, seed))
    ensures var (s', faults) := Step(s, Deliver(Initiator, seed));
            && s'.init.session.latestUsable == Succ32(s'.init.session.window.mostRecent)
            && s'.init.session.Usable().None? && UsableMissing in faults
  {
    assert s.toInit[..0] == [];
    SizeBound(Without(s, 0), ph);
    StrayTaken(s.init, s.toInit[0], seed);
  }

  lemma SizeBound(s: System, ph: Phase)
    requires Inv(s, ph)
    ensures |s.init.session.window.entries| <= MAX_HYPER_RATCHETS_IN_MEMORY + 1
  {
    PhaseLinesUp(Core(s), ph);
  }

  lemma CommutesAhead(s: System, k: nat, seed: nat)
    requires 0 < k < |s.toInit|
    ensures var s' := Step(s, Deliver(Initiator, seed)).0;
            && k - 1 < |s'.toInit| && s'.toInit[k - 1] == s.toInit[k] && s'.toInit[..k - 1] == s.toInit[1..k]
            && (Without(s', k - 1), Step(s, Deliver(Initiator, seed)).1) == Step(Without(s, k), Deliver(Initiator, seed))
  {
    var t := Without(s, k);
    assert t.toInit[0] == s.toInit[0];
    assert t.toInit[1..] == s.toInit[1..k] + s.toInit[k + 1..];
  }

  lemma DroppedFromLonger(a: seq<Packet>, b: seq<Packet>, k: nat)
    requires k < |a|
    ensures (a + b)[..k] + (a + b)[k + 1..] == (a[..k] + a[k + 1..]) + b
  {
  }

  lemma CommutesBehind(s: System, k: nat, a: Action)
    requires k < |s.toInit| && !(a.Deliver? && a.side == Initiator)
    ensures var s' := Step(s, a).0;
            && k < |s'.toInit| && s'.toInit[k] == s.toInit[k] && s'.toInit[..k] == s.toInit[..k]
            && (Without(s', k), Step(s, a).1) == Step(Without(s, k), a)
  {
    if a.side == Responder {
      var o := if a.Deliver? then
                 if s.toResp == [] then Outcome(s.resp, [], {}) else Receive(s.resp, s.toResp[0], a.seed)
               else if a.Send? then SendMessage(s.resp, a.seed) else StartRekey(s.resp, a.seed);
      assert Step(s, a).0.toInit == s.toInit + o.sent;
      DroppedFromLonger(s.toInit, o.sent, k);
    }
  }

  /** Any other step goes by as if the stray packet were not there. */
  lemma Commutes(s: System, k: nat, a: Action)
    requires k < |s.toInit| && !(a.Deliver? && a.side == Initiator && k == 0)
    ensures var k' := if a.Deliver? && a.side == Initiator then k - 1 else k;
            var s' := Step(s, a).0;
            && k' < |s'.toInit| && s'.toInit[k'] == s.toInit[k]
            && s'.toInit[..k'] == (if a.Deliver? && a.side == Initiator then s.toInit[1..k] else s.toInit[..k])
            && (Without(s', k'), Step(s, a).1) == Step(Without(s, k), a)
  {
    if a.Deliver? && a.side == Initiator {
      CommutesAhead(s, k, a.seed);
    } else {
      CommutesBehind(s, k, a);
    }
  }

  lemma OmissionPhase(c: System, ph: Phase, y: Side)
    requires InPhase(c, ph) && c.Inbox(y) != [] && c.Inbox(y)[0].Reply? && c.Inbox(y)[0].status.Omitted?
    ensures y == Responder && OmissionNext(ph) && !NoOmission(ph)
  {
  }

  lemma NotOmittedNext(s: System, ph: Phase, y: Side)
    requires Inv(s, ph) && NoOmission(ph)
    ensures !OmittedRekeyNext(s, y)
  {
    if OmittedRekeyNext(s, y) {
      OmissionPhase(Core(s), ph, y);
    }
  }

  lemma SenderState(e: Endpoint, seed: nat, o: Outcome)
    requires o == SendMessage(e, seed) || o == StartRekey(e, seed)
    ensures o.end.session.window == e.session.window && o.end.session.latestUsable == e.session.latestUsable
    ensures o.end.session.lockSetByAlice == e.session.lockSetByAlice || o.end.session.lockSetByAlice == Some(true)
  {
  }

  lemma ControlStays(c: System, ph: Phase, y: Side, full: bool)
    requires InPhase(c, ph) && c.Inbox(y) != [] && NoOmission(ph)
    requires y == Initiator ==> ph == BobCommitted(Initiator, Nothing)
    ensures NoOmission(NextPhase(ph, y, full))
    ensures ph == BobCommitted(Initiator, Nothing) ==> y == Initiator
  {
  }

  lemma StaysUnomitted(s: System, ph: Phase, a: Action)
    requires Inv(s, ph) && NoOmission(ph)
    requires a.Deliver? && a.side == Initiator && s.toInit != [] && IsControl(s.toInit[0]) ==> ph == BobCommitted(Initiator, Nothing)
    ensures NoOmission(PhaseAfter(s, ph, a))
    ensures ph == BobCommitted(Initiator, Nothing) && !(a.Deliver? && a.side == Initiator) ==> PhaseAfter(s, ph, a) == ph
  {
    if a.Deliver? && s.Inbox(a.side) != [] && IsControl(s.Inbox(a.side)[0]) {
      assert Core(s).Inbox(a.side) != [];
      ControlStays(Core(s), ph, a.side, Full(s, a.side));
    }
  }

  /** What a delivery in front of the stray packet leaves behind, apart from the initiator's own state. */
  lemma TaintedMoves(s: System, k: nat, ph: Phase, seed: nat) returns (ph': Phase)
    requires Tainted(s, k, ph) && k > 0
    ensures var s' := Step(s, Deliver(Initiator, seed)).0;
            && k - 1 < |s'.toInit| && s'.toInit[k - 1] == s.toInit[k] && s'.toInit[..k - 1] == s.toInit[1..k]
            && Without(s', k - 1) == Step(Without(s, k), Deliver(Initiator, seed)).0
            && Inv(Without(s', k - 1), ph') && NoOmission(ph') && ph' == PhaseAfter(Without(s, k), ph, Deliver(Initiator, seed))
            && Step(s, Deliver(Initiator, seed)).1 == {} && s'.resp == s.resp
    ensures IsControl(s.toInit[0]) ==> ph == BobCommitted(Initiator, Nothing) && s.toInit[k].version == s.init.session.window.mostRecent
  {
    var a := Deliver(Initiator, seed);
    var t := Without(s, k);
    assert t.toInit[0] == s.toInit[0];
    assert s.toInit[..k][0] == s.toInit[0] && s.toInit[..k][1..] == s.toInit[1..k];
    NotOmittedNext(t, ph, Initiator);
    ph' := StepKeeps(t, ph, a);
    Commutes(s, k, a);
    StaysUnomitted(t, ph, a);
  }

  /** The initiator takes a packet from in front of the stray one. */
  lemma TaintedInitiatorReceives(s: System, k: nat, ph: Phase, seed: nat) returns (ph': Phase)
    requires Tainted(s, k, ph) && k > 0
    ensures Drifts(s, Deliver(Initiator, seed), k - 1, ph')
    ensures ph' == PhaseAfter(Without(s, k), ph, Deliver(Initiator, seed))
  {
    ph' := TaintedMoves(s, k, ph, seed);
    var s' := Step(s, Deliver(Initiator, seed)).0;
    if IsControl(s.toInit[0]) {
      AheadAfterControl(s, k, seed, ph');
    } else {
      AheadAfterNoise(s, k, ph, seed);
    }
    TaintedBy(s', k - 1, ph', Without(s', k - 1));
  }

  lemma RestWithout(s: System, k: nat)
    requires 0 < k < |s.toInit|
    ensures Without(s, k).toInit[0] == s.toInit[0] && Without(s, k).toInit[1..] == s.toInit[1..k] + s.toInit[k + 1..]
  {
  }

  lemma AheadAfterControl(s: System, k: nat, seed: nat, ph': Phase)
    requires 0 < k < |s.toInit| && IsControl(s.toInit[0]) && Inv(Without(s, k), BobCommitted(Initiator, Nothing))
    requires s.toInit[k].version == s.init.session.window.mostRecent
    requires Inv(Step(Without(s, k), Deliver(Initiator, seed)).0, ph')
    requires ph' == PhaseAfter(Without(s, k), BobCommitted(Initiator, Nothing), Deliver(Initiator, seed))
    ensures Standing(Step(s, Deliver(Initiator, seed)).0.init, s.toInit[k].version, Control(s.toInit[1..k]), ph')
  {
    RestWithout(s, k);
    AheadAfterAnswer(Without(s, k), s.toInit[k].version, s.toInit[1..k], s.toInit[k + 1..], seed, ph');
    Commutes(s, k, Deliver(Initiator, seed));
  }

  lemma {:induction false} AheadAfterAnswer(t: System, v: u32, ahead: seq<Packet>, behind: seq<Packet>, seed: nat, ph': Phase)
    requires Inv(t, BobCommitted(Initiator, Nothing)) && t.toInit != [] && IsControl(t.toInit[0])
    requires t.toInit[1..] == ahead + behind && v == t.init.session.window.mostRecent
    requires var t' := Step(t, Deliver(Initiator, seed)).0;
             Inv(t', ph') && ph' == PhaseAfter(t, BobCommitted(Initiator, Nothing), Deliver(Initiator, seed))
    ensures Standing(Step(t, Deliver(Initiator, seed)).0.init, v, Control(ahead), ph')
  {
    AnswerAhead(t, ahead, behind, seed, ph');
  }

  lemma AheadAfterNoise(s: System, k: nat, ph: Phase, seed: nat)
    requires Tainted(s, k, ph) && k > 0 && !IsControl(s.toInit[0])
    ensures Standing(Step(s, Deliver(Initiator, seed)).0.init, s.toInit[k].version, Control(s.toInit[1..k]), ph)
  {
    var t := Without(s, k);
    assert t.toInit[0] == s.toInit[0];
    assert s.toInit[..k][0] == s.toInit[0] && s.toInit[..k][1..] == s.toInit[1..k];
    NoiseState(t, ph, seed);
    Commutes(s, k, Deliver(Initiator, seed));
  }

  lemma NoiseState(t: System, ph: Phase, seed: nat)
    requires Inv(t, ph) && t.toInit != [] && !IsControl(t.toInit[0])
    ensures Step(t, Deliver(Initiator, seed)).0.init == t.init
  {
    HeadReach(t, Initiator);
    if t.toInit[0].Data? { DataStep(t, Initiator, seed); } else { EmptyReplyStep(t, Initiator, seed); }
  }

  /** The answer to the initiator's proposal was the only handshake packet ahead. */
  lemma {:induction false} AnswerAhead(t: System, ahead: seq<Packet>, behind: seq<Packet>, seed: nat, ph': Phase)
    requires Inv(t, BobCommitted(Initiator, Nothing)) && t.toInit != [] && IsControl(t.toInit[0])
    requires t.toInit[1..] == ahead + behind
    requires var t' := Step(t, Deliver(Initiator, seed)).0;
             Inv(t', ph') && ph' == PhaseAfter(t, BobCommitted(Initiator, Nothing), Deliver(Initiator, seed))
    ensures Control(ahead) == []
    ensures var e' := Step(t, Deliver(Initiator, seed)).0.init;
            && Current(e') && e'.session.lockSetByAlice != Some(false)
            && e'.session.window.mostRecent == Succ32(t.init.session.window.mostRecent) && |e'.session.window.entries| >= 2
  {
    assert |Control(t.toInit)| == 1;
    assert Control(t.toInit) == [t.toInit[0]] + Control(t.toInit[1..]);
    ControlConcat(ahead, behind);
    AnswerFacts(Core(t), Core(Step(t, Deliver(Initiator, seed)).0), ph');
  }

  lemma AnswerFacts(c: System, c': System, ph': Phase)
    requires InBobCommitted(c, Initiator, Nothing) && InPhase(c', ph') && c'.resp == c.resp
    requires ph' == Truncating(Initiator, false) || ph' == BothCommitted(Initiator, false, false)
    ensures Current(c'.init) && c'.init.session.lockSetByAlice != Some(false)
    ensures c'.init.session.window.mostRecent == Succ32(c.init.session.window.mostRecent)
    ensures |c'.init.session.window.entries| >= 2
  {
    assert AwaitsTruncate(c', Initiator, false);
  }

  /** `v` is one of the window's last few versions. */
  predicate AmongLast(w: Window, v: u32)
  {
    |w.entries| <= MAX_HYPER_RATCHETS_IN_MEMORY + 1 && w.Has(v) && Sub32(w.mostRecent, v) <= 3
  }

  lemma UpdateKeepsRecent(s: Session, c: Constructor, localIsAlice: bool, cid: u64, v: u32)
    requires AmongLast(s.window, v) && s.UpdatedSyncSafe(c, localIsAlice, cid).Some?
    ensures var w := s.UpdatedSyncSafe(c, localIsAlice, cid).value.0.window;
            w.Has(v) && Sub32(w.mostRecent, v) <= 4 && |w.entries| <= MAX_HYPER_RATCHETS_IN_MEMORY + 2
  {
  }

  lemma DeregisterKeepsRecent(w: Window, oldest: u32, v: u32)
    requires w.Has(v) && Sub32(w.mostRecent, v) <= 4 && w.Deregistered(oldest).Some?
    ensures w.Deregistered(oldest).value.Has(v)
  {
  }

  lemma FinishKeepsRecent(s: Session, status: KemTransferStatus, c: Option<Constructor>, v: u32)
    requires AmongLast(s.window, v)
    ensures AliceFinish(s, status, c).session.window.Has(v)
  {
    if status.Transfer? && c.Some? && s.UpdatedSyncSafe(c.value.(bob := Some(status.bob)), true, s.window.cid).Some? {
      UpdateKeepsRecent(s, c.value.(bob := Some(status.bob)), true, s.window.cid, v);
      var w := s.UpdatedSyncSafe(c.value.(bob := Some(status.bob)), true, s.window.cid).value.0.window;
      var needs := status.RequiresTruncation();
      if needs.Some? && w.Deregistered(needs.value).Some? { DeregisterKeepsRecent(w, needs.value, v); }
    }
  }

  /** A window keeps its recent versions, whatever packet comes. */
  lemma ReceiveKeepsRecent(e: Endpoint, p: Packet, seed: nat, v: u32)
    requires AmongLast(e.session.window, v)
    ensures Receive(e, p, seed).end.session.window.Has(v)
  {
    var hr := e.session.window.Get(p.version);
    if hr.Some? {
      match p
      case Data(_, _) =>
      case Proposal(_, _, alice) =>
        var c := Constructor(hr.value.secret, alice, Some(seed));
        if e.session.UpdatedSyncSafe(c, false, e.session.window.cid).Some? {
          UpdateKeepsRecent(e.session, c, false, e.session.window.cid, v);
        }
      case Reply(_, path, status) =>
        FinishKeepsRecent(e.session, status, if path in e.pending then Some(e.pending[path]) else None, v);
      case Truncate(_, truncate) =>
        if truncate.Some? && e.session.window.Deregistered(truncate.value).Some? {
          DeregisterKeepsRecent(e.session.window, truncate.value, v);
        }
      case TruncateAck(_, _) =>
    }
  }

  lemma ResponderKeeps(s: System, a: Action, v: u32)
    requires AmongLast(s.resp.session.window, v)
    ensures Step(s, a).0.resp.session.window.Has(v)
  {
    if a.side == Responder && a.Deliver? && s.toResp != [] {
      ReceiveKeepsRecent(s.resp, s.toResp[0], a.seed, v);
    } else if a.side == Responder && !a.Deliver? {
      SenderState(s.resp, a.seed, if a.Send? then SendMessage(s.resp, a.seed) else StartRekey(s.resp, a.seed));
    }
  }

  lemma PhaseReach(c: System, ph: Phase, v: u32)
    requires InPhase(c, ph) && Sub32(c.init.session.window.mostRecent, v) <= 1
    requires c.init.session.lockSetByAlice != Some(false)
    ensures Sub32(c.resp.session.window.mostRecent, v) <= 2
  {
  }

  /** How far the ends can have moved on while the stray packet is on its way. */
  lemma StrayReach(s: System, k: nat, ph: Phase)
    requires Tainted(s, k, ph)
    ensures var v := s.toInit[k].version;
            && Sub32(s.init.session.window.mostRecent, v) <= 1 && Sub32(s.resp.session.window.mostRecent, v) <= 2
            && s.init.session.window.Has(v)
    ensures WithinBounds(s.init.session.window, s.resp.session.window)
  {
    var c := Core(Without(s, k));
    PhaseLinesUp(c, ph);
    PhaseReach(c, ph, s.toInit[k].version);
  }

  lemma InitiatorKept(s: System, a: Action)
    requires !(a.Deliver? && a.side == Initiator)
    ensures var e, e' := s.init.session, Step(s, a).0.init.session;
            && e'.window == e.window && e'.latestUsable == e.latestUsable
            && (e'.lockSetByAlice == e.lockSetByAlice || e'.lockSetByAlice == Some(true))
  {
    if a.side == Initiator {
      SenderState(s.init, a.seed, if a.Send? then SendMessage(s.init, a.seed) else StartRekey(s.init, a.seed));
    }
  }

  lemma OtherStep(s: System, k: nat, ph: Phase, a: Action) returns (ph': Phase)
    requires Tainted(s, k, ph) && !(a.Deliver? && a.side == Initiator)
    ensures Drifts(s, a, k, ph')
    ensures ph' == PhaseAfter(Without(s, k), ph, a)
  {
    var t := Without(s, k);
    NotOmittedNext(t, ph, a.side);
    ph' := StepKeeps(t, ph, a);
    Commutes(s, k, a);
    StaysUnomitted(t, ph, a);
    InitiatorKept(s, a);
    StrayReach(s, k, ph);
    ResponderKeeps(s, a, s.toInit[k].version);
  }

  lemma TaintedStep(s: System, k: nat, ph: Phase, a: Action) returns (k': nat, ph': Phase)
    requires Tainted(s, k, ph) && !Stray(s, a)
    ensures Drifts(s, a, k', ph')
  {
    if a.Deliver? && a.side == Initiator {
      if k == 0 { StrayArrives(s, ph, a.seed); }
      k' := k - 1;
      ph' := TaintedInitiatorReceives(s, k, ph, a.seed);
    } else {
      k' := k;
      ph' := OtherStep(s, k, ph, a);
    }
  }

  /** In a tainted state a stray delivery is the delivery of that packet and no other. */
  lemma StrayIsTheOne(s: System, k: nat, ph: Phase, a: Action)
    requires Tainted(s, k, ph) && Stray(s, a)
    ensures a.Deliver? && a.side == Initiator && k == 0
  {
    InvNotStray(Without(s, k), ph, a);
  }

  // ---- Where it comes from ----

  lemma OmittedRekeyTaints(s: System, ph: Phase, y: Side, seed: nat)
    requires Inv(s, ph) && OmittedRekeyNext(s, y)
    ensures Drifts(s, Deliver(y, seed), |s.toInit|, AfterOmission(ph))
  {
    OmissionStep(s, ph, y, seed);
    OmissionInv(s, ph);
    TaintFacts(Core(s), ph);
    StrayAppended(s);
    TaintedBy(WithStray(s), |s.toInit|, AfterOmission(ph), WithoutOmission(s));
  }

  /** The omission taken, and a TRUNCATE behind everything else. */
  function WithStray(s: System): System
    requires s.toResp != []
  {
    WithoutOmission(s).(toInit := s.toInit + [Truncate(s.resp.session.latestUsable, None)])
  }

  lemma StrayAppended(s: System)
    requires s.toResp != []
    ensures Without(WithStray(s), |s.toInit|) == WithoutOmission(s)
    ensures WithStray(s).toInit[..|s.toInit|] == s.toInit
  {
  }

  lemma OmissionInv(s: System, ph: Phase)
    requires Inv(s, ph) && OmissionNext(ph) && s.toResp != [] && IsControl(s.toResp[0])
    ensures Inv(WithoutOmission(s), AfterOmission(ph))
  {
    OmissionTaken(Core(s), ph);
    AfterOmissionSane(s, s.resp.(pending := map[]));
    assert Core(WithoutOmission(s)) == WithoutOmission(Core(s));
  }

  /** The omission is taken, and a TRUNCATE goes back all the same. */
  lemma OmissionStep(s: System, ph: Phase, y: Side, seed: nat)
    requires Inv(s, ph) && OmittedRekeyNext(s, y)
    ensures y == Responder && OmissionNext(ph)
    ensures Step(s, Deliver(y, seed)) == (WithStray(s), {})
  {
    OmissionPhase(Core(s), ph, y);
    OmissionHead(Core(s), ph);
    OmissionReceived(s.resp, s.toResp[0], seed);
    Delivers(s, Responder, seed, s.resp.(pending := map[]), [Truncate(s.resp.session.latestUsable, None)]);
  }

  lemma AfterOmissionSane(s: System, e: Endpoint)
    requires Sane(s) && s.toResp != [] && e == s.resp.(pending := map[])
    ensures Sane(s.(resp := e, toResp := s.toResp[1..]))
  {
    var t := s.(resp := e, toResp := s.toResp[1..]);
    FlowsFrom(s, Responder);
    FlowsPop(s.resp, s.init, s.toResp, s.toInit);
    TicketsDrop(s.toInit, s.toResp[1..], s.resp, e);
    SaneFrom(t, Responder);
  }

  lemma TaintFacts(c: System, ph: Phase)
    requires Windows(c) && InPhase(c, ph) && OmissionNext(ph)
    ensures NoOmission(AfterOmission(ph))
    ensures Standing(c.init, c.resp.session.latestUsable, c.toInit, AfterOmission(ph))
    ensures c.resp.session.window.Has(c.resp.session.latestUsable)
  {
  }

  // ---- Whole runs ----

  predicate StrayFree(s: System, acts: seq<Action>)
    decreases |acts|
  {
    acts == [] ||
    var before, a := acts[..|acts| - 1], acts[|acts| - 1];
    StrayFree(s, before) && !Stray(Run(s, before), a)
  }

  predicate AlwaysHealthy(s: System, acts: seq<Action>)
    decreases |acts|
  {
    Healthy(Run(s, acts)) && (acts == [] || AlwaysHealthy(s, acts[..|acts| - 1]))
  }

  datatype Status = Sound(ph: Phase) | Threatened(k: nat, ph: Phase)

  ghost predicate InStatus(s: System, st: Status)
  {
    match st
    case Sound(ph) => Inv(s, ph)
    case Threatened(k, ph) => Tainted(s, k, ph)
  }

  lemma StatusHealthy(s: System, st: Status)
    requires InStatus(s, st)
    ensures Healthy(s)
  {
    match st
    case Sound(ph) => InvHealthy(s, ph);
    case Threatened(k, ph) => InvHealthy(Without(s, k), ph);
  }

  lemma StatusStep(s: System, st: Status, a: Action) returns (st': Status)
    requires InStatus(s, st) && !Stray(s, a)
    ensures var (s', faults) := Step(s, a); faults == {} && InStatus(s', st')
  {
    match st
    case Sound(ph) =>
      if a.Deliver? && OmittedRekeyNext(s, a.side) {
        OmittedRekeyTaints(s, ph, a.side, a.seed);
        st' := Threatened(|s.toInit|, AfterOmission(ph));
      } else {
        var ph' := StepKeeps(s, ph, a);
        st' := Sound(ph');
      }
    case Threatened(k, ph) =>
      var k', ph' := TaintedStep(s, k, ph, a);
      st' := Threatened(k', ph');
  }

  lemma StrayBreaks(s: System, st: Status, a: Action)
    requires InStatus(s, st) && Stray(s, a)
    ensures var (s', faults) := Step(s, a); !Healthy(s') && UsableMissing in faults
  {
    match st
    case Sound(ph) => InvNotStray(s, ph, a);
    case Threatened(k, ph) =>
      StrayIsTheOne(s, k, ph, a);
      StrayArrives(s, ph, a.seed);
  }

  lemma {:induction false} StrayFreeStatus(s: System, acts: seq<Action>) returns (st: Status)
    requires Inv(s, Idle) && StrayFree(s, acts)
    ensures InStatus(Run(s, acts), st)
    decreases |acts|
  {
    if acts == [] {
      st := Sound(Idle);
    } else {
      var before := acts[..|acts| - 1];
      var mid := StrayFreeStatus(s, before);
      st := StatusStep(Run(s, before), mid, acts[|acts| - 1]);
    }
  }

  /**
   Over every run, clean or not: both ends keep a usable ratchet at every moment if and only if no
   TRUNCATE is ever handed to an endpoint that is not holding Bob's lock.
   */
  lemma {:induction false} UsableExactlyWithoutStrays(initCid: u64, respCid: u64, acts: seq<Action>)
    ensures AlwaysHealthy(NewSystem(initCid, respCid), acts) <==> StrayFree(NewSystem(initCid, respCid), acts)
    decreases |acts|
  {
    var s := NewSystem(initCid, respCid);
    StartInv(initCid, respCid);
    if acts == [] {
      InvHealthy(s, Idle);
    } else {
      var before, a := acts[..|acts| - 1], acts[|acts| - 1];
      UsableExactlyWithoutStrays(initCid, respCid, before);
      if StrayFree(s, before) {
        var st := StrayFreeStatus(s, before);
        if Stray(Run(s, before), a) {
          StrayBreaks(Run(s, before), st, a);
        } else {
          var st' := StatusStep(Run(s, before), st, a);
          StatusHealthy(Run(s, acts), st');
        }
      }
    }
  }

  /** Strays come from answered omissions only: a clean run has none. */
  lemma {:induction false} CleanRunsAreStrayFree(initCid: u64, respCid: u64, acts: seq<Action>)
    requires Clean(NewSystem(initCid, respCid), acts)
    ensures StrayFree(NewSystem(initCid, respCid), acts)
    decreases |acts|
  {
    if acts != [] {
      var s, before, a := NewSystem(initCid, respCid), acts[..|acts| - 1], acts[|acts| - 1];
      CleanRunsAreStrayFree(initCid, respCid, before);
      StartInv(initCid, respCid);
      var ph := CleanRun(s, Idle, before);
      InvNotStray(Run(s, before), ph, a);
    }
  }

  /** An endpoint that never starts a rekey of its own, but sends messages freely, is never told `Omitted` by STAGE1. */
  predicate ResponderNeverRekeys(acts: seq<Action>)
  {
    forall k :: 0 <= k < |acts| ==> !(acts[k].Propose? && acts[k].side == Responder)
  }

  ghost predicate NoRekeyPending(s: System)
  {
    && Rekey !in s.resp.pending
    && (forall k :: 0 <= k < |s.toInit| && s.toInit[k].Proposal? ==> s.toInit[k].path != Rekey)
    && (forall k :: 0 <= k < |s.toResp| && s.toResp[k].Reply? ==> s.toResp[k].path != Rekey)
  }

  lemma NeverOmitted(s: System, ph: Phase, y: Side)
    requires Inv(s, ph) && NoRekeyPending(s)
    ensures !OmittedRekeyNext(s, y)
  {
    if OmittedRekeyNext(s, y) {
      OmissionPhase(Core(s), ph, y);
    }
  }

  lemma NoRekeyPendingStep(s: System, a: Action)
    requires NoRekeyPending(s) && !(a.Propose? && a.side == Responder)
    ensures NoRekeyPending(Step(s, a).0)
  {
    if a.Deliver? && s.Inbox(a.side) != [] {
      var o := Receive(s.End(a.side), s.Inbox(a.side)[0], a.seed);
      if a.side == Initiator {
        assert forall k :: 0 <= k < |o.sent| && o.sent[k].Reply? ==> o.sent[k].path != Rekey;
      }
    }
  }

  /** The condition a caller can meet: as long as the responder rekeys only along with messages, every run is clean. */
  lemma {:induction false} MessageRekeysAreClean(initCid: u64, respCid: u64, acts: seq<Action>)
    requires ResponderNeverRekeys(acts)
    ensures Clean(NewSystem(initCid, respCid), acts)
    ensures NoRekeyPending(Run(NewSystem(initCid, respCid), acts))
    decreases |acts|
  {
    if acts != [] {
      var s, before, a := NewSystem(initCid, respCid), acts[..|acts| - 1], acts[|acts| - 1];
      MessageRekeysAreClean(initCid, respCid, before);
      StartInv(initCid, respCid);
      var ph := CleanRun(s, Idle, before);
      NeverOmitted(Run(s, before), ph, a.side);
      NoRekeyPendingStep(Run(s, before), a);
    }
  }

  lemma {:induction false} RunStep(s: System, before: seq<Action>, a: Action)
    ensures Run(s, before + [a]) == Step(Run(s, before), a).0
  {
    assert (before + [a])[..|before|] == before;
  }

  /** Both ends of a fresh session start a rekey. */
  lemma BothRekey(initCid: u64, respCid: u64) returns (s: System)
    ensures s == Run(NewSystem(initCid, respCid), [Propose(Initiator, 1)] + [Propose(Responder, 2)])
    ensures Inv(s, Crossed)
    ensures s.toInit == [Proposal(0, Rekey, 2)] && s.toResp == [Proposal(0, Rekey, 1)]
  {
    var s0, a, b := NewSystem(initCid, respCid), Propose(Initiator, 1), Propose(Responder, 2);
    StartInv(initCid, respCid);
    RunStep(s0, [], a);
    RunStep(s0, [a], b);
    assert [] + [a] == [a];
    s := Step(Step(s0, a).0, b).0;
    BothPropose(s0, a, b);
    BothRekeyStreams(initCid, respCid);
  }

  lemma BothPropose(s: System, a: Action, b: Action)
    requires Inv(s, Idle) && a.Propose? && b.Propose? && a.side == Initiator && b.side == Responder
    ensures Inv(Step(Step(s, a).0, b).0, Crossed)
  {
    OneProposes(s, Idle, a);
    OneProposes(Step(s, a).0, Proposed(Initiator), b);
  }

  lemma OneProposes(s: System, ph: Phase, a: Action)
    requires Inv(s, ph) && a.Propose? && MayPropose(ph, a.side)
    ensures Inv(Step(s, a).0, AfterProposal(ph, a.side))
  {
    var ph' := StepKeeps(s, ph, a);
  }

  lemma BothRekeyStreams(initCid: u64, respCid: u64)
    ensures var s := Step(Step(NewSystem(initCid, respCid), Propose(Initiator, 1)).0, Propose(Responder, 2)).0;
            s.toInit == [Proposal(0, Rekey, 2)] && s.toResp == [Proposal(0, Rekey, 1)]
  {
  }

  /** The initiator omits the responder's rekey, and the responder commits the initiator's. */
  lemma TieDecided(s: System) returns (s': System)
    requires Inv(s, Crossed) && s.toInit == [Proposal(0, Rekey, 2)] && s.toResp == [Proposal(0, Rekey, 1)]
    ensures s' == Step(Step(s, Deliver(Initiator, 0)).0, Deliver(Responder, 0)).0
    ensures Inv(s', BobCommitted(Initiator, Omission)) && OmittedRekeyNext(s', Responder) && |s'.toInit| == 1
  {
    var s1 := Step(s, Deliver(Initiator, 0)).0;
    var ph1 := StepKeeps(s, Crossed, Deliver(Initiator, 0));
    ProposalLoses(s, 0);
    assert s1.toInit == [] && s1.toResp == [Proposal(0, Rekey, 1), Reply(0, Rekey, Omitted)];
    s' := OmittedAndAnswered(s1);
  }

  lemma OmittedAndAnswered(s: System) returns (s': System)
    requires Inv(s, CrossedOmitted) && s.toInit == [] && s.toResp == [Proposal(0, Rekey, 1), Reply(0, Rekey, Omitted)]
    ensures s' == Step(s, Deliver(Responder, 0)).0
    ensures Inv(s', BobCommitted(Initiator, Omission)) && OmittedRekeyNext(s', Responder) && |s'.toInit| == 1
  {
    s' := Step(s, Deliver(Responder, 0)).0;
    var ph := StepKeeps(s, CrossedOmitted, Deliver(Responder, 0));
    assert InCrossedOmitted(Core(s));
    Accepts(s.resp, s.toResp[0], 0);
  }

  lemma OmissionPlaysOut(s: System)
    requires Inv(s, BobCommitted(Initiator, Omission)) && OmittedRekeyNext(s, Responder) && |s.toInit| == 1
    ensures var s1 := Step(s, Deliver(Responder, 0)).0;
            var s2 := Step(s1, Deliver(Initiator, 0)).0;
            !Healthy(Step(s2, Deliver(Initiator, 0)).0)
  {
    OmittedRekeyTaints(s, BobCommitted(Initiator, Omission), Responder, 0);
    var s1 := Step(s, Deliver(Responder, 0)).0;
    var ph := TaintedInitiatorReceives(s1, 1, BobCommitted(Initiator, Nothing), 0);
    StrayArrives(Step(s1, Deliver(Initiator, 0)).0, ph, 0);
  }

  /** Seven steps from a fresh session: both ends start a rekey, and the initiator is left without a usable ratchet. */
  lemma CrossingRekeysLoseTheUsableRatchet(initCid: u64, respCid: u64) returns (acts: seq<Action>)
    ensures |acts| == 7 && !Healthy(Run(NewSystem(initCid, respCid), acts))
  {
    var s0 := NewSystem(initCid, respCid);
    var toI, toR := Deliver(Initiator, 0), Deliver(Responder, 0);
    var a2 := [Propose(Initiator, 1)] + [Propose(Responder, 2)];
    var s2 := BothRekey(initCid, respCid);
    var s4 := TieDecided(s2);
    OmissionPlaysOut(s4);
    RunStep(s0, a2, toI);
    RunStep(s0, a2 + [toI], toR);
    RunStep(s0, a2 + [toI] + [toR], toR);
    RunStep(s0, a2 + [toI] + [toR] + [toR], toI);
    RunStep(s0, a2 + [toI] + [toR] + [toR] + [toI], toI);
    acts := a2 + [toI] + [toR] + [toR] + [toI] + [toI];
  }
}
