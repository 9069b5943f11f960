/** The handshake on its own: every delivery and every proposal moves a core from shape to shape. */
module RekeyHandshake {
  import opened Words
  import opened Ratchets
  import opened Toolsets
  import opened SessionCrypto
  import opened RekeyModel
  import opened RekeyInvariant

  /** A window after one more ratchet. */
  function Pushed(w: Window, secret: Secret): Window
  {
    Window(w.cid, Succ32(w.mostRecent), w.oldest, [Ratchet(Succ32(w.mostRecent), w.cid, secret)] + w.entries)
  }

  lemma CommitSucceeds(s: Session, c: Constructor)
    requires s.window.Valid() && |s.window.entries| <= MAX_HYPER_RATCHETS_IN_MEMORY && c.bob.Some?
    ensures var w := Pushed(s.window, Next(c.base, c.alice, c.bob.value));
            && w.Valid()
            && s.Committed(c, s.window.cid) == Some((s.(window := w), StatusOf(w)))
  {
    var r := s.NextRatchet(c, s.window.cid).value;
    UpdatedValid(s.window, r);
  }

  lemma AlignedPush(a: Window, b: Window, secret: Secret)
    requires Aligned(a, b, 0)
    ensures Aligned(a, Pushed(b, secret), 1)
  {
  }

  lemma AlignedCatchUp(a: Window, b: Window, secret: Secret)
    requires Aligned(a, b, 1) && b.entries != [] && b.entries[0].secret == secret
    ensures Aligned(Pushed(a, secret), b, 0)
  {
  }

  lemma AlignedFlip(a: Window, b: Window)
    requires Aligned(a, b, 0)
    ensures Aligned(b, a, 0)
  {
  }

  /** The step goes through without a fault, and leaves the core in the shape of `ph`. */
  ghost predicate Leads(s: System, a: Action, ph: Phase)
  {
    var (s', faults) := Step(s, a);
    faults == {} && Windows(s') && InPhase(s', ph)
  }

  lemma LeadsBy(s: System, a: Action, s': System, ph: Phase)
    requires Step(s, a) == (s', {}) && Windows(s') && InPhase(s', ph)
    ensures Leads(s, a, ph)
  {
  }

  lemma Delivers(s: System, y: Side, seed: nat, e: Endpoint, sent: seq<Packet>)
    requires s.Inbox(y) != [] && Receive(s.End(y), s.Inbox(y)[0], seed) == Outcome(e, sent, {})
    ensures Step(s, Deliver(y, seed)) == (s.With(y, e, s.Inbox(y)[1..], s.Inbox(y.Peer()) + sent), {})
  {
  }

  // ---- Bob takes a proposal ----

  /** Bob's endpoint once he has committed on a proposal. */
  function Accepting(e: Endpoint, p: Packet, seed: nat): Endpoint
    requires p.Proposal? && e.session.window.entries != []
  {
    var w := Pushed(e.session.window, Next(e.session.window.entries[0].secret, p.alice, seed));
    e.(session := e.session.(window := w, updateInProgress := true, lockSetByAlice := Some(false)))
  }

  function Answering(e: Endpoint, p: Packet, seed: nat): Packet
    requires p.Proposal? && e.session.window.entries != []
  {
    Reply(p.version, p.path, Transfer(seed, StatusOf(Accepting(e, p, seed).session.window)))
  }

  lemma Accepts(e: Endpoint, p: Packet, seed: nat)
    requires e.session.window.Valid() && |e.session.window.entries| <= MAX_HYPER_RATCHETS_IN_MEMORY
    requires p.Proposal? && p.version == e.session.window.mostRecent
    requires !(e.session.updateInProgress && e.session.localIsInitiator)
    ensures Accepting(e, p, seed).session.window.Valid()
    ensures Receive(e, p, seed) == Outcome(Accepting(e, p, seed), [Answering(e, p, seed)], {})
  {
    var c := Constructor(e.session.window.entries[0].secret, p.alice, Some(seed));
    CommitSucceeds(e.session, c);
  }

  lemma Omits(e: Endpoint, p: Packet, seed: nat)
    requires p.Proposal? && e.session.window.Has(p.version)
    requires e.session.updateInProgress && e.session.localIsInitiator
    ensures Receive(e, p, seed) == Outcome(e, [Reply(p.version, p.path, Omitted)], {})
  {
  }

  /** `x`'s proposal is at the head and will win; `left` is what becomes of its receiver's own. */
  ghost predicate AboutToWin(s: System, x: Side, left: Leftover)
  {
    var toX, toY, ey := s.Inbox(x), s.Inbox(x.Peer()), s.End(x.Peer());
    && LevelAndCurrent(s) && AliceLock(s.End(x)) && toY != [] && Offers(s.End(x), toY[0])
    && !(ey.session.updateInProgress && ey.session.localIsInitiator)
    && match left
       case Nothing => |toY| == 1 && toX == [] && Clear(ey)
       case Unanswered => x == Initiator && |toY| == 1 && |toX| == 1 && toX[0].Proposal?
                          && Losing(ey, toX[0], ey.session.window.mostRecent)
       case Omission => x == Initiator && |toY| == 2 && toX == [] && toY[1].Reply?
                        && Losing(ey, toY[1], ey.session.window.mostRecent)
  }

  /** The core once the proposal at the head has been taken. */
  function Won(s: System, x: Side, seed: nat): System
    requires s.Inbox(x.Peer()) != [] && s.Inbox(x.Peer())[0].Proposal? && s.End(x.Peer()).session.window.entries != []
  {
    var y := x.Peer();
    var p := s.Inbox(y)[0];
    s.With(y, Accepting(s.End(y), p, seed), s.Inbox(y)[1..], s.Inbox(x) + [Answering(s.End(y), p, seed)])
  }

  lemma WonAnswer(ex: Endpoint, ey: Endpoint, p: Packet, seed: nat)
    requires Level(ex.session.window, ey.session.window) && Offers(ex, p)
    ensures Answers(Answering(ey, p, seed), ex, Accepting(ey, p, seed))
    ensures Aligned(ex.session.window, Accepting(ey, p, seed).session.window, 1)
  {
    var wx, wy := ex.session.window, ey.session.window;
    AlignedPush(wx, wy, Next(wy.entries[0].secret, p.alice, seed));
    assert wx.entries[0].secret == wy.entries[0].secret;
  }

  lemma WonShape(s: System, x: Side, left: Leftover, seed: nat)
    requires Windows(s) && AboutToWin(s, x, left)
    ensures InBobCommitted(Won(s, x, seed), x, left)
  {
    AlignedFlip(s.init.session.window, s.resp.session.window);
    WonAnswer(s.End(x), s.End(x.Peer()), s.Inbox(x.Peer())[0], seed);
  }

  lemma WinningStep(s: System, x: Side, left: Leftover, seed: nat)
    requires Windows(s) && AboutToWin(s, x, left)
    ensures Windows(Won(s, x, seed)) && Step(s, Deliver(x.Peer(), seed)) == (Won(s, x, seed), {})
  {
    var y := x.Peer();
    var p := s.Inbox(y)[0];
    Accepts(s.End(y), p, seed);
    Delivers(s, y, seed, Accepting(s.End(y), p, seed), [Answering(s.End(y), p, seed)]);
  }

  lemma ProposalWins(s: System, x: Side, left: Leftover, seed: nat)
    requires Windows(s) && AboutToWin(s, x, left)
    ensures Leads(s, Deliver(x.Peer(), seed), BobCommitted(x, left))
  {
    WinningStep(s, x, left, seed);
    WonShape(s, x, left, seed);
    LeadsBy(s, Deliver(x.Peer(), seed), Won(s, x, seed), BobCommitted(x, left));
  }

  lemma ProposedWins(s: System, x: Side)
    requires Windows(s) && InProposed(s, x)
    ensures AboutToWin(s, x, Nothing)
  {
  }

  lemma CrossedWins(s: System)
    requires Windows(s) && InCrossed(s)
    ensures AboutToWin(s, Initiator, Unanswered)
  {
  }

  lemma CrossedOmittedWins(s: System)
    requires Windows(s) && InCrossedOmitted(s)
    ensures AboutToWin(s, Initiator, Omission)
  {
  }

  lemma ProposalLoses(s: System, seed: nat)
    requires Windows(s) && s.toInit != [] && AliceLock(s.init)
    requires s.toInit[0].Proposal? && s.init.session.window.Has(s.toInit[0].version)
    ensures var p := s.toInit[0];
            Step(s, Deliver(Initiator, seed))
            == (s.(toInit := s.toInit[1..], toResp := s.toResp + [Reply(p.version, p.path, Omitted)]), {})
  {
    Omits(s.init, s.toInit[0], seed);
  }

  // ---- Alice takes the answer ----

  /** The session Alice ends with once her window is `w`. */
  function FinishedSession(s: Session, w: Window): Session
  {
    if |w.entries| > MAX_HYPER_RATCHETS_IN_MEMORY && w.Deregistered(w.oldest).Some?
    then s.(window := w.Deregistered(w.oldest).value, latestUsable := w.mostRecent)
    else s.(window := w, latestUsable := w.mostRecent, updateInProgress := false, lockSetByAlice := None)
  }

  lemma FinishSucceeds(s: Session, c: Constructor, bob: nat, st: UpdateStatus)
    requires s.window.Valid() && |s.window.entries| <= MAX_HYPER_RATCHETS_IN_MEMORY
    requires s.updateInProgress && s.lockSetByAlice == Some(true) && s.latestUsable == s.window.mostRecent
    requires st == StatusOf(Pushed(s.window, Next(c.base, c.alice, bob)))
    ensures var w := Pushed(s.window, Next(c.base, c.alice, bob));
            && w.Valid()
            && FinishedSession(s, w).window.Valid()
            && AliceFinish(s, Transfer(bob, st), Some(c)) == Finish(FinishedSession(s, w), Some(w.mostRecent), false, {})
  {
    CommitSucceeds(s, c.(bob := Some(bob)));
    var w := Pushed(s.window, Next(c.base, c.alice, bob));
    var s1 := s.(window := w);
    assert s.UpdatedSyncSafe(c.(bob := Some(bob)), true, s.window.cid) == Some((s1, StatusNoTransfer(st)));
    if |w.entries| > MAX_HYPER_RATCHETS_IN_MEMORY {
      DeregisteredContents(w, w.oldest);
      var s2 := s1.(window := w.Deregistered(w.oldest).value).Advanced();
      assert s2 == FinishedSession(s, w);
      assert s2.Usable() == Some(w.entries[0]);
    } else {
      assert s1.Advanced().Unlocked(true).Usable() == Some(w.entries[0]);
    }
  }

  lemma AnswerReceived(x: Endpoint, r: Packet, f: Finish, seed: nat)
    requires r.Reply? && r.status.Transfer? && r.path in x.pending && x.pending.Keys == {r.path}
    requires x.session.window.Has(r.version)
    requires f == AliceFinish(x.session, r.status, Some(x.pending[r.path])) && f.latest.Some? && !f.failed
    ensures var v := if r.path == Rekey then f.latest.value else r.version;
            Receive(x, r, seed)
            == Outcome(x.(session := f.session, pending := map[]), [Truncate(v, r.status.RequiresTruncation())], f.faults)
  {
    assert x.pending - {r.path} == map[];
  }

  lemma PushedStatus(w: Window, wy: Window, secret: Secret)
    requires w.Valid() && wy.Valid()
    requires wy.mostRecent == Succ32(w.mostRecent) && |wy.entries| == |w.entries| + 1
    ensures Pushed(w, secret).oldest == wy.oldest && StatusOf(Pushed(w, secret)) == StatusOf(wy)
  {
  }

  /** Alice's endpoint once the answer to her proposal has been taken. */
  function Finished(ex: Endpoint, ey: Endpoint): Endpoint
    requires ey.session.window.entries != []
  {
    ex.(session := FinishedSession(ex.session, Pushed(ex.session.window, ey.session.window.entries[0].secret)),
        pending := map[])
  }

  /** The core once Alice has sent her TRUNCATE: a rekey's under the new version, a message's under that of the answer. */
  function Concluded(s: System, x: Side): System
    requires s.Inbox(x) != [] && s.Inbox(x)[0].Reply? && s.End(x.Peer()).session.window.entries != []
  {
    var r, e := s.Inbox(x)[0], Finished(s.End(x), s.End(x.Peer()));
    var v := if r.path == Rekey then e.session.window.mostRecent else r.version;
    s.With(x, e, [], s.Inbox(x.Peer()) + [Truncate(v, r.status.RequiresTruncation())])
  }

  lemma AnswerStep(s: System, x: Side, left: Leftover, seed: nat)
    requires Windows(s) && InBobCommitted(s, x, left) && left != Unanswered
    ensures Windows(Concluded(s, x)) && Step(s, Deliver(x, seed)) == (Concluded(s, x), {})
  {
    var ex, ey := s.End(x), s.End(x.Peer());
    var r := s.Inbox(x)[0];
    var c := ex.pending[r.path];
    PushedStatus(ex.session.window, ey.session.window, ey.session.window.entries[0].secret);
    FinishSucceeds(ex.session, c, r.status.bob, r.status.status);
    AnswerReceived(ex, r, AliceFinish(ex.session, r.status, Some(c)), seed);
    assert s.Inbox(x)[1..] == [];
  }

  lemma FinishedShape(s: System, x: Side, left: Leftover)
    requires Windows(s) && InBobCommitted(s, x, left) && left != Unanswered
    ensures var s' := Concluded(s, x);
            && AwaitsTruncate(s', x, left == Omission)
            && Ends(s'.Inbox(x.Peer()), s.End(x.Peer()), left == Omission, s.Inbox(x)[0].status.RequiresTruncation())
  {
    var ex, ey := s.End(x), s.End(x.Peer());
    var wx, wy := ex.session.window, ey.session.window;
    AlignedCatchUp(wx, wy, wy.entries[0].secret);
    var w := Pushed(wx, wy.entries[0].secret);
    assert Aligned(w, wy, 0);
    var w' := Finished(ex, ey).session.window;
    assert w'.entries == w.entries || w'.entries == w.entries[..|w.entries| - 1];
    assert Aligned(w', wy, 0);
  }

  function AfterAnswer(s: System, x: Side, left: Leftover): Phase
  {
    if |s.End(x.Peer()).session.window.entries| > MAX_HYPER_RATCHETS_IN_MEMORY then Truncating(x, left == Omission)
    else BothCommitted(x, left == Omission, false)
  }

  lemma AnsweredShape(s: System, x: Side, left: Leftover)
    requires Windows(s) && InBobCommitted(s, x, left) && left != Unanswered
    ensures InPhase(Concluded(s, x), AfterAnswer(s, x, left))
  {
    var ex, ey := s.End(x), s.End(x.Peer());
    PushedStatus(ex.session.window, ey.session.window, ey.session.window.entries[0].secret);
    FinishedShape(s, x, left);
    if |ey.session.window.entries| > MAX_HYPER_RATCHETS_IN_MEMORY {
      assert InTruncating(Concluded(s, x), x, left == Omission);
    } else {
      assert InBothCommitted(Concluded(s, x), x, left == Omission, false);
    }
  }

  /** The answer leads on, and what goes back names the proposer's new version, or on a message's path the answer's. */
  lemma AnswerTaken(s: System, x: Side, left: Leftover, seed: nat) returns (ph: Phase)
    requires Windows(s) && InBobCommitted(s, x, left) && left != Unanswered
    ensures ph == AfterAnswer(s, x, left) && Leads(s, Deliver(x, seed), ph)
    ensures var s', r := Step(s, Deliver(x, seed)).0, s.Inbox(x)[0];
            var w' := s'.End(x).session.window;
            && w'.mostRecent == Succ32(s.End(x).session.window.mostRecent)
            && s'.Inbox(x.Peer()) == s.Inbox(x.Peer())
                 + [Truncate(if r.path == Rekey then w'.mostRecent else r.version, r.status.RequiresTruncation())]
  {
    AnswerStep(s, x, left, seed);
    AnsweredShape(s, x, left);
    ph := AfterAnswer(s, x, left);
    LeadsBy(s, Deliver(x, seed), Concluded(s, x), ph);
  }

  // ---- The loser learns that its proposal was omitted ----

  lemma OmissionReceived(e: Endpoint, p: Packet, seed: nat)
    requires e.session.window.Valid() && BobLock(e) && p.Reply? && p.status.Omitted?
    requires e.pending.Keys == {p.path}
    requires e.session.window.Has(p.version) && e.session.window.Has(e.session.latestUsable)
    ensures Receive(e, p, seed)
            == Outcome(e.(pending := map[]), if p.path == Rekey then [Truncate(e.session.latestUsable, None)] else [], {})
  {
    assert e.pending - {p.path} == map[];
    assert e.session.Usable().value.version == e.session.latestUsable;
  }

  /** An omission is next in line for the responder, which has meanwhile committed as Bob. */
  predicate OmissionNext(ph: Phase)
  {
    match ph
    case BobCommitted(_, left) => left == Omission
    case BothCommitted(_, omission, _) => omission
    case Truncating(_, omission) => omission
    case _ => false
  }

  function AfterOmission(ph: Phase): Phase
  {
    match ph
    case BobCommitted(x, _) => BobCommitted(x, Nothing)
    case BothCommitted(x, _, again) => BothCommitted(x, false, again)
    case Truncating(x, _) => Truncating(x, false)
    case _ => ph
  }

  lemma OmissionHead(s: System, ph: Phase)
    requires Windows(s) && InPhase(s, ph) && OmissionNext(ph)
    ensures s.toResp != [] && BobLock(s.resp)
    ensures var p := s.toResp[0];
            && p.Reply? && p.status.Omitted? && s.resp.pending.Keys == {p.path}
            && s.resp.session.window.Has(p.version) && s.resp.session.window.Has(s.resp.session.latestUsable)
  {
  }

  function WithoutOmission(s: System): System
    requires s.toResp != []
  {
    s.(resp := s.resp.(pending := map[]), toResp := s.toResp[1..])
  }

  lemma OmissionTakenEarly(s: System, x: Side)
    requires Windows(s) && InBobCommitted(s, x, Omission)
    ensures InBobCommitted(WithoutOmission(s), x, Nothing)
  {
    assert Answers(s.toInit[0], s.init, WithoutOmission(s).resp);
  }

  lemma OmissionTaken(s: System, ph: Phase)
    requires Windows(s) && InPhase(s, ph) && OmissionNext(ph) && s.toResp != []
    ensures InPhase(WithoutOmission(s), AfterOmission(ph))
  {
    match ph
    case BobCommitted(x, _) => OmissionTakenEarly(s, x);
    case BothCommitted(x, _, again) => assert InBothCommitted(WithoutOmission(s), x, false, again);
    case Truncating(x, _) => assert InTruncating(WithoutOmission(s), x, false);
  }

  // ---- Bob takes the TRUNCATE, Alice its acknowledgement ----

  /** Bob's endpoint once the TRUNCATE is taken and his window is `w`. */
  function Truncated(e: Endpoint, w: Window): Endpoint
  {
    e.(session := e.session.(window := w, latestUsable := w.mostRecent, updateInProgress := false, lockSetByAlice := None))
  }

  lemma TruncateReceived(e: Endpoint, p: Packet, seed: nat) returns (w: Window)
    requires e.session.window.Valid() && |e.session.window.entries| >= 2 && BobLock(e)
    requires Succ32(e.session.latestUsable) == e.session.window.mostRecent
    requires p.Truncate? && e.session.window.Has(p.version)
    requires p.truncate.Some? ==> p.truncate.value == e.session.window.oldest
                                  && |e.session.window.entries| == MAX_HYPER_RATCHETS_IN_MEMORY + 1
    ensures Some(w) == if p.truncate.Some? then e.session.window.Deregistered(p.truncate.value) else Some(e.session.window)
    ensures w.Valid()
    ensures Receive(e, p, seed)
            == Outcome(Truncated(e, w), if p.truncate.Some? then [TruncateAck(p.version, p.truncate.value)] else [], {})
  {
    w := e.session.window;
    if p.truncate.Some? {
      DeregisteredContents(w, p.truncate.value);
      w := w.Deregistered(p.truncate.value).value;
    }
    assert Truncated(e, w).session.Usable() == Some(e.session.window.entries[0]);
  }

  lemma TruncateTaken(s: System, x: Side, again: bool, seed: nat)
    requires Windows(s) && InBothCommitted(s, x, false, again)
    ensures Leads(s, Deliver(x.Peer(), seed), if again then Proposed(x) else Idle)
  {
    var y := x.Peer();
    var w := TruncateReceived(s.End(y), s.Inbox(y)[0], seed);
    assert s.Inbox(x) + [] == [];
    AlignedFlip(s.End(x).session.window, s.End(y).session.window);
    Delivers(s, y, seed, Truncated(s.End(y), w), []);
    LeadsBy(s, Deliver(y, seed), s.With(y, Truncated(s.End(y), w), s.Inbox(y)[1..], []),
            if again then Proposed(x) else Idle);
  }

  lemma DroppedLevel(a: Window, b: Window, b': Window)
    requires Aligned(a, b, 0) && |a.entries| == MAX_HYPER_RATCHETS_IN_MEMORY
    requires |b.entries| == MAX_HYPER_RATCHETS_IN_MEMORY + 1
    requires a.mostRecent == b.mostRecent == b'.mostRecent && b'.entries == b.entries[..MAX_HYPER_RATCHETS_IN_MEMORY]
    ensures Level(a, b') && Level(b', a)
  {
  }

  lemma TruncatedShape(s: System, x: Side, w: Window)
    requires Windows(s) && InTruncating(s, x, false)
    requires var wy := s.End(x.Peer()).session.window; wy.Deregistered(wy.oldest) == Some(w)
    ensures var y, p := x.Peer(), s.Inbox(x.Peer())[0];
            InAcknowledging(s.With(y, Truncated(s.End(y), w), [], [TruncateAck(p.version, p.truncate.value)]), x, false)
  {
    DroppedLevel(s.End(x).session.window, s.End(x.Peer()).session.window, w);
  }

  lemma TruncationTaken(s: System, x: Side, seed: nat)
    requires Windows(s) && InTruncating(s, x, false)
    ensures Leads(s, Deliver(x.Peer(), seed), Acknowledging(x, false))
  {
    var y := x.Peer();
    var p := s.Inbox(y)[0];
    var w := TruncateReceived(s.End(y), p, seed);
    var sent := [TruncateAck(p.version, p.truncate.value)];
    assert s.Inbox(x) + sent == sent && s.Inbox(y)[1..] == [];
    Delivers(s, y, seed, Truncated(s.End(y), w), sent);
    TruncatedShape(s, x, w);
    LeadsBy(s, Deliver(y, seed), s.With(y, Truncated(s.End(y), w), [], sent), Acknowledging(x, false));
  }

  lemma AckTaken(s: System, x: Side, again: bool, seed: nat)
    requires Windows(s) && InAcknowledging(s, x, again)
    ensures Leads(s, Deliver(x, seed), if again then Proposed(x.Peer()) else Idle)
  {
    assert s.Inbox(x.Peer()) + [] == [];
  }

  // ---- Proposing, by either path ----

  /** `o` is what an unlocked endpoint does when it proposes. */
  ghost predicate Proposes(e: Endpoint, o: Outcome)
  {
    && |o.sent| == 1 && o.faults == {}
    && Offers(o.end, o.sent[0]) && AliceLock(o.end)
    && o.end.session.window == e.session.window && o.end.session.latestUsable == e.session.latestUsable
    && o.end.session.localIsInitiator == e.session.localIsInitiator
  }

  lemma UnlockedProposes(e: Endpoint, seed: nat)
    requires e.session.window.Valid() && Clear(e) && Current(e)
    ensures Proposes(e, StartRekey(e, seed)) && Proposes(e, SendMessage(e, seed))
  {
  }

  /** The phases in which `x` is unlocked, and where its proposal leads. */
  predicate MayPropose(ph: Phase, x: Side)
  {
    match ph
    case Idle => true
    case Proposed(y) => x != y
    case BothCommitted(y, _, again) => x == y && !again
    case Acknowledging(y, again) => x != y && !again
    case _ => false
  }

  function AfterProposal(ph: Phase, x: Side): Phase
  {
    match ph
    case Idle => Proposed(x)
    case Proposed(_) => Crossed
    case BothCommitted(y, omission, _) => BothCommitted(y, omission, true)
    case Acknowledging(y, _) => Acknowledging(y, true)
    case _ => ph
  }

  /** Alice has taken the answer to her proposal. */
  predicate AliceCommitted(ph: Phase)
  {
    ph.BothCommitted? || ph.Truncating? || ph.Acknowledging?
  }

  lemma UnlockedEarly(s: System, ph: Phase, x: Side)
    requires Windows(s) && InPhase(s, ph) && !AliceCommitted(ph)
    ensures MayPropose(ph, x) <==> !s.End(x).session.updateInProgress
    ensures MayPropose(ph, x) ==> Clear(s.End(x)) && Current(s.End(x))
    ensures s.End(x).session.window.Has(s.End(x).session.latestUsable)
  {
  }

  lemma UnlockedLate(s: System, ph: Phase, x: Side)
    requires Windows(s) && InPhase(s, ph) && AliceCommitted(ph)
    ensures MayPropose(ph, x) <==> !s.End(x).session.updateInProgress
    ensures MayPropose(ph, x) ==> Clear(s.End(x)) && Current(s.End(x))
    ensures s.End(x).session.window.Has(s.End(x).session.latestUsable)
  {
  }

  lemma UnlockedExactlyWhenMayPropose(s: System, ph: Phase, x: Side)
    requires Windows(s) && InPhase(s, ph)
    ensures MayPropose(ph, x) <==> !s.End(x).session.updateInProgress
    ensures MayPropose(ph, x) ==> Clear(s.End(x)) && Current(s.End(x))
    ensures s.End(x).session.window.Has(s.End(x).session.latestUsable)
  {
    if AliceCommitted(ph) { UnlockedLate(s, ph, x); } else { UnlockedEarly(s, ph, x); }
  }

  lemma ProposalBehind(s: System, ph: Phase, x: Side, o: Outcome)
    requires Windows(s) && InPhase(s, ph) && MayPropose(ph, x) && Proposes(s.End(x), o) && AliceCommitted(ph)
    ensures InPhase(Emit(s, x, o).0, AfterProposal(ph, x))
  {
    match ph
    case BothCommitted(y, omission, _) => assert InBothCommitted(Emit(s, x, o).0, y, omission, true);
    case Acknowledging(y, _) => assert InAcknowledging(Emit(s, x, o).0, y, true);
  }

  lemma ProposalFirst(s: System, ph: Phase, x: Side, o: Outcome)
    requires Windows(s) && InPhase(s, ph) && MayPropose(ph, x) && Proposes(s.End(x), o) && !AliceCommitted(ph)
    ensures InPhase(Emit(s, x, o).0, AfterProposal(ph, x))
  {
    match ph
    case Idle => assert InProposed(Emit(s, x, o).0, x);
    case Proposed(y) => assert InCrossed(Emit(s, x, o).0);
  }

  lemma ProposalSent(s: System, ph: Phase, x: Side, o: Outcome)
    requires Windows(s) && InPhase(s, ph) && MayPropose(ph, x) && Proposes(s.End(x), o)
    ensures InPhase(Emit(s, x, o).0, AfterProposal(ph, x))
  {
    if AliceCommitted(ph) { ProposalBehind(s, ph, x, o); } else { ProposalFirst(s, ph, x, o); }
  }

  // ---- All deliveries together ----

  /** Where delivering the head of `y`'s stream leads; `full` says the update outgrew the window. */
  function NextPhase(ph: Phase, y: Side, full: bool): Phase
  {
    match ph
    case Idle => Idle
    case Proposed(x) => BobCommitted(x, Nothing)
    case Crossed => if y == Responder then BobCommitted(Initiator, Unanswered) else CrossedOmitted
    case CrossedOmitted => BobCommitted(Initiator, Omission)
    case BobCommitted(x, left) =>
      if left == Unanswered then BobCommitted(x, Omission)
      else if y != x then AfterOmission(ph)
      else if full then Truncating(x, left == Omission)
      else BothCommitted(x, left == Omission, false)
    case BothCommitted(x, omission, again) =>
      if omission then AfterOmission(ph) else if again then Proposed(x) else Idle
    case Truncating(x, omission) => if omission then AfterOmission(ph) else Acknowledging(x, false)
    case Acknowledging(x, again) => if again then Proposed(x.Peer()) else Idle
  }

  predicate Full(s: System, y: Side)
  {
    |s.End(y.Peer()).session.window.entries| > MAX_HYPER_RATCHETS_IN_MEMORY
  }

  /** The delivery after which the source answers an omission with a TRUNCATE. */
  predicate OmittedRekeyNext(s: System, y: Side)
  {
    var ch := s.Inbox(y);
    ch != [] && ch[0].Reply? && ch[0].status.Omitted? && ch[0].path == Rekey
  }

  lemma CrossedDelivered(s: System, y: Side, seed: nat)
    requires Windows(s) && InCrossed(s)
    ensures Leads(s, Deliver(y, seed), NextPhase(Crossed, y, Full(s, y)))
  {
    if y == Responder {
      CrossedWins(s);
      ProposalWins(s, Initiator, Unanswered, seed);
    } else {
      ProposalLoses(s, seed);
      assert InCrossedOmitted(Step(s, Deliver(y, seed)).0);
    }
  }

  lemma UnansweredDelivered(s: System, y: Side, seed: nat)
    requires Windows(s) && InBobCommitted(s, Initiator, Unanswered) && s.Inbox(y) != []
    ensures Leads(s, Deliver(y, seed), BobCommitted(Initiator, Omission))
  {
    assert y == Initiator;
    ProposalLoses(s, seed);
  }

  lemma OmissionDelivered(s: System, ph: Phase, seed: nat)
    requires Windows(s) && InPhase(s, ph) && OmissionNext(ph) && !OmittedRekeyNext(s, Responder)
    ensures Leads(s, Deliver(Responder, seed), AfterOmission(ph))
  {
    OmissionHead(s, ph);
    OmissionReceived(s.resp, s.toResp[0], seed);
    OmissionTaken(s, ph);
    Delivers(s, Responder, seed, s.resp.(pending := map[]), []);
    assert s.toInit + [] == s.toInit;
    LeadsBy(s, Deliver(Responder, seed), WithoutOmission(s), AfterOmission(ph));
  }

  lemma EarlyDelivered(s: System, ph: Phase, y: Side, seed: nat)
    requires Windows(s) && InPhase(s, ph) && s.Inbox(y) != [] && !AliceCommitted(ph) && !ph.BobCommitted?
    ensures Leads(s, Deliver(y, seed), NextPhase(ph, y, Full(s, y)))
  {
    match ph
    case Idle =>
    case Proposed(x) =>
      assert y == x.Peer();
      ProposedWins(s, x);
      ProposalWins(s, x, Nothing, seed);
    case Crossed => CrossedDelivered(s, y, seed);
    case CrossedOmitted =>
      assert y == Responder;
      CrossedOmittedWins(s);
      ProposalWins(s, Initiator, Omission, seed);
  }

  lemma BobCommittedDelivered(s: System, x: Side, left: Leftover, y: Side, seed: nat)
    requires Windows(s) && InBobCommitted(s, x, left) && s.Inbox(y) != [] && !OmittedRekeyNext(s, y)
    ensures Leads(s, Deliver(y, seed), NextPhase(BobCommitted(x, left), y, Full(s, y)))
  {
    if left == Unanswered { UnansweredDelivered(s, y, seed); }
    else if y != x { OmissionDelivered(s, BobCommitted(x, left), seed); }
    else { AnswerDelivered(s, x, left, seed); }
  }

  lemma AnswerDelivered(s: System, x: Side, left: Leftover, seed: nat)
    requires Windows(s) && InBobCommitted(s, x, left) && left != Unanswered
    ensures Leads(s, Deliver(x, seed), NextPhase(BobCommitted(x, left), x, Full(s, x)))
  {
    var ph := AnswerTaken(s, x, left, seed);
  }

  lemma LateDelivered(s: System, ph: Phase, y: Side, seed: nat)
    requires Windows(s) && InPhase(s, ph) && s.Inbox(y) != [] && !OmittedRekeyNext(s, y) && AliceCommitted(ph)
    ensures Leads(s, Deliver(y, seed), NextPhase(ph, y, Full(s, y)))
  {
    match ph
    case BothCommitted(x, omission, again) =>
      assert y == x.Peer();
      if omission { OmissionDelivered(s, ph, seed); } else { TruncateTaken(s, x, again, seed); }
    case Truncating(x, omission) =>
      assert y == x.Peer();
      if omission { OmissionDelivered(s, ph, seed); } else { TruncationTaken(s, x, seed); }
    case Acknowledging(x, again) =>
      assert y == x;
      AckTaken(s, x, again, seed);
  }

  lemma HandshakeDelivered(s: System, ph: Phase, y: Side, seed: nat)
    requires Windows(s) && InPhase(s, ph) && s.Inbox(y) != [] && !OmittedRekeyNext(s, y)
    ensures Leads(s, Deliver(y, seed), NextPhase(ph, y, Full(s, y)))
  {
    if AliceCommitted(ph) {
      LateDelivered(s, ph, y, seed);
    } else if ph.BobCommitted? {
      BobCommittedDelivered(s, ph.x, ph.left, y, seed);
    } else {
      EarlyDelivered(s, ph, y, seed);
    }
  }
}
