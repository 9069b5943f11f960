/** Simultaneous proposals: exactly one of the two commits, and it is the initiator's. */
module RekeyTies {
  import opened Words
  import opened Ratchets
  import opened Toolsets
  import opened RekeyModel
  import opened RekeyInvariant
  import opened RekeyHandshake
  import opened RekeySteps
  import opened RekeyStray

  // ---- Everything in flight is delivered sooner or later ----

  function Weight(p: Packet): nat
  {
    match p
    case Proposal(_, _, _) => 5
    case Reply(_, path, status) => if status.Empty? && path.Message? then 1 else 4
    case Truncate(_, _) => 3
    case Data(_, _) => 2
    case TruncateAck(_, _) => 1
  }

  function Load(ch: seq<Packet>): nat
  {
    if ch == [] then 0 else Weight(ch[0]) + Load(ch[1..])
  }

  lemma {:induction false} LoadAppend(ch: seq<Packet>, p: Packet)
    ensures Load(ch + [p]) == Load(ch) + Weight(p)
    decreases |ch|
  {
    if ch != [] {
      assert (ch + [p])[1..] == ch[1..] + [p];
      LoadAppend(ch[1..], p);
    } else {
      assert (ch + [p])[1..] == [];
    }
  }

  lemma SentIsLighter(e: Endpoint, p: Packet, seed: nat)
    ensures var o := Receive(e, p, seed); |o.sent| <= 1 && (o.sent != [] ==> Weight(o.sent[0]) < Weight(p))
  {
  }

  lemma DeliveryShrinks(s: System, y: Side, seed: nat)
    requires s.Inbox(y) != []
    ensures var s' := Step(s, Deliver(y, seed)).0;
            Load(s'.toInit) + Load(s'.toResp) < Load(s.toInit) + Load(s.toResp)
  {
    var o := Receive(s.End(y), s.Inbox(y)[0], seed);
    SentIsLighter(s.End(y), s.Inbox(y)[0], seed);
    if o.sent == [] {
      assert s.Inbox(y.Peer()) + o.sent == s.Inbox(y.Peer());
    } else {
      assert o.sent == [o.sent[0]];
      LoadAppend(s.Inbox(y.Peer()), o.sent[0]);
    }
  }

  predicate OnlyDeliveries(acts: seq<Action>)
  {
    forall k :: 0 <= k < |acts| ==> acts[k].Deliver?
  }

  lemma {:induction false} RunSplit(s: System, first: Action, rest: seq<Action>)
    ensures Run(s, [first] + rest) == Run(Step(s, first).0, rest)
    decreases |rest|
  {
    var acts := [first] + rest;
    if rest == [] {
      assert acts[..0] == [];
    } else {
      assert acts[..|acts| - 1] == [first] + rest[..|rest| - 1];
      RunSplit(s, first, rest[..|rest| - 1]);
    }
  }

  /** From any state at all, deliveries alone empty both streams. */
  lemma StreamsDrain(s: System) returns (acts: seq<Action>)
    ensures OnlyDeliveries(acts)
    ensures var s' := Run(s, acts); s'.toInit == [] && s'.toResp == []
    decreases Load(s.toInit) + Load(s.toResp)
  {
    if s.toInit == [] && s.toResp == [] {
      acts := [];
    } else {
      var y := if s.toInit != [] then Initiator else Responder;
      DeliveryShrinks(s, y, 0);
      var rest := StreamsDrain(Step(s, Deliver(y, 0)).0);
      RunSplit(s, Deliver(y, 0), rest);
      acts := [Deliver(y, 0)] + rest;
    }
  }

  // ---- What a tie settles on ----

  ghost predicate From(secret: Secret, base: Secret, alice: nat)
  {
    secret.Next? && secret.base == base && secret.alice == alice
  }

  ghost function Newest(c: System, x: Side): Secret
    requires c.End(x).session.window.entries != []
  {
    c.End(x).session.window.entries[0].secret
  }

  /** Once the handshake under way is over, the newest ratchet has version `v` and stems from `alice`. */
  ghost predicate Settles(c: System, ph: Phase, v: u32, base: Secret, alice: nat)
    requires c.init.session.window.entries != [] && c.resp.session.window.entries != []
  {
    var mr := c.init.session.window.mostRecent;
    match ph
    case Idle => v == mr && From(Newest(c, Initiator), base, alice)
    case Crossed => v == Succ32(mr) && c.toResp != [] && c.toResp[0].Proposal? && c.toResp[0].alice == alice && Newest(c, Initiator) == base
    case CrossedOmitted => v == Succ32(mr) && c.toResp != [] && c.toResp[0].Proposal? && c.toResp[0].alice == alice && Newest(c, Initiator) == base
    case BobCommitted(x, _) => x == Initiator && v == c.resp.session.window.mostRecent && From(Newest(c, Responder), base, alice)
    case BothCommitted(x, _, again) => x == Initiator && !again && v == mr && From(Newest(c, x), base, alice)
    case Truncating(x, _) => x == Initiator && v == mr && From(Newest(c, x), base, alice)
    case Acknowledging(x, again) => x == Initiator && !again && v == mr && From(Newest(c, x), base, alice)
    case Proposed(_) => false
  }

  lemma TieAnswered(c: System, left: Leftover, v: u32, base: Secret, alice: nat, seed: nat)
    requires Windows(c) && (if left == Omission then InCrossedOmitted(c) else InCrossed(c) && left == Unanswered)
    requires Settles(c, if left == Omission then CrossedOmitted else Crossed, v, base, alice)
    ensures var c' := Step(c, Deliver(Responder, seed)).0;
            Windows(c') && Settles(c', BobCommitted(Initiator, left), v, base, alice)
  {
    if left == Omission { CrossedOmittedWins(c); } else { CrossedWins(c); }
    WinningStep(c, Initiator, left, seed);
    assert c.init.session.window.entries[0].secret == c.resp.session.window.entries[0].secret;
  }

  lemma AnswerSettles(c: System, x: Side, left: Leftover, v: u32, base: Secret, alice: nat, seed: nat)
    requires Windows(c) && InBobCommitted(c, x, left) && left != Unanswered
    requires Settles(c, BobCommitted(x, left), v, base, alice)
    ensures var c' := Step(c, Deliver(x, seed)).0;
            Windows(c') && Settles(c', NextPhase(BobCommitted(x, left), x, Full(c, x)), v, base, alice)
  {
    AnswerStep(c, x, left, seed);
    FinishedNewest(c.End(x), c.End(x.Peer()));
  }

  lemma FinishedNewest(ex: Endpoint, ey: Endpoint)
    requires ey.session.window.entries != [] && ex.session.window.entries != []
    ensures var w := Finished(ex, ey).session.window;
            && w.mostRecent == Succ32(ex.session.window.mostRecent)
            && w.entries != [] && w.entries[0].secret == ey.session.window.entries[0].secret
  {
  }

  lemma AckKeepsWindow(e: Endpoint, p: Packet, seed: nat)
    requires p.TruncateAck?
    ensures Receive(e, p, seed).end.session.window == e.session.window
  {
  }

  lemma LateSettles(c: System, ph: Phase, y: Side, v: u32, base: Secret, alice: nat, seed: nat)
    requires Windows(c) && InPhase(c, ph) && c.Inbox(y) != [] && !OmittedRekeyNext(c, y)
    requires AliceCommitted(ph) && Settles(c, ph, v, base, alice)
    ensures var c' := Step(c, Deliver(y, seed)).0;
            Windows(c') && Settles(c', NextPhase(ph, y, Full(c, y)), v, base, alice)
  {
    HandshakeDelivered(c, ph, y, seed);
    LateWindow(c, ph, y, seed);
  }

  lemma LateWindow(c: System, ph: Phase, y: Side, seed: nat)
    requires InPhase(c, ph) && c.Inbox(y) != [] && AliceCommitted(ph) && ph.x == Initiator && (ph.Acknowledging? ==> !ph.again)
    ensures Step(c, Deliver(y, seed)).0.init.session.window == c.init.session.window
  {
    DeliveryTakes(c, y, seed);
    if y == Initiator { AckKeepsWindow(c.init, c.toInit[0], seed); }
  }

  lemma OmittedSettles(c: System, ph: Phase, v: u32, base: Secret, alice: nat, seed: nat)
    requires Windows(c) && Settles(c, ph, v, base, alice)
    requires (ph == Crossed && InCrossed(c)) || (ph == BobCommitted(Initiator, Unanswered) && InBobCommitted(c, Initiator, Unanswered))
    ensures var c' := Step(c, Deliver(Initiator, seed)).0;
            Windows(c') && Settles(c', NextPhase(ph, Initiator, Full(c, Initiator)), v, base, alice)
  {
    ProposalLoses(c, seed);
  }

  lemma OmissionSettles(c: System, v: u32, base: Secret, alice: nat, seed: nat)
    requires Windows(c) && InBobCommitted(c, Initiator, Omission) && !OmittedRekeyNext(c, Responder)
    requires Settles(c, BobCommitted(Initiator, Omission), v, base, alice)
    ensures var c' := Step(c, Deliver(Responder, seed)).0;
            Windows(c') && Settles(c', BobCommitted(Initiator, Nothing), v, base, alice)
  {
    OmissionHead(c, BobCommitted(Initiator, Omission));
    OmissionReceived(c.resp, c.toResp[0], seed);
  }

  lemma DeliverySettles(c: System, ph: Phase, y: Side, v: u32, base: Secret, alice: nat, seed: nat)
    requires Windows(c) && InPhase(c, ph) && c.Inbox(y) != [] && !OmittedRekeyNext(c, y)
    requires Settles(c, ph, v, base, alice)
    ensures var c' := Step(c, Deliver(y, seed)).0;
            Windows(c') && Settles(c', NextPhase(ph, y, Full(c, y)), v, base, alice)
  {
    match ph
    case Idle =>
    case Crossed =>
      if y == Responder { TieAnswered(c, Unanswered, v, base, alice, seed); } else { OmittedSettles(c, ph, v, base, alice, seed); }
    case CrossedOmitted => TieAnswered(c, Omission, v, base, alice, seed);
    case BobCommitted(x, left) =>
      if left == Unanswered { OmittedSettles(c, ph, v, base, alice, seed); }
      else if y == x { AnswerSettles(c, x, left, v, base, alice, seed); }
      else { OmissionSettles(c, v, base, alice, seed); }
    case BothCommitted(_, _, _) => LateSettles(c, ph, y, v, base, alice, seed);
    case Truncating(_, _) => LateSettles(c, ph, y, v, base, alice, seed);
    case Acknowledging(_, _) => LateSettles(c, ph, y, v, base, alice, seed);
  }

  lemma NoiseKeepsCore(s: System, ph: Phase, y: Side, seed: nat)
    requires Inv(s, ph) && s.Inbox(y) != [] && !IsControl(s.Inbox(y)[0])
    ensures Core(Step(s, Deliver(y, seed)).0) == Core(s)
  {
    PhaseGoals(Core(s), ph, y.Peer());
    NearGoals(s.Inbox(y.Peer()), s.End(y).session.window);
    if s.Inbox(y)[0].Data? { DataDelivered(s, y, seed); } else { EmptyReplyDelivered(s, y, seed); }
  }

  lemma ControlSettles(s: System, ph: Phase, y: Side, v: u32, base: Secret, alice: nat, seed: nat)
    requires Windows(s) && InPhase(Core(s), ph) && s.Inbox(y) != [] && IsControl(s.Inbox(y)[0]) && !OmittedRekeyNext(s, y)
    requires Settles(Core(s), ph, v, base, alice)
    ensures var c' := Core(Step(s, Deliver(y, seed)).0);
            Windows(c') && Settles(c', NextPhase(ph, y, Full(s, y)), v, base, alice)
  {
    CoreStep(s, y, seed);
    DeliverySettles(Core(s), ph, y, v, base, alice, seed);
  }

  lemma StepSettles(s: System, ph: Phase, y: Side, v: u32, base: Secret, alice: nat, seed: nat)
    requires Inv(s, ph) && s.Inbox(y) != [] && !OmittedRekeyNext(s, y) && Settles(Core(s), ph, v, base, alice)
    ensures var s', ph' := Step(s, Deliver(y, seed)).0, PhaseAfter(s, ph, Deliver(y, seed));
            Windows(Core(s')) && Settles(Core(s'), ph', v, base, alice)
  {
    if IsControl(s.Inbox(y)[0]) {
      ControlSettles(s, ph, y, v, base, alice, seed);
    } else {
      NoiseKeepsCore(s, ph, y, seed);
    }
  }

  // ---- The responder's proposal loses, and what its kind leads to ----

  /** The responder's lost proposal, or the answer to it, is still under way. */
  predicate Owed(ph: Phase)
  {
    match ph
    case Crossed => true
    case CrossedOmitted => true
    case BobCommitted(_, left) => left != Nothing
    case BothCommitted(_, omission, _) => omission
    case Truncating(_, omission) => omission
    case _ => false
  }

  /** The path the responder's lost proposal took, as long as it can be read off the state. */
  ghost predicate LostOn(c: System, ph: Phase, path: Path)
  {
    if Owed(ph) then c.resp.pending.Keys == {path} else path.Message?
  }

  lemma OmissionPath(c: System, ph: Phase, path: Path)
    requires Windows(c) && InPhase(c, ph) && OmissionNext(ph) && LostOn(c, ph, path)
    ensures c.toResp != [] && c.toResp[0].Reply? && c.toResp[0].path == path
  {
    OmissionHead(c, ph);
    assert c.toResp[0].path in c.resp.pending.Keys;
  }

  /** Packets that leave what their receiver keeps pending alone. */
  lemma PendingKept(e: Endpoint, p: Packet, seed: nat)
    requires !p.Reply?
    ensures Receive(e, p, seed).end.pending == e.pending
  {
  }

  lemma LostPathAtInitiator(c: System, ph: Phase, path: Path, full: bool)
    requires InPhase(c, ph) && c.toInit != [] && LostOn(c, ph, path)
    ensures LostOn(c, NextPhase(ph, Initiator, full), path)
  {
  }

  lemma LostPathAtResponder(c: System, ph: Phase, path: Path, full: bool)
    requires InPhase(c, ph) && c.toResp != [] && !OmissionNext(ph) && LostOn(c, ph, path)
    ensures LostOn(c, NextPhase(ph, Responder, full), path) && (Owed(ph) ==> !c.toResp[0].Reply?)
  {
  }

  /** A delivery keeps to the lost proposal's path, or shows that it rode on a message. */
  lemma LostPathKept(c: System, ph: Phase, y: Side, path: Path, seed: nat)
    requires Windows(c) && InPhase(c, ph) && c.Inbox(y) != [] && !OmittedRekeyNext(c, y) && LostOn(c, ph, path)
    ensures LostOn(Step(c, Deliver(y, seed)).0, NextPhase(ph, y, Full(c, y)), path)
  {
    DeliveryTakes(c, y, seed);
    if y == Initiator {
      LostPathAtInitiator(c, ph, path, Full(c, y));
    } else if OmissionNext(ph) {
      OmissionPath(c, ph, path);
      OmissionNotOwed(ph, Full(c, y));
    } else {
      LostPathAtResponder(c, ph, path, Full(c, y));
      if Owed(ph) { PendingKept(c.resp, c.toResp[0], seed); }
    }
  }

  lemma OmissionNotOwed(ph: Phase, full: bool)
    requires OmissionNext(ph)
    ensures !Owed(AfterOmission(ph)) && (!ph.BobCommitted? ==> NextPhase(ph, Responder, full) == AfterOmission(ph))
    ensures ph.BobCommitted? && ph.x == Initiator ==> NextPhase(ph, Responder, full) == AfterOmission(ph)
  {
  }

  // ---- The course a tie takes, through a stray TRUNCATE if there is one ----

  /** What the tie settles on, and the path of the responder's proposal. */
  datatype Tie = Tie(v: u32, base: Secret, alice: nat, path: Path)

  datatype Course = Going(ph: Phase) | Strayed(k: nat, ph: Phase) | Over

  ghost predicate Newly(w: Window, t: Tie)
  {
    w.entries != [] && w.mostRecent == t.v && From(w.entries[0].secret, t.base, t.alice)
  }

  /** Nothing on its way can raise a version any more, and no TRUNCATE is on its way to the initiator. */
  ghost predicate Spent(s: System)
  {
    && (forall i :: 0 <= i < |s.toInit| ==>
          var p := s.toInit[i]; p.Data? || (p.Reply? && p.status.Empty? && p.path.Message?) || p.TruncateAck?)
    && (forall i :: 0 <= i < |s.toResp| ==>
          var p := s.toResp[i]; p.Data? || (p.Reply? && p.status.Empty? && p.path.Message?) || p.Truncate?)
  }

  ghost predicate OnCourse(s: System, co: Course, t: Tie)
  {
    match co
    case Going(ph) => Inv(s, ph) && Settles(Core(s), ph, t.v, t.base, t.alice) && LostOn(Core(s), ph, t.path)
    case Strayed(k, ph) =>
      && Tainted(s, k, ph) && Settles(Core(Without(s, k)), ph, t.v, t.base, t.alice) && t.path == Rekey && !Owed(ph)
      && (ph.BobCommitted? ==> Control(s.toInit[..k]) != [])
    case Over =>
      && t.path == Rekey && Spent(s) && Newly(s.init.session.window, t) && Newly(s.resp.session.window, t)
      && s.init.session.latestUsable == Succ32(t.v)
      && |s.init.session.window.entries| <= MAX_HYPER_RATCHETS_IN_MEMORY + 1
  }

  lemma SettlesAfterOmission(c: System, ph: Phase, t: Tie, toResp: seq<Packet>)
    requires Windows(c) && Settles(c, ph, t.v, t.base, t.alice) && OmissionNext(ph)
    ensures Settles(c.(resp := c.resp.(pending := map[]), toResp := toResp), AfterOmission(ph), t.v, t.base, t.alice)
  {
  }

  lemma OmissionStillSettles(s: System, ph: Phase, t: Tie)
    requires Windows(s) && Settles(Core(s), ph, t.v, t.base, t.alice) && OmissionNext(ph)
    requires s.toResp != [] && IsControl(s.toResp[0])
    ensures Windows(WithoutOmission(s)) && Settles(Core(WithoutOmission(s)), AfterOmission(ph), t.v, t.base, t.alice)
  {
    SettlesAfterOmission(Core(s), ph, t, Control(s.toResp[1..]));
  }

  lemma AnswerStillAhead(c: System, ph: Phase)
    requires InPhase(c, ph) && OmissionNext(ph)
    ensures !Owed(AfterOmission(ph)) && (AfterOmission(ph).BobCommitted? ==> c.toInit != [])
  {
  }

  /** The answer to a lost rekey is taken: from here on there is a stray TRUNCATE. */
  lemma OmissionStrays(s: System, ph: Phase, t: Tie, y: Side, seed: nat)
    requires OnCourse(s, Going(ph), t) && OmittedRekeyNext(s, y)
    ensures OnCourse(Step(s, Deliver(y, seed)).0, Strayed(|s.toInit|, AfterOmission(ph)), t)
  {
    OmissionPhase(Core(s), ph, y);
    OmissionPath(Core(s), ph, t.path);
    OmissionStillSettles(s, ph, t);
    AnswerStillAhead(Core(s), ph);
    OmissionStep(s, ph, y, seed);
    StrayAppended(s);
    OmittedRekeyTaints(s, ph, y, seed);
  }

  lemma ControlLost(s: System, ph: Phase, path: Path, y: Side, seed: nat)
    requires Windows(s) && InPhase(Core(s), ph) && LostOn(Core(s), ph, path)
    requires s.Inbox(y) != [] && IsControl(s.Inbox(y)[0]) && !OmittedRekeyNext(s, y)
    ensures LostOn(Core(Step(s, Deliver(y, seed)).0), NextPhase(ph, y, Full(s, y)), path)
  {
    CoreHead(s, y);
    LostPathKept(Core(s), ph, y, path, seed);
    CoreStep(s, y, seed);
  }

  lemma LostPathOnCourse(s: System, ph: Phase, path: Path, y: Side, seed: nat)
    requires Inv(s, ph) && LostOn(Core(s), ph, path) && s.Inbox(y) != [] && !OmittedRekeyNext(s, y)
    ensures LostOn(Core(Step(s, Deliver(y, seed)).0), PhaseAfter(s, ph, Deliver(y, seed)), path)
  {
    if IsControl(s.Inbox(y)[0]) {
      ControlLost(s, ph, path, y, seed);
    } else {
      NoiseKeepsCore(s, ph, y, seed);
    }
  }

  lemma GoingStep(s: System, ph: Phase, t: Tie, y: Side, seed: nat) returns (co: Course)
    requires OnCourse(s, Going(ph), t) && s.Inbox(y) != []
    ensures OnCourse(Step(s, Deliver(y, seed)).0, co, t)
  {
    if OmittedRekeyNext(s, y) {
      OmissionStrays(s, ph, t, y, seed);
      co := Strayed(|s.toInit|, AfterOmission(ph));
    } else {
      var ph' := StepKeeps(s, ph, Deliver(y, seed));
      StepSettles(s, ph, y, t.v, t.base, t.alice, seed);
      LostPathOnCourse(s, ph, t.path, y, seed);
      co := Going(ph');
    }
  }

  lemma NotOwedStays(c: System, ph: Phase, y: Side, full: bool)
    requires InPhase(c, ph) && c.Inbox(y) != [] && !Owed(ph)
    ensures !Owed(NextPhase(ph, y, full))
    ensures NextPhase(ph, y, full).BobCommitted? ==> ph.Proposed?
  {
  }

  /** A delivery that leaves the stray packet where it is, for the part that does not see it. */
  lemma BesideStray(s: System, k: nat, ph: Phase, t: Tie, y: Side, seed: nat)
    requires OnCourse(s, Strayed(k, ph), t) && s.Inbox(y) != [] && (y == Initiator ==> k > 0)
    ensures var c' := Core(Step(Without(s, k), Deliver(y, seed)).0);
            var ph' := PhaseAfter(Without(s, k), ph, Deliver(y, seed));
            Windows(c') && Settles(c', ph', t.v, t.base, t.alice) && !Owed(ph') && (ph'.BobCommitted? ==> ph' == ph)
    ensures y == Initiator && IsControl(s.toInit[0]) ==> !PhaseAfter(Without(s, k), ph, Deliver(y, seed)).BobCommitted?
  {
    var u := Without(s, k);
    assert u.Inbox(y)[0] == s.Inbox(y)[0];
    NotOmittedNext(u, ph, y);
    StepSettles(u, ph, y, t.v, t.base, t.alice, seed);
    if IsControl(u.Inbox(y)[0]) {
      NotOwedStays(Core(u), ph, y, Full(u, y));
    }
  }

  lemma {:induction false} AheadStays(s: System, k: nat)
    requires 0 < k <= |s.toInit| && !IsControl(s.toInit[0])
    ensures Control(s.toInit[1..k]) == Control(s.toInit[..k])
  {
    assert s.toInit[..k][0] == s.toInit[0] && s.toInit[..k][1..] == s.toInit[1..k];
  }

  lemma StrayedStep(s: System, k: nat, ph: Phase, t: Tie, y: Side, seed: nat) returns (co: Course)
    requires OnCourse(s, Strayed(k, ph), t) && s.Inbox(y) != [] && (y == Initiator ==> k > 0)
    ensures OnCourse(Step(s, Deliver(y, seed)).0, co, t)
  {
    var a := Deliver(y, seed);
    BesideStray(s, k, ph, t, y, seed);
    Commutes(s, k, a);
    if y == Initiator {
      var ph' := TaintedInitiatorReceives(s, k, ph, seed);
      if !IsControl(s.toInit[0]) { AheadStays(s, k); }
      co := Strayed(k - 1, ph');
    } else {
      var ph' := OtherStep(s, k, ph, a);
      co := Strayed(k, ph');
    }
  }

  /** Both ends have committed and no update is about to start. */
  predicate Late(ph: Phase)
  {
    match ph
    case Idle => true
    case BothCommitted(_, omission, again) => !omission && !again
    case Truncating(_, omission) => !omission
    case Acknowledging(_, again) => !again
    case _ => false
  }

  lemma LateControl(c: System, ph: Phase)
    requires InPhase(c, ph) && Late(ph)
    requires !ph.Idle? ==> ph.x == Initiator
    ensures (forall p :: p in c.toInit ==> p.TruncateAck?) && (forall p :: p in c.toResp ==> p.Truncate?)
  {
  }

  lemma LateNewly(c: System, ph: Phase, t: Tie)
    requires Windows(c) && InPhase(c, ph) && Late(ph) && Settles(c, ph, t.v, t.base, t.alice)
    ensures Newly(c.init.session.window, t) && Newly(c.resp.session.window, t)
  {
  }

  lemma NoiseIs(s: System, p: Packet)
    requires Sane(s) && (p in s.toInit || p in s.toResp) && !IsControl(p)
    ensures p.Data? || (p.Reply? && p.status.Empty? && p.path.Message?)
  {
  }

  lemma {:induction false} LateSpent(s: System, ph: Phase)
    requires Inv(s, ph) && Late(ph) && (!ph.Idle? ==> ph.x == Initiator)
    ensures Spent(s)
  {
    LateControl(Core(s), ph);
    forall i | 0 <= i < |s.toInit|
      ensures var p := s.toInit[i]; p.Data? || (p.Reply? && p.status.Empty? && p.path.Message?) || p.TruncateAck?
    {
      if IsControl(s.toInit[i]) { ControlMember(s.toInit, i); } else { NoiseIs(s, s.toInit[i]); }
    }
    forall i | 0 <= i < |s.toResp|
      ensures var p := s.toResp[i]; p.Data? || (p.Reply? && p.status.Empty? && p.path.Message?) || p.Truncate?
    {
      if IsControl(s.toResp[i]) { ControlMember(s.toResp, i); } else { NoiseIs(s, s.toResp[i]); }
    }
  }

  lemma StrayIsLate(s: System, ph: Phase, t: Tie)
    requires OnCourse(s, Strayed(0, ph), t)
    ensures Late(ph) && (!ph.Idle? ==> ph.x == Initiator) && Current(s.init)
  {
    assert s.toInit[..0] == [];
  }

  /** The stray TRUNCATE is taken: versions stay, the usable one runs past them. */
  lemma StrayEndsCourse(s: System, ph: Phase, t: Tie, seed: nat)
    requires OnCourse(s, Strayed(0, ph), t)
    ensures OnCourse(Step(s, Deliver(Initiator, seed)).0, Over, t)
  {
    var u := Without(s, 0);
    StrayIsLate(s, ph, t);
    LateSpent(u, ph);
    LateNewly(Core(u), ph, t);
    StrayEnds(s, ph, seed);
    OverBy(u, Step(s, Deliver(Initiator, seed)).0, t);
  }

  lemma StrayEnds(s: System, ph: Phase, seed: nat)
    requires Tainted(s, 0, ph) && Current(s.init)
    ensures var u, s' := Without(s, 0), Step(s, Deliver(Initiator, seed)).0;
            && s'.toInit == u.toInit && s'.toResp == u.toResp && s'.resp == u.resp
            && s'.init.session.window == u.init.session.window
            && s'.init.session.latestUsable == Succ32(u.init.session.window.mostRecent)
            && |u.init.session.window.entries| <= MAX_HYPER_RATCHETS_IN_MEMORY + 1
  {
    StrayReach(s, 0, ph);
    StrayTaken(s.init, s.toInit[0], seed);
    assert s.toResp + [] == s.toResp;
  }

  lemma OverBy(u: System, s: System, t: Tie)
    requires Spent(u) && Newly(u.init.session.window, t) && Newly(u.resp.session.window, t) && t.path == Rekey
    requires s.toInit == u.toInit && s.toResp == u.toResp && s.resp == u.resp
    requires s.init.session.window == u.init.session.window
    requires s.init.session.latestUsable == Succ32(u.init.session.window.mostRecent)
    requires |u.init.session.window.entries| <= MAX_HYPER_RATCHETS_IN_MEMORY + 1
    ensures OnCourse(s, Over, t)
  {
  }

  /** Packets that only a spent system carries change neither newest version, nor the initiator's usable one. */
  lemma SpentReceives(e: Endpoint, p: Packet, seed: nat)
    requires p.Data? || (p.Reply? && p.status.Empty? && p.path.Message?) || p.TruncateAck? || p.Truncate?
    requires e.session.window.entries != []
    ensures var o := Receive(e, p, seed);
            var w, w' := e.session.window, o.end.session.window;
            && w'.entries != [] && w'.mostRecent == w.mostRecent && w'.entries[0] == w.entries[0] && |w'.entries| <= |w.entries|
            && (!p.Truncate? ==> o.end.session.latestUsable == e.session.latestUsable)
            && |o.sent| <= 1
            && (forall q :: q in o.sent ==>
                  if p.Data? then q.Reply? && q.status.Empty? && q.path.Message? else p.Truncate? && q.TruncateAck?)
  {
  }

  lemma OverStep(s: System, t: Tie, y: Side, seed: nat)
    requires OnCourse(s, Over, t) && s.Inbox(y) != []
    ensures OnCourse(Step(s, Deliver(y, seed)).0, Over, t)
  {
    SpentReceives(s.End(y), s.Inbox(y)[0], seed);
    var o := Receive(s.End(y), s.Inbox(y)[0], seed);
    var s' := Step(s, Deliver(y, seed)).0;
    assert forall i :: |s.Inbox(y.Peer())| <= i < |s'.Inbox(y.Peer())| ==> s'.Inbox(y.Peer())[i] in o.sent;
  }

  lemma CourseStep(s: System, co: Course, t: Tie, a: Action) returns (co': Course)
    requires OnCourse(s, co, t) && a.Deliver?
    ensures OnCourse(Step(s, a).0, co', t)
  {
    if s.Inbox(a.side) == [] {
      co' := co;
    } else {
      match co
      case Going(ph) => co' := GoingStep(s, ph, t, a.side, a.seed);
      case Strayed(k, ph) =>
        if a.side == Initiator && k == 0 {
          StrayEndsCourse(s, ph, t, a.seed);
          co' := Over;
        } else {
          co' := StrayedStep(s, k, ph, t, a.side, a.seed);
        }
      case Over =>
        OverStep(s, t, a.side, a.seed);
        co' := Over;
    }
  }

  lemma {:induction false} CourseRun(s: System, co: Course, t: Tie, acts: seq<Action>) returns (co': Course)
    requires OnCourse(s, co, t) && OnlyDeliveries(acts)
    ensures OnCourse(Run(s, acts), co', t)
    decreases |acts|
  {
    if acts == [] {
      co' := co;
    } else {
      var before := acts[..|acts| - 1];
      var mid := CourseRun(s, co, t, before);
      co' := CourseStep(Run(s, before), mid, t, acts[|acts| - 1]);
    }
  }
}
