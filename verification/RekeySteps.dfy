/** Each kind of step keeps the invariant: ages, tickets and the shape of the handshake. */
module RekeySteps {
  import opened Words
  import opened Toolsets
  import opened SessionCrypto
  import opened RekeyModel
  import opened RekeyInvariant
  import opened RekeyHandshake

  // ---- Ages under the elementary changes ----

  lemma AgesPop(ch: seq<Packet>, from: Window, to: Window)
    requires ch != [] && Ages(ch, from, to)
    ensures Ages(ch[1..], from, to)
  {
  }

  lemma AgesPush(ch: seq<Packet>, from: Window, to: Window, p: Packet)
    requires Ages(ch, from, to) && InReach(p, from, to)
    requires forall j :: 0 <= j < |ch| && Raises(ch[j]) ==> Sub32(Goal(ch[j]), p.version) <= Lag(p)
    ensures Ages(ch + [p], from, to)
  {
  }

  /** How one delivery to `y` may change its window: not at all, one more version, or the oldest dropped. */
  ghost predicate Grows(p: Packet, wx: Window, wy: Window, wy': Window)
  {
    || (wy'.mostRecent == wy.mostRecent && (|wy'.entries| == |wy.entries| || |wy'.entries| > 4))
    || (&& Raises(p) && wy'.mostRecent == Goal(p) == Succ32(wy.mostRecent)
        && (wy'.mostRecent == wx.mostRecent || wy.mostRecent == wx.mostRecent)
        && (|wy'.entries| == |wy.entries| + 1 || |wy'.entries| > 4))
  }

  lemma AgesReceiver(ch: seq<Packet>, from: Window, to: Window, to': Window)
    requires ch != [] && Ages(ch, from, to) && Grows(ch[0], from, to, to')
    ensures Ages(ch[1..], from, to')
  {
  }

  lemma AgesSender(ch: seq<Packet>, p: Packet, from: Window, from': Window, to: Window)
    requires Ages(ch, from, to) && Grows(p, to, from, from')
    ensures Ages(ch, from', to)
  {
  }

  /** A packet that a delivery sends back is at most one version old, also against what is ahead of it. */
  ghost predicate Recent(q: Packet, ahead: seq<Packet>, from: Window, to: Window)
  {
    && Sub32(to.mostRecent, q.version) <= 1 && to.Has(q.version)
    && Sub32(from.mostRecent, q.version) <= 1 && from.Has(q.version)
    && (forall j :: 0 <= j < |ahead| && Raises(ahead[j]) ==> Sub32(Goal(ahead[j]), q.version) <= 1)
  }

  lemma {:induction false} AgesSent(ch: seq<Packet>, core: seq<Packet>, from: Window, to: Window, q: Packet)
    requires Ages(ch, from, to) && core == Control(ch) && Recent(q, core, from, to)
    ensures Ages(ch + [q], from, to)
  {
    forall j | 0 <= j < |ch| && Raises(ch[j])
      ensures Sub32(Goal(ch[j]), q.version) <= Lag(q)
    {
      ControlMember(ch, j);
    }
    AgesPush(ch, from, to, q);
  }

  /** Handshake packets in flight aim at the sender's version or the next one. */
  ghost predicate GoalsNear(ch: seq<Packet>, from: Window)
  {
    forall k :: 0 <= k < |ch| && Raises(ch[k]) ==>
      Goal(ch[k]) == from.mostRecent || Goal(ch[k]) == Succ32(from.mostRecent)
  }

  lemma PhaseGoals(c: System, ph: Phase, y: Side)
    requires InPhase(c, ph)
    ensures GoalsNear(c.Inbox(y), c.End(y.Peer()).session.window)
  {
  }

  lemma {:induction false} NearGoals(ch: seq<Packet>, from: Window)
    requires GoalsNear(Control(ch), from)
    ensures GoalsNear(ch, from)
  {
    forall k | 0 <= k < |ch| && Raises(ch[k])
      ensures Goal(ch[k]) == from.mostRecent || Goal(ch[k]) == Succ32(from.mostRecent)
    {
      ControlMember(ch, k);
    }
  }

  // ---- Messages and their acknowledgements ----

  lemma TicketsPopOut(out: seq<Packet>, inbound: seq<Packet>, owner: Endpoint)
    requires out != [] && Tickets(out, inbound, owner)
    ensures Tickets(out[1..], inbound, owner)
  {
  }

  lemma TicketsPopIn(out: seq<Packet>, inbound: seq<Packet>, owner: Endpoint)
    requires inbound != [] && Tickets(out, inbound, owner)
    ensures Tickets(out, inbound[1..], owner)
  {
  }

  lemma TicketsSend(out: seq<Packet>, inbound: seq<Packet>, owner: Endpoint, p: Packet)
    requires Tickets(out, inbound, owner) && (p.Data? ==> TicketFree(p.ticket, owner))
    ensures Tickets(out + [p], inbound, owner)
  {
  }

  lemma TicketsReceive(out: seq<Packet>, inbound: seq<Packet>, owner: Endpoint, p: Packet)
    requires Tickets(out, inbound, owner)
    requires p.Reply? && p.status.Empty? ==> p.path.Message? && TicketFree(p.path.ticket, owner)
    ensures Tickets(out, inbound + [p], owner)
  {
  }

  lemma TicketsDrop(out: seq<Packet>, inbound: seq<Packet>, owner: Endpoint, owner': Endpoint)
    requires Tickets(out, inbound, owner)
    requires owner'.pending.Keys <= owner.pending.Keys && owner'.messages == owner.messages
    ensures Tickets(out, inbound, owner')
  {
    forall t: nat | Message(t) in owner'.pending
      ensures t < owner'.messages
    {
      assert Message(t) in owner.pending;
    }
    forall t: nat | TicketFree(t, owner)
      ensures TicketFree(t, owner')
    {
    }
  }

  lemma FlowsFrom(s: System, y: Side)
    requires Sane(s)
    ensures Flows(s.End(y), s.End(y.Peer()), s.Inbox(y), s.Inbox(y.Peer()))
  {
  }

  lemma SaneFrom(s: System, y: Side)
    requires Windows(s) && Flows(s.End(y), s.End(y.Peer()), s.Inbox(y), s.Inbox(y.Peer()))
    ensures Sane(s)
  {
  }

  lemma FlowsPop(ey: Endpoint, ex: Endpoint, toY: seq<Packet>, toX: seq<Packet>)
    requires toY != [] && Flows(ey, ex, toY, toX)
    ensures Flows(ey, ex, toY[1..], toX)
  {
    AgesPop(toY, ex.session.window, ey.session.window);
    TicketsPopOut(toY, toX, ex);
    TicketsPopIn(toX, toY, ey);
  }

  lemma FlowsEcho(ey: Endpoint, ex: Endpoint, toY: seq<Packet>, toX: seq<Packet>)
    requires toY != [] && toY[0].Data? && Flows(ey, ex, toY, toX) && GoalsNear(toX, ey.session.window)
    ensures Flows(ey, ex, toY[1..], toX + [Reply(toY[0].version, Message(toY[0].ticket), Empty)])
  {
    var p := toY[0];
    var q := Reply(p.version, Message(p.ticket), Empty);
    assert InReach(p, ex.session.window, ey.session.window) && TicketFree(p.ticket, ex);
    AgesPush(toX, ey.session.window, ex.session.window, q);
    FlowsPop(ey, ex, toY, toX);
    TicketsReceive(toY[1..], toX, ex, q);
    TicketsSend(toX, toY[1..], ey, q);
  }

  lemma DataStep(s: System, y: Side, seed: nat)
    requires s.Inbox(y) != [] && s.Inbox(y)[0].Data? && s.End(y).session.window.Has(s.Inbox(y)[0].version)
    ensures var p := s.Inbox(y)[0];
            Step(s, Deliver(y, seed))
            == (s.With(y, s.End(y), s.Inbox(y)[1..], s.Inbox(y.Peer()) + [Reply(p.version, Message(p.ticket), Empty)]), {})
  {
  }

  lemma EmptyReplyStep(s: System, y: Side, seed: nat)
    requires s.Inbox(y) != [] && s.Inbox(y)[0].Reply? && s.Inbox(y)[0].status.Empty?
    requires s.End(y).session.window.Has(s.Inbox(y)[0].version)
    requires s.Inbox(y)[0].path.Message? && s.Inbox(y)[0].path !in s.End(y).pending
    ensures Step(s, Deliver(y, seed)) == (s.With(y, s.End(y), s.Inbox(y)[1..], s.Inbox(y.Peer())), {})
  {
    assert s.End(y).pending - {s.Inbox(y)[0].path} == s.End(y).pending;
    assert s.Inbox(y.Peer()) + [] == s.Inbox(y.Peer());
  }

  lemma HeadReach(s: System, y: Side)
    requires Sane(s) && s.Inbox(y) != []
    ensures InReach(s.Inbox(y)[0], s.End(y.Peer()).session.window, s.End(y).session.window)
    ensures var p := s.Inbox(y)[0];
            p.Reply? && p.status.Empty? ==> p.path.Message? && p.path !in s.End(y).pending
  {
    var p := s.Inbox(y)[0];
    if p.Reply? && p.status.Empty? {
      assert TicketFree(p.path.ticket, s.End(y));
    }
  }

  lemma CoreNoise(s: System, y: Side, sent: seq<Packet>)
    requires s.Inbox(y) != [] && !IsControl(s.Inbox(y)[0])
    requires |sent| <= 1 && (sent != [] ==> !IsControl(sent[0]))
    ensures Core(s.With(y, s.End(y), s.Inbox(y)[1..], s.Inbox(y.Peer()) + sent)) == Core(s)
  {
    if sent == [] {
      assert s.Inbox(y.Peer()) + sent == s.Inbox(y.Peer());
    } else {
      assert sent == [sent[0]];
      ControlAppend(s.Inbox(y.Peer()), sent[0]);
    }
  }

  lemma DataDelivered(s: System, y: Side, seed: nat)
    requires Sane(s) && GoalsNear(s.Inbox(y.Peer()), s.End(y).session.window)
    requires s.Inbox(y) != [] && s.Inbox(y)[0].Data?
    ensures var (s', faults) := Step(s, Deliver(y, seed));
            faults == {} && Sane(s') && Core(s') == Core(s)
  {
    var p := s.Inbox(y)[0];
    var q := Reply(p.version, Message(p.ticket), Empty);
    var s' := s.With(y, s.End(y), s.Inbox(y)[1..], s.Inbox(y.Peer()) + [q]);
    HeadReach(s, y);
    DataStep(s, y, seed);
    FlowsFrom(s, y);
    FlowsEcho(s.End(y), s.End(y.Peer()), s.Inbox(y), s.Inbox(y.Peer()));
    SaneFrom(s', y);
    CoreNoise(s, y, [q]);
  }

  lemma EmptyReplyDelivered(s: System, y: Side, seed: nat)
    requires Sane(s)
    requires s.Inbox(y) != [] && s.Inbox(y)[0].Reply? && s.Inbox(y)[0].status.Empty?
    ensures var (s', faults) := Step(s, Deliver(y, seed));
            faults == {} && Sane(s') && Core(s') == Core(s)
  {
    var s' := s.With(y, s.End(y), s.Inbox(y)[1..], s.Inbox(y.Peer()));
    HeadReach(s, y);
    EmptyReplyStep(s, y, seed);
    FlowsFrom(s, y);
    FlowsPop(s.End(y), s.End(y.Peer()), s.Inbox(y), s.Inbox(y.Peer()));
    SaneFrom(s', y);
    assert s.Inbox(y.Peer()) + [] == s.Inbox(y.Peer());
    CoreNoise(s, y, []);
  }

  // ---- Handshake packets ----

  lemma SentBack(e: Endpoint, p: Packet, seed: nat)
    requires IsControl(p)
    ensures var o := Receive(e, p, seed);
            && |o.sent| <= 1 && (o.sent != [] ==> IsControl(o.sent[0]))
            && o.end.pending.Keys <= e.pending.Keys && o.end.messages == e.messages
  {
  }

  lemma CoreStep(s: System, y: Side, seed: nat)
    requires s.Inbox(y) != [] && IsControl(s.Inbox(y)[0])
    ensures var (s', faults) := Step(s, Deliver(y, seed));
            Step(Core(s), Deliver(y, seed)) == (Core(s'), faults)
  {
    var p := s.Inbox(y)[0];
    var o := Receive(s.End(y), p, seed);
    SentBack(s.End(y), p, seed);
    if o.sent == [] {
      assert s.Inbox(y.Peer()) + o.sent == s.Inbox(y.Peer());
      assert Core(s).Inbox(y.Peer()) + o.sent == Core(s).Inbox(y.Peer());
    } else {
      assert o.sent == [o.sent[0]];
      ControlAppend(s.Inbox(y.Peer()), o.sent[0]);
    }
  }

  lemma CoreHead(s: System, y: Side)
    requires s.Inbox(y) != [] && IsControl(s.Inbox(y)[0])
    ensures Core(s).Inbox(y) != [] && Core(s).Inbox(y)[0] == s.Inbox(y)[0]
    ensures OmittedRekeyNext(Core(s), y) <==> OmittedRekeyNext(s, y)
    ensures Full(Core(s), y) <==> Full(s, y)
  {
  }

  /** What a handshake delivery does to versions: the receiver's window and the packet it sends back. */
  ghost predicate Paced(c: System, y: Side, c': System)
    requires c.Inbox(y) != []
  {
    var x := y.Peer();
    var wx, wy, wy' := c.End(x).session.window, c.End(y).session.window, c'.End(y).session.window;
    && c'.End(x) == c.End(x)
    && Grows(c.Inbox(y)[0], wx, wy, wy')
    && (|c'.Inbox(x)| > |c.Inbox(x)| ==> Recent(c'.Inbox(x)[|c.Inbox(x)|], c.Inbox(x), wy', wx))
  }

  /** `c'` is `c` after the head of `y`'s stream was taken. */
  ghost predicate Took(c: System, y: Side, c': System)
  {
    && c.Inbox(y) != [] && c'.End(y.Peer()) == c.End(y.Peer()) && c'.Inbox(y) == c.Inbox(y)[1..]
    && c.Inbox(y.Peer()) <= c'.Inbox(y.Peer())
  }

  lemma AcceptedPaces(p: Packet, ey: Endpoint, ahead: seq<Packet>, wx: Window, seed: nat)
    requires wx.Valid() && ey.session.window.Valid() && p.Proposal? && p.version == ey.session.window.mostRecent == wx.mostRecent
    requires Accepting(ey, p, seed).session.window.Valid()
    requires forall j :: 0 <= j < |ahead| ==> ahead[j].Proposal? && ahead[j].version == wx.mostRecent
    ensures Grows(p, wx, ey.session.window, Accepting(ey, p, seed).session.window)
    ensures Recent(Answering(ey, p, seed), ahead, Accepting(ey, p, seed).session.window, wx)
  {
  }

  lemma WonPaced(c: System, x: Side, left: Leftover, seed: nat)
    requires Windows(c) && AboutToWin(c, x, left) && Windows(Won(c, x, seed))
    ensures Paced(c, x.Peer(), Won(c, x, seed))
  {
    var wx, wy := c.End(x).session.window, c.End(x.Peer()).session.window;
    var p := c.Inbox(x.Peer())[0];
    AcceptedPaces(p, c.End(x.Peer()), c.Inbox(x), wx, seed);
  }

  lemma LossPaced(c: System, c': System)
    requires Windows(c) && Took(c, Initiator, c') && c'.init == c.init
    requires |c'.toResp| == |c.toResp| + 1
    requires var q := c'.toResp[|c.toResp|];
             && c.init.session.window.mostRecent == q.version && c.resp.session.window.Has(q.version)
             && Sub32(c.resp.session.window.mostRecent, q.version) <= 1
             && (forall j :: 0 <= j < |c.toResp| && Raises(c.toResp[j]) ==> Sub32(Goal(c.toResp[j]), q.version) <= 1)
    ensures Paced(c, Initiator, c')
  {
  }

  lemma FinishedGrows(p: Packet, ex: Endpoint, ey: Endpoint)
    requires ex.session.window.Valid() && ey.session.window.Valid()
    requires ey.session.window.mostRecent == Succ32(ex.session.window.mostRecent)
    requires |ey.session.window.entries| == |ex.session.window.entries| + 1 <= MAX_HYPER_RATCHETS_IN_MEMORY + 1
    requires Raises(p) && Goal(p) == ey.session.window.mostRecent
    ensures Grows(p, ey.session.window, ex.session.window, Finished(ex, ey).session.window)
  {
    var w := Pushed(ex.session.window, ey.session.window.entries[0].secret);
    var w' := Finished(ex, ey).session.window;
    assert w'.mostRecent == w.mostRecent && (|w'.entries| == |w.entries| || |w'.entries| > 4);
  }

  lemma ConcludedRecent(ahead: seq<Packet>, from: Window, to: Window, from': Window, p: Packet, v: u32)
    requires from.Valid() && to.Valid() && from'.Valid()
    requires to.mostRecent == Succ32(from.mostRecent) && |to.entries| == |from.entries| + 1
    requires Grows(p, to, from, from') && from'.mostRecent == to.mostRecent
    requires v == to.mostRecent || v == from.mostRecent
    requires forall j :: 0 <= j < |ahead| ==> !Raises(ahead[j])
    ensures forall t :: Recent(Truncate(v, t), ahead, from', to)
  {
  }

  lemma ConcludedPaced(c: System, x: Side, left: Leftover)
    requires Windows(c) && InBobCommitted(c, x, left) && left != Unanswered && Windows(Concluded(c, x))
    ensures Paced(c, x, Concluded(c, x))
  {
    var ex, ey := c.End(x), c.End(x.Peer());
    FinishedGrows(c.Inbox(x)[0], ex, ey);
    ConcludedRecent(c.Inbox(x.Peer()), ex.session.window, ey.session.window, Finished(ex, ey).session.window, c.Inbox(x)[0],
                    if c.Inbox(x)[0].path == Rekey then ey.session.window.mostRecent else ex.session.window.mostRecent);
  }

  lemma QuietPaced(c: System, y: Side, c': System)
    requires Took(c, y, c') && c'.Inbox(y.Peer()) == c.Inbox(y.Peer())
    requires c'.End(y).session.window == c.End(y).session.window
    ensures Paced(c, y, c')
  {
  }

  lemma TruncationPaced(c: System, x: Side, c': System)
    requires Windows(c) && Windows(c') && Took(c, x.Peer(), c')
    requires InTruncating(c, x, false) && InAcknowledging(c', x, false)
    ensures Paced(c, x.Peer(), c')
  {
  }

  lemma DeliveryTakes(c: System, y: Side, seed: nat)
    requires c.Inbox(y) != []
    ensures Took(c, y, Step(c, Deliver(y, seed)).0)
  {
  }

  lemma WinningPaced(c: System, x: Side, left: Leftover, seed: nat)
    requires Windows(c) && AboutToWin(c, x, left)
    ensures Paced(c, x.Peer(), Step(c, Deliver(x.Peer(), seed)).0)
  {
    WinningStep(c, x, left, seed);
    WonPaced(c, x, left, seed);
  }

  lemma LosingPaced(c: System, seed: nat)
    requires Windows(c) && (InCrossed(c) || InBobCommitted(c, Initiator, Unanswered))
    ensures Paced(c, Initiator, Step(c, Deliver(Initiator, seed)).0)
  {
    ProposalLoses(c, seed);
    DeliveryTakes(c, Initiator, seed);
    LossPaced(c, Step(c, Deliver(Initiator, seed)).0);
  }

  lemma OmissionPaced(c: System, ph: Phase, seed: nat)
    requires Windows(c) && InPhase(c, ph) && OmissionNext(ph) && !OmittedRekeyNext(c, Responder)
    ensures c.toResp != [] && Paced(c, Responder, Step(c, Deliver(Responder, seed)).0)
  {
    OmissionHead(c, ph);
    OmissionReceived(c.resp, c.toResp[0], seed);
    DeliveryTakes(c, Responder, seed);
    QuietPaced(c, Responder, Step(c, Deliver(Responder, seed)).0);
  }

  lemma TruncatePaced(c: System, x: Side, again: bool, seed: nat)
    requires Windows(c) && InBothCommitted(c, x, false, again)
    ensures Paced(c, x.Peer(), Step(c, Deliver(x.Peer(), seed)).0)
  {
    var _ := TruncateReceived(c.End(x.Peer()), c.Inbox(x.Peer())[0], seed);
    DeliveryTakes(c, x.Peer(), seed);
    QuietPaced(c, x.Peer(), Step(c, Deliver(x.Peer(), seed)).0);
  }

  lemma AckPaced(c: System, x: Side, again: bool, seed: nat)
    requires Windows(c) && InAcknowledging(c, x, again)
    ensures Paced(c, x, Step(c, Deliver(x, seed)).0)
  {
    DeliveryTakes(c, x, seed);
    QuietPaced(c, x, Step(c, Deliver(x, seed)).0);
  }

  lemma AnsweredPaced(c: System, x: Side, left: Leftover, seed: nat)
    requires Windows(c) && InBobCommitted(c, x, left) && left != Unanswered
    ensures Paced(c, x, Step(c, Deliver(x, seed)).0)
  {
    AnswerStep(c, x, left, seed);
    ConcludedPaced(c, x, left);
  }

  lemma BobCommittedPaced(c: System, x: Side, left: Leftover, y: Side, seed: nat)
    requires Windows(c) && InBobCommitted(c, x, left) && c.Inbox(y) != [] && !OmittedRekeyNext(c, y)
    ensures Paced(c, y, Step(c, Deliver(y, seed)).0)
  {
    if left == Unanswered {
      LosingPaced(c, seed);
    } else if y != x {
      OmissionPaced(c, BobCommitted(x, left), seed);
    } else {
      AnsweredPaced(c, x, left, seed);
    }
  }

  lemma TruncatingPaced(c: System, x: Side, omission: bool, seed: nat)
    requires Windows(c) && InTruncating(c, x, omission) && !OmittedRekeyNext(c, x.Peer())
    ensures Paced(c, x.Peer(), Step(c, Deliver(x.Peer(), seed)).0)
  {
    if omission {
      OmissionPaced(c, Truncating(x, omission), seed);
    } else {
      TruncationTaken(c, x, seed);
      DeliveryTakes(c, x.Peer(), seed);
      TruncationPaced(c, x, Step(c, Deliver(x.Peer(), seed)).0);
    }
  }

  lemma EarlyPaced(c: System, ph: Phase, y: Side, seed: nat)
    requires Windows(c) && InPhase(c, ph) && c.Inbox(y) != [] && !AliceCommitted(ph) && !ph.BobCommitted?
    ensures Paced(c, y, Step(c, Deliver(y, seed)).0)
  {
    match ph
    case Idle =>
    case Proposed(x) =>
      ProposedWins(c, x);
      WinningPaced(c, x, Nothing, seed);
    case Crossed =>
      CrossedWins(c);
      if y == Responder { WinningPaced(c, Initiator, Unanswered, seed); } else { LosingPaced(c, seed); }
    case CrossedOmitted =>
      CrossedOmittedWins(c);
      WinningPaced(c, Initiator, Omission, seed);
  }

  lemma LatePaced(c: System, ph: Phase, y: Side, seed: nat)
    requires Windows(c) && InPhase(c, ph) && c.Inbox(y) != [] && !OmittedRekeyNext(c, y) && AliceCommitted(ph)
    ensures Paced(c, y, Step(c, Deliver(y, seed)).0)
  {
    match ph
    case BothCommitted(x, omission, again) =>
      if omission { OmissionPaced(c, ph, seed); } else { TruncatePaced(c, x, again, seed); }
    case Truncating(x, omission) => TruncatingPaced(c, x, omission, seed);
    case Acknowledging(x, again) => AckPaced(c, x, again, seed);
  }

  lemma HandshakePaced(c: System, ph: Phase, y: Side, seed: nat)
    requires Windows(c) && InPhase(c, ph) && c.Inbox(y) != [] && !OmittedRekeyNext(c, y)
    ensures Paced(c, y, Step(c, Deliver(y, seed)).0)
  {
    if AliceCommitted(ph) {
      LatePaced(c, ph, y, seed);
    } else if ph.BobCommitted? {
      BobCommittedPaced(c, ph.x, ph.left, y, seed);
    } else {
      EarlyPaced(c, ph, y, seed);
    }
  }

  lemma {:induction false} FlowsHandshake(ey: Endpoint, ex: Endpoint, toY: seq<Packet>, toX: seq<Packet>, ey': Endpoint, sent: seq<Packet>)
    requires toY != [] && Flows(ey, ex, toY, toX)
    requires Grows(toY[0], ex.session.window, ey.session.window, ey'.session.window)
    requires ey'.pending.Keys <= ey.pending.Keys && ey'.messages == ey.messages
    requires |sent| <= 1
    requires sent != [] ==> IsControl(sent[0]) && Recent(sent[0], Control(toX), ey'.session.window, ex.session.window)
    ensures Flows(ey', ex, toY[1..], toX + sent)
  {
    var wx, wy, wy' := ex.session.window, ey.session.window, ey'.session.window;
    AgesReceiver(toY, wx, wy, wy');
    AgesSender(toX, toY[0], wy, wy', wx);
    TicketsPopOut(toY, toX, ex);
    TicketsPopIn(toX, toY, ey);
    TicketsDrop(toX, toY[1..], ey, ey');
    if sent == [] {
      assert toX + sent == toX;
    } else {
      assert sent == [sent[0]];
      AgesSent(toX, Control(toX), wy', wx, sent[0]);
      TicketsReceive(toY[1..], toX, ex, sent[0]);
      TicketsSend(toX, toY[1..], ey', sent[0]);
    }
  }

  lemma ControlFlows(s: System, y: Side, seed: nat)
    requires Sane(s) && s.Inbox(y) != [] && IsControl(s.Inbox(y)[0])
    requires var (c', faults) := Step(Core(s), Deliver(y, seed));
             Core(s).Inbox(y) != [] && Paced(Core(s), y, c') && Windows(c')
    ensures Sane(Step(s, Deliver(y, seed)).0)
  {
    var c, x := Core(s), y.Peer();
    var o := Receive(s.End(y), s.Inbox(y)[0], seed);
    var c', s' := Step(c, Deliver(y, seed)).0, Step(s, Deliver(y, seed)).0;
    assert s' == s.With(y, o.end, s.Inbox(y)[1..], s.Inbox(x) + o.sent);
    assert c'.Inbox(x) == c.Inbox(x) + o.sent && c'.End(y) == o.end;
    assert s'.init == c'.init && s'.resp == c'.resp;
    SentBack(s.End(y), s.Inbox(y)[0], seed);
    FlowsFrom(s, y);
    FlowsHandshake(s.End(y), s.End(x), s.Inbox(y), s.Inbox(x), o.end, o.sent);
    SaneFrom(s', y);
  }

  /** The step reports no fault and leads to a state of phase `ph`. */
  ghost predicate Lands(s: System, a: Action, ph: Phase)
  {
    var (s', faults) := Step(s, a);
    faults == {} && Inv(s', ph)
  }

  lemma LandsByCore(s: System, ph: Phase, y: Side, seed: nat)
    requires s.Inbox(y) != [] && IsControl(s.Inbox(y)[0])
    requires Leads(Core(s), Deliver(y, seed), ph) && Sane(Step(s, Deliver(y, seed)).0)
    ensures Lands(s, Deliver(y, seed), ph)
  {
    CoreStep(s, y, seed);
  }

  lemma ControlSane(s: System, ph: Phase, ph': Phase, y: Side, seed: nat)
    requires Inv(s, ph) && s.Inbox(y) != [] && IsControl(s.Inbox(y)[0]) && !OmittedRekeyNext(s, y)
    requires Leads(Core(s), Deliver(y, seed), ph')
    ensures Sane(Step(s, Deliver(y, seed)).0)
  {
    HandshakePaced(Core(s), ph, y, seed);
    ControlFlows(s, y, seed);
  }

  lemma ControlDelivered(s: System, ph: Phase, y: Side, seed: nat)
    requires Inv(s, ph) && s.Inbox(y) != [] && IsControl(s.Inbox(y)[0]) && !OmittedRekeyNext(s, y)
    ensures Lands(s, Deliver(y, seed), NextPhase(ph, y, Full(s, y)))
  {
    HandshakeDelivered(Core(s), ph, y, seed);
    ControlSane(s, ph, NextPhase(ph, y, Full(s, y)), y, seed);
    LandsByCore(s, NextPhase(ph, y, Full(s, y)), y, seed);
  }

  // ---- Sending ----

  lemma PhaseUsableHereLate(c: System, ph: Phase, x: Side)
    requires Windows(c) && InPhase(c, ph) && AliceCommitted(ph)
    ensures var v, w := c.End(x).session.latestUsable, c.End(x).session.window; Sub32(w.mostRecent, v) <= 1 && w.Has(v)
  {
  }

  lemma PhaseUsableHereEarly(c: System, ph: Phase, x: Side)
    requires Windows(c) && InPhase(c, ph) && !AliceCommitted(ph)
    ensures var v, w := c.End(x).session.latestUsable, c.End(x).session.window; Sub32(w.mostRecent, v) <= 1 && w.Has(v)
  {
  }

  lemma PhaseUsableThereLate(c: System, ph: Phase, x: Side)
    requires Windows(c) && InPhase(c, ph) && AliceCommitted(ph)
    ensures var v, w := c.End(x).session.latestUsable, c.End(x.Peer()).session.window; Sub32(w.mostRecent, v) <= 1 && w.Has(v)
  {
  }

  lemma PhaseUsableThereEarly(c: System, ph: Phase, x: Side)
    requires Windows(c) && InPhase(c, ph) && !AliceCommitted(ph)
    ensures var v, w := c.End(x).session.latestUsable, c.End(x.Peer()).session.window; Sub32(w.mostRecent, v) <= 1 && w.Has(v)
  {
  }

  lemma PhaseUsable(c: System, ph: Phase, x: Side)
    requires Windows(c) && InPhase(c, ph)
    ensures var v, wx, wy := c.End(x).session.latestUsable, c.End(x).session.window, c.End(x.Peer()).session.window;
            && Sub32(wx.mostRecent, v) <= 1 && wx.Has(v)
            && Sub32(wy.mostRecent, v) <= 1 && wy.Has(v)
  {
    if AliceCommitted(ph) {
      PhaseUsableHereLate(c, ph, x);
      PhaseUsableThereLate(c, ph, x);
    } else {
      PhaseUsableHereEarly(c, ph, x);
      PhaseUsableThereEarly(c, ph, x);
    }
  }

  lemma TicketsGrow(out: seq<Packet>, inbound: seq<Packet>, owner: Endpoint, owner': Endpoint)
    requires Tickets(out, inbound, owner) && owner.messages <= owner'.messages
    requires forall t: nat :: Message(t) in owner'.pending ==>
               Message(t) in owner.pending || owner.messages <= t < owner'.messages
    ensures Tickets(out, inbound, owner')
  {
    forall t: nat | TicketFree(t, owner)
      ensures TicketFree(t, owner')
    {
    }
  }

  lemma FlowsSend(ex: Endpoint, ey: Endpoint, toX: seq<Packet>, toY: seq<Packet>, ex': Endpoint, p: Packet)
    requires Flows(ex, ey, toX, toY) && GoalsNear(toY, ex.session.window)
    requires p.Data? || p.Proposal?
    requires ex'.session.window == ex.session.window && ex.messages <= ex'.messages
    requires forall t: nat :: Message(t) in ex'.pending ==>
               Message(t) in ex.pending || ex.messages <= t < ex'.messages
    requires p.Data? ==> TicketFree(p.ticket, ex')
    requires Sub32(ex.session.window.mostRecent, p.version) <= 1 && ex.session.window.Has(p.version)
    requires Sub32(ey.session.window.mostRecent, p.version) <= 1 && ey.session.window.Has(p.version)
    ensures Flows(ex', ey, toX, toY + [p])
  {
    AgesPush(toY, ex.session.window, ey.session.window, p);
    TicketsGrow(toY, toX, ex, ex');
    TicketsSend(toY, toX, ex', p);
    TicketsReceive(toX, toY, ey, p);
  }

  lemma LockedSends(e: Endpoint, seed: nat)
    requires e.session.window.Has(e.session.latestUsable) && e.session.updateInProgress
    ensures SendMessage(e, seed)
            == Outcome(e.(session := e.session.(rollingGroupId := Succ64(e.session.rollingGroupId)), messages := e.messages + 1),
                       [Data(e.session.latestUsable, e.messages)], {})
    ensures StartRekey(e, seed) == Outcome(e, [], {})
  {
  }

  lemma UnlockedTickets(e: Endpoint, seed: nat, o: Outcome)
    requires Clear(e) && e.session.window.Has(e.session.latestUsable)
    requires o == SendMessage(e, seed) || o == StartRekey(e, seed)
    ensures e.messages <= o.end.messages
    ensures forall t: nat :: Message(t) in o.end.pending ==> Message(t) in e.pending || e.messages <= t < o.end.messages
    ensures |o.sent| == 1 && o.sent[0].Proposal? && o.sent[0].version == e.session.latestUsable
  {
  }

  lemma CoreEmit(s: System, x: Side, o: Outcome)
    requires |o.sent| <= 1
    ensures var c := Core(Emit(s, x, o).0);
            if o.sent != [] && IsControl(o.sent[0]) then c == Emit(Core(s), x, o).0
            else c == Core(s).With(x, o.end, Core(s).Inbox(x), Core(s).Inbox(x.Peer()))
  {
    if o.sent == [] {
      assert s.Inbox(x.Peer()) + o.sent == s.Inbox(x.Peer());
    } else {
      assert o.sent == [o.sent[0]];
      ControlAppend(s.Inbox(x.Peer()), o.sent[0]);
    }
  }

  /** The phase does not look at message counters or group identifiers. */
  ghost predicate SameButCounters(e: Endpoint, e': Endpoint)
  {
    && e'.pending == e.pending && e'.session.window == e.session.window
    && e'.session.updateInProgress == e.session.updateInProgress && e'.session.lockSetByAlice == e.session.lockSetByAlice
    && e'.session.localIsInitiator == e.session.localIsInitiator && e'.session.latestUsable == e.session.latestUsable
  }

  ghost predicate SameHandshake(c: System, c': System)
  {
    SameButCounters(c.init, c'.init) && SameButCounters(c.resp, c'.resp) && c'.toInit == c.toInit && c'.toResp == c.toResp
  }

  lemma CountersAsideEarly(c: System, ph: Phase, c': System)
    requires Windows(c) && InPhase(c, ph) && SameHandshake(c, c')
    requires ph.Idle? || ph.Proposed? || ph.Crossed? || ph.CrossedOmitted? || ph.Acknowledging?
    ensures InPhase(c', ph)
  {
  }

  lemma CountersAsideBob(c: System, x: Side, left: Leftover, c': System)
    requires Windows(c) && InBobCommitted(c, x, left) && SameHandshake(c, c')
    ensures InBobCommitted(c', x, left)
  {
    var toX := c.Inbox(x);
    assert Answers(toX[|toX| - 1], c'.End(x), c'.End(x.Peer()));
  }

  lemma CountersAsideLate(c: System, ph: Phase, c': System)
    requires Windows(c) && InPhase(c, ph) && SameHandshake(c, c')
    requires ph.BothCommitted? || ph.Truncating?
    ensures InPhase(c', ph)
  {
  }

  lemma CountersAside(c: System, ph: Phase, c': System)
    requires Windows(c) && InPhase(c, ph) && SameHandshake(c, c')
    ensures Windows(c') && InPhase(c', ph)
  {
    match ph
    case BobCommitted(x, left) => CountersAsideBob(c, x, left, c');
    case BothCommitted(_, _, _) => CountersAsideLate(c, ph, c');
    case Truncating(_, _) => CountersAsideLate(c, ph, c');
    case _ => CountersAsideEarly(c, ph, c');
  }

  lemma Sent(s: System, ph: Phase, x: Side, a: Action)
    requires Inv(s, ph) && !a.Deliver? && a.side == x
    ensures Lands(s, a, if MayPropose(ph, x) then AfterProposal(ph, x) else ph)
  {
    if MayPropose(ph, x) {
      SentUnlocked(s, ph, x, a);
    } else if a.Send? {
      SentLocked(s, ph, x, a.seed);
    } else {
      ProposedLocked(s, ph, x, a.seed);
    }
  }

  lemma ProposedLocked(s: System, ph: Phase, x: Side, seed: nat)
    requires Inv(s, ph) && !MayPropose(ph, x)
    ensures Lands(s, Propose(x, seed), ph)
  {
    UnlockedExactlyWhenMayPropose(Core(s), ph, x);
    LockedSends(s.End(x), seed);
    assert s.Inbox(x.Peer()) + [] == s.Inbox(x.Peer());
    assert Step(s, Propose(x, seed)) == (s, {});
  }

  lemma SendFlows(s: System, ph: Phase, x: Side, e': Endpoint, p: Packet)
    requires Inv(s, ph) && (p.Data? || p.Proposal?) && p.version == s.End(x).session.latestUsable
    requires e'.session.window == s.End(x).session.window && s.End(x).messages <= e'.messages
    requires e'.session.localIsInitiator == s.End(x).session.localIsInitiator
    requires forall t: nat :: Message(t) in e'.pending ==>
               Message(t) in s.End(x).pending || s.End(x).messages <= t < e'.messages
    requires p.Data? ==> TicketFree(p.ticket, e')
    ensures Sane(s.With(x, e', s.Inbox(x), s.Inbox(x.Peer()) + [p]))
  {
    PhaseUsable(Core(s), ph, x);
    PhaseGoals(Core(s), ph, x.Peer());
    NearGoals(s.Inbox(x.Peer()), s.End(x).session.window);
    FlowsFrom(s, x);
    FlowsSend(s.End(x), s.End(x.Peer()), s.Inbox(x), s.Inbox(x.Peer()), e', p);
    SaneFrom(s.With(x, e', s.Inbox(x), s.Inbox(x.Peer()) + [p]), x);
  }

  function Emission(e: Endpoint, a: Action): Outcome
    requires !a.Deliver?
  {
    if a.Send? then SendMessage(e, a.seed) else StartRekey(e, a.seed)
  }

  lemma LandsByEmit(s: System, a: Action, o: Outcome, ph: Phase)
    requires !a.Deliver? && o == Emission(s.End(a.side), a) && o.faults == {} && Inv(Emit(s, a.side, o).0, ph)
    ensures Lands(s, a, ph)
  {
  }

  lemma UnlockedCore(s: System, ph: Phase, x: Side, o: Outcome)
    requires Inv(s, ph) && MayPropose(ph, x) && Proposes(s.End(x), o)
    ensures InPhase(Core(Emit(s, x, o).0), AfterProposal(ph, x))
  {
    ProposalIsControl(s.End(x), o);
    CoreEmit(s, x, o);
    ProposalSent(Core(s), ph, x, o);
  }

  lemma ProposalIsControl(e: Endpoint, o: Outcome)
    requires Proposes(e, o)
    ensures o.sent != [] && IsControl(o.sent[0])
  {
  }

  lemma UnlockedFlows(s: System, ph: Phase, x: Side, o: Outcome)
    requires Inv(s, ph) && Proposes(s.End(x), o) && s.End(x).messages <= o.end.messages
    requires forall t: nat :: Message(t) in o.end.pending ==> Message(t) in s.End(x).pending || s.End(x).messages <= t < o.end.messages
    requires o.sent[0].version == s.End(x).session.latestUsable
    ensures Sane(Emit(s, x, o).0)
  {
    assert o.sent == [o.sent[0]];
    SendFlows(s, ph, x, o.end, o.sent[0]);
  }

  lemma SentUnlocked(s: System, ph: Phase, x: Side, a: Action)
    requires Inv(s, ph) && MayPropose(ph, x) && !a.Deliver? && a.side == x
    ensures Lands(s, a, AfterProposal(ph, x))
  {
    var o := Emission(s.End(x), a);
    UnlockedExactlyWhenMayPropose(Core(s), ph, x);
    UnlockedProposes(s.End(x), a.seed);
    UnlockedTickets(s.End(x), a.seed, o);
    UnlockedCore(s, ph, x, o);
    UnlockedFlows(s, ph, x, o);
    LandsByEmit(s, a, o, AfterProposal(ph, x));
  }

  lemma LockedCore(s: System, ph: Phase, x: Side, o: Outcome)
    requires Inv(s, ph) && SameButCounters(s.End(x), o.end) && |o.sent| == 1 && !IsControl(o.sent[0])
    ensures InPhase(Core(Emit(s, x, o).0), ph)
  {
    CoreEmit(s, x, o);
    CountersAside(Core(s), ph, Core(Emit(s, x, o).0));
  }

  lemma SentLocked(s: System, ph: Phase, x: Side, seed: nat)
    requires Inv(s, ph) && !MayPropose(ph, x)
    ensures Lands(s, Send(x, seed), ph)
  {
    UnlockedExactlyWhenMayPropose(Core(s), ph, x);
    LockedSends(s.End(x), seed);
    var o := SendMessage(s.End(x), seed);
    LockedCore(s, ph, x, o);
    LockedTicket(s, x, o.end);
    SendFlows(s, ph, x, o.end, o.sent[0]);
    LandsByEmit(s, Send(x, seed), o, ph);
  }

  lemma LockedTicket(s: System, x: Side, e': Endpoint)
    requires Sane(s) && e'.pending == s.End(x).pending && e'.messages == s.End(x).messages + 1
    ensures TicketFree(s.End(x).messages, e')
  {
  }

  lemma NoiseDelivered(s: System, ph: Phase, y: Side, seed: nat)
    requires Inv(s, ph) && s.Inbox(y) != [] && !IsControl(s.Inbox(y)[0])
    ensures Lands(s, Deliver(y, seed), ph)
  {
    PhaseGoals(Core(s), ph, y.Peer());
    NearGoals(s.Inbox(y.Peer()), s.End(y).session.window);
    if s.Inbox(y)[0].Data? { DataDelivered(s, y, seed); } else { EmptyReplyDelivered(s, y, seed); }
  }

  /** Every step that does not deliver an omitted rekey keeps the invariant and reports no fault. */
  lemma StepKeeps(s: System, ph: Phase, a: Action) returns (ph': Phase)
    requires Inv(s, ph) && !(a.Deliver? && OmittedRekeyNext(s, a.side))
    ensures Lands(s, a, ph') && ph' == PhaseAfter(s, ph, a)
  {
    ph' := PhaseAfter(s, ph, a);
    if a.Deliver? {
      var y := a.side;
      if s.Inbox(y) != [] {
        if IsControl(s.Inbox(y)[0]) { ControlDelivered(s, ph, y, a.seed); } else { NoiseDelivered(s, ph, y, a.seed); }
      }
    } else {
      Sent(s, ph, a.side, a);
    }
  }

  function PhaseAfter(s: System, ph: Phase, a: Action): Phase
  {
    if a.Deliver? then
      if s.Inbox(a.side) != [] && IsControl(s.Inbox(a.side)[0]) then NextPhase(ph, a.side, Full(s, a.side)) else ph
    else if MayPropose(ph, a.side) then AfterProposal(ph, a.side) else ph
  }
}
