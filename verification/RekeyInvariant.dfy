/**
 What every reachable state of the rekey protocol looks like. Messages and their acknowledgements
 may sit anywhere in the streams; the packets of the handshake itself, read on their own, always
 spell out one of a few shapes, and each shape fixes locks, versions and keys at both ends.
 */
module RekeyInvariant {
  import opened Words
  import opened Ratchets
  import opened Toolsets
  import opened RekeyModel

  // ---- Reading the handshake off a stream ----

  predicate IsControl(p: Packet)
  {
    !p.Data? && !(p.Reply? && p.status.Empty?)
  }

  function Control(ch: seq<Packet>): seq<Packet>
  {
    if ch == [] then [] else (if IsControl(ch[0]) then [ch[0]] else []) + Control(ch[1..])
  }

  lemma {:induction false} ControlAppend(ch: seq<Packet>, p: Packet)
    ensures Control(ch + [p]) == Control(ch) + (if IsControl(p) then [p] else [])
    decreases |ch|
  {
    if ch != [] {
      assert (ch + [p])[1..] == ch[1..] + [p];
      ControlAppend(ch[1..], p);
    }
  }

  lemma {:induction false} ControlMember(ch: seq<Packet>, k: nat)
    requires k < |ch| && IsControl(ch[k])
    ensures ch[k] in Control(ch)
    decreases |ch|
  {
    if k > 0 { ControlMember(ch[1..], k - 1); }
  }

  // ---- Ages: how far behind a packet's version may be when it is delivered ----

  function Lag(p: Packet): nat
  {
    if p.Data? || p.Proposal? then 2 else 3
  }

  /** Packets whose delivery may raise the receiver's most recent version, and to what. */
  predicate Raises(p: Packet)
  {
    p.Proposal? || (p.Reply? && p.status.Transfer?)
  }

  function Goal(p: Packet): u32
    requires Raises(p)
  {
    if p.Proposal? then Succ32(p.version) else p.status.status.newVersion
  }

  ghost predicate InReach(p: Packet, from: Window, to: Window)
  {
    && Sub32(to.mostRecent, p.version) <= Lag(p) && to.Has(p.version)
    && Sub32(from.mostRecent, p.version) <= Lag(p) + 1 && from.Has(p.version)
  }

  ghost predicate Ages(ch: seq<Packet>, from: Window, to: Window)
  {
    && (forall k :: 0 <= k < |ch| ==> InReach(ch[k], from, to))
    && (forall j, k :: 0 <= j < k < |ch| && Raises(ch[j]) ==> Sub32(Goal(ch[j]), ch[k].version) <= Lag(ch[k]))
  }

  // ---- Tickets: an acknowledgement without transfer never touches a pending constructor ----

  ghost predicate TicketFree(t: nat, owner: Endpoint)
  {
    t < owner.messages && Message(t) !in owner.pending
  }

  ghost predicate Tickets(out: seq<Packet>, inbound: seq<Packet>, owner: Endpoint)
  {
    && (forall k :: 0 <= k < |out| && out[k].Data? ==> TicketFree(out[k].ticket, owner))
    && (forall k :: 0 <= k < |inbound| && inbound[k].Reply? && inbound[k].status.Empty? ==>
          inbound[k].path.Message? && TicketFree(inbound[k].path.ticket, owner))
    && (forall t: nat :: Message(t) in owner.pending ==> t < owner.messages)
  }

  // ---- Locks and windows ----

  ghost predicate Clear(e: Endpoint)
  {
    !e.session.updateInProgress && e.session.lockSetByAlice == None && e.pending == map[]
  }

  ghost predicate AliceLock(e: Endpoint)
  {
    e.session.updateInProgress && e.session.lockSetByAlice == Some(true)
  }

  ghost predicate BobLock(e: Endpoint)
  {
    e.session.updateInProgress && e.session.lockSetByAlice == Some(false)
  }

  ghost predicate Current(e: Endpoint)
  {
    e.session.latestUsable == e.session.window.mostRecent
  }

  /** Equal keys at equal versions, where `b` is `shift` versions ahead of `a`. */
  ghost predicate Aligned(a: Window, b: Window, shift: nat)
  {
    forall k :: 0 <= k < |a.entries| && k + shift < |b.entries| ==> a.entries[k].secret == b.entries[k + shift].secret
  }

  ghost predicate Level(a: Window, b: Window)
  {
    && a.mostRecent == b.mostRecent && |a.entries| == |b.entries| <= MAX_HYPER_RATCHETS_IN_MEMORY
    && Aligned(a, b, 0)
  }

  /** `p` is the proposal whose constructor `e` keeps, made from its current ratchet. */
  ghost predicate Offers(e: Endpoint, p: Packet)
  {
    var w := e.session.window;
    && p.Proposal? && w.entries != [] && p.version == w.mostRecent
    && e.pending == map[p.path := Constructor(w.entries[0].secret, p.alice, None)]
  }

  /** `p` belongs to a proposal of `e` that loses the tie. */
  ghost predicate Losing(e: Endpoint, p: Packet, version: u32)
  {
    (p.Proposal? || (p.Reply? && p.status.Omitted?)) && p.version == version && e.pending.Keys == {p.path}
  }

  function StatusOf(w: Window): UpdateStatus
  {
    if |w.entries| > MAX_HYPER_RATCHETS_IN_MEMORY
    then CommittedNeedsSynchronization(w.mostRecent, w.oldest) else Committed(w.mostRecent)
  }

  /** `r` answers `x`'s proposal with the contribution that produced `y`'s newest ratchet. */
  ghost predicate Answers(r: Packet, x: Endpoint, y: Endpoint)
  {
    var wx, wy := x.session.window, y.session.window;
    && r.Reply? && r.status.Transfer? && r.version == wx.mostRecent && wx.entries != [] && wy.entries != []
    && r.status.status == StatusOf(wy)
    && r.path in x.pending
    && var c := x.pending[r.path];
       && x.pending == map[r.path := c] && c.bob == None && c.base == wx.entries[0].secret
       && wy.entries[0].secret == Next(c.base, c.alice, r.status.bob)
  }

  datatype Leftover = Nothing | Unanswered | Omission

  /** `x` is the proposer whose update is under way. */
  datatype Phase =
    | Idle
    | Proposed(x: Side)
    | Crossed
    | CrossedOmitted
    | BobCommitted(x: Side, left: Leftover)
    | BothCommitted(x: Side, omission: bool, again: bool)
    | Truncating(x: Side, omission: bool)
    | Acknowledging(x: Side, again: bool)

  /** `s` is a core: its streams hold handshake packets only. */
  ghost predicate InPhase(s: System, ph: Phase)
  {
    match ph
    case Idle => InIdle(s)
    case Proposed(x) => InProposed(s, x)
    case Crossed => InCrossed(s)
    case CrossedOmitted => InCrossedOmitted(s)
    case BobCommitted(x, left) => InBobCommitted(s, x, left)
    case BothCommitted(x, omission, again) => InBothCommitted(s, x, omission, again)
    case Truncating(x, omission) => InTruncating(s, x, omission)
    case Acknowledging(x, again) => InAcknowledging(s, x, again)
  }

  ghost predicate LevelAndCurrent(s: System)
  {
    Level(s.init.session.window, s.resp.session.window) && Current(s.init) && Current(s.resp)
  }

  ghost predicate InIdle(s: System)
  {
    LevelAndCurrent(s) && Clear(s.init) && Clear(s.resp) && s.toInit == [] && s.toResp == []
  }

  ghost predicate InProposed(s: System, x: Side)
  {
    var out := s.Inbox(x.Peer());
    && LevelAndCurrent(s) && AliceLock(s.End(x)) && Clear(s.End(x.Peer()))
    && s.Inbox(x) == []
    && |out| == 1 && Offers(s.End(x), out[0])
  }

  ghost predicate InCrossed(s: System)
  {
    var toI, toR := s.toInit, s.toResp;
    && LevelAndCurrent(s) && AliceLock(s.init) && AliceLock(s.resp)
    && |toR| == 1 && Offers(s.init, toR[0])
    && |toI| == 1 && toI[0].Proposal? && Losing(s.resp, toI[0], s.resp.session.window.mostRecent)
  }

  ghost predicate InCrossedOmitted(s: System)
  {
    var toR := s.toResp;
    && LevelAndCurrent(s) && AliceLock(s.init) && AliceLock(s.resp)
    && s.toInit == []
    && |toR| == 2 && Offers(s.init, toR[0])
    && toR[1].Reply? && Losing(s.resp, toR[1], s.resp.session.window.mostRecent)
  }

  ghost predicate InBobCommitted(s: System, x: Side, left: Leftover)
  {
    var y := x.Peer();
    var ex, ey := s.End(x), s.End(y);
    var wx, wy := ex.session.window, ey.session.window;
    var toX, toY := s.Inbox(x), s.Inbox(y);
    && wy.mostRecent == Succ32(wx.mostRecent) && |wy.entries| == |wx.entries| + 1 <= MAX_HYPER_RATCHETS_IN_MEMORY + 1
    && Aligned(wx, wy, 1)
    && Current(ex) && ey.session.latestUsable == wx.mostRecent
    && AliceLock(ex) && BobLock(ey)
    && (left == Nothing ==> toY == [] && |toX| == 1 && ey.pending == map[])
    && (left == Unanswered ==> x == Initiator && toY == [] && |toX| == 2
                               && toX[0].Proposal? && Losing(ey, toX[0], wx.mostRecent))
    && (left == Omission ==> x == Initiator && |toX| == 1 && |toY| == 1
                             && toY[0].Reply? && Losing(ey, toY[0], wx.mostRecent))
    && toX != [] && Answers(toX[|toX| - 1], ex, ey)
  }

  /** The TRUNCATE that ends the update `x` proposed, possibly behind the answer to a lost proposal. */
  ghost predicate Ends(toY: seq<Packet>, ey: Endpoint, omission: bool, truncate: Option<u32>)
  {
    var at := if omission then 1 else 0;
    && |toY| > at
    && (omission ==> toY[0].Reply? && Losing(ey, toY[0], ey.session.latestUsable))
    && (!omission ==> ey.pending == map[])
    && toY[at].Truncate? && toY[at].truncate == truncate
    && (toY[at].version == ey.session.latestUsable || toY[at].version == ey.session.window.mostRecent)
  }

  ghost predicate AwaitsTruncate(s: System, x: Side, omission: bool)
  {
    var ex, ey := s.End(x), s.End(x.Peer());
    && ex.session.window.mostRecent == ey.session.window.mostRecent
    && Aligned(ex.session.window, ey.session.window, 0)
    && Current(ex) && Succ32(ey.session.latestUsable) == ey.session.window.mostRecent && |ey.session.window.entries| >= 2
    && BobLock(ey) && s.Inbox(x) == []
    && (omission ==> x == Initiator)
  }

  ghost predicate InBothCommitted(s: System, x: Side, omission: bool, again: bool)
  {
    var ex, ey := s.End(x), s.End(x.Peer());
    var toY := s.Inbox(x.Peer());
    && AwaitsTruncate(s, x, omission)
    && Ends(toY, ey, omission, None)
    && Level(ex.session.window, ey.session.window)
    && |toY| == (if omission then 1 else 0) + 1 + (if again then 1 else 0)
    && (again ==> AliceLock(ex) && Offers(ex, toY[|toY| - 1]))
    && (!again ==> Clear(ex))
  }

  ghost predicate InTruncating(s: System, x: Side, omission: bool)
  {
    var ex, ey := s.End(x), s.End(x.Peer());
    var toY := s.Inbox(x.Peer());
    && AwaitsTruncate(s, x, omission)
    && Ends(toY, ey, omission, Some(ey.session.window.oldest))
    && |toY| == (if omission then 1 else 0) + 1
    && |ex.session.window.entries| == MAX_HYPER_RATCHETS_IN_MEMORY
    && |ey.session.window.entries| == MAX_HYPER_RATCHETS_IN_MEMORY + 1
    && AliceLock(ex) && ex.pending == map[]
  }

  ghost predicate InAcknowledging(s: System, x: Side, again: bool)
  {
    var y := x.Peer();
    var ex, ey := s.End(x), s.End(y);
    var toX := s.Inbox(x);
    && LevelAndCurrent(s) && |ex.session.window.entries| >= 2
    && AliceLock(ex) && ex.pending == map[] && s.Inbox(y) == []
    && |toX| == 1 + (if again then 1 else 0)
    && toX[0].TruncateAck? && Sub32(ex.session.window.mostRecent, toX[0].version) <= 1
    && (again ==> AliceLock(ey) && Offers(ey, toX[1]))
    && (!again ==> Clear(ey))
  }

  ghost predicate Windows(s: System)
  {
    && s.init.session.window.Valid() && s.resp.session.window.Valid()
    && s.init.session.localIsInitiator && !s.resp.session.localIsInitiator
  }

  /** One direction of the traffic: `ch` runs from `sender` to `receiver`, `back` the other way. */
  ghost predicate Flow(sender: Endpoint, receiver: Endpoint, ch: seq<Packet>, back: seq<Packet>)
  {
    Ages(ch, sender.session.window, receiver.session.window) && Tickets(ch, back, sender)
  }

  ghost predicate Flows(a: Endpoint, b: Endpoint, toA: seq<Packet>, toB: seq<Packet>)
  {
    Flow(a, b, toB, toA) && Flow(b, a, toA, toB)
  }

  ghost predicate Sane(s: System)
  {
    Windows(s) && Flows(s.init, s.resp, s.toInit, s.toResp)
  }

  /** The system as the handshake sees it: the same endpoints, with messages left out of the streams. */
  function Core(s: System): System
  {
    s.(toInit := Control(s.toInit), toResp := Control(s.toResp))
  }

  ghost predicate Inv(s: System, ph: Phase)
  {
    Sane(s) && InPhase(Core(s), ph)
  }
}
