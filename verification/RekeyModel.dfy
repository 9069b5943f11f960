/**
 Two endpoints joined by two FIFO streams, and what each packet processor does with a packet:
 the rekey packets (packet_processor/rekey_packet.rs) and the messages that carry a proposal along
 (packet_processor/primary_group_packet.rs), in best-effort secrecy mode.
 */
module RekeyModel {
  import opened Words
  import opened Ratchets
  import opened Toolsets
  import opened SessionCrypto

  /**
   How a proposal travels: as an explicit STAGE0/STAGE1 exchange, or inside a message and its header
   acknowledgement. `ticket` identifies the outbound transmitter that keeps the constructor.
   */
  datatype Path = Rekey | Message(ticket: nat)

  /** Every packet names the ratchet version it is protected with. */
  datatype Packet =
    | Data(version: u32, ticket: nat)
    | Proposal(version: u32, path: Path, alice: nat)
    | Reply(version: u32, path: Path, status: KemTransferStatus)
    | Truncate(version: u32, truncate: Option<u32>)
    | TruncateAck(version: u32, truncated: u32)

  datatype Endpoint = Endpoint(session: Session, pending: map<Path, Constructor>, messages: nat)

  /** What the source reports with log::error!, an early return or an unwrap on None. */
  datatype Fault =
    | VersionMissing | CommitFailed | DeregisterFailed | UnlockOfClearFlag | ConstructorMissing | UsableMissing

  datatype Outcome = Outcome(end: Endpoint, sent: seq<Packet>, faults: set<Fault>)

  function UnlockFaults(s: Session, requiresLockedByAlice: bool): set<Fault>
  {
    if s.Unlocks(requiresLockedByAlice) && !s.updateInProgress then {UnlockOfClearFlag} else {}
  }

  /** attempt_kem_as_alice_finish: `latest` is its Ok(Some(..)) version, `failed` its Err. */
  datatype Finish = Finish(session: Session, latest: Option<u32>, failed: bool, faults: set<Fault>)

  function WithUsable(s: Session, faults: set<Fault>): Finish
  {
    if s.Usable().None? then Finish(s, None, true, faults + {UsableMissing})
    else Finish(s, Some(s.Usable().value.version), false, faults)
  }

  function UnlockAsAlice(s: Session): Finish
  {
    WithUsable(s.Unlocked(true), UnlockFaults(s, true))
  }

  function AliceFinish(s: Session, status: KemTransferStatus, c: Option<Constructor>): Finish
  {
    match status
    case Transfer(bob, _) =>
      if c.None? then Finish(s, None, false, {ConstructorMissing}) else
      var up := s.UpdatedSyncSafe(c.value.(bob := Some(bob)), true, s.window.cid);
      if up.None? then Finish(s, None, true, {CommitFailed}) else
      var s1 := up.value.0;
      var needs := status.RequiresTruncation();
      if needs.None? then UnlockAsAlice(s1.Advanced()) else
      var w := s1.window.Deregistered(needs.value);
      if w.None? then Finish(s1, None, true, {DeregisterFailed})
      else WithUsable(s1.(window := w.value).Advanced(), {})
    case Omitted => UnlockAsAlice(s)
    case StatusNoTransfer(_) => Finish(s, None, true, {CommitFailed})
    case Empty => Finish(s, None, false, {})
  }

  /** STAGE0, or a message header with a transfer: Bob builds on the ratchet the packet names. */
  function OnProposal(e: Endpoint, hr: Ratchet, p: Packet, seed: nat): Outcome
    requires p.Proposal?
  {
    var c := Constructor(hr.secret, p.alice, Some(seed));
    var up := e.session.UpdatedSyncSafe(c, false, e.session.window.cid);
    if up.None? then Outcome(e, [], {CommitFailed})
    else Outcome(e.(session := up.value.0), [Reply(p.version, p.path, up.value.1)], {})
  }

  /** STAGE1: a TRUNCATE goes back whatever the status was. */
  function OnStage1(e: Endpoint, p: Packet): Outcome
    requires p.Reply? && p.path == Rekey
  {
    if Rekey !in e.pending then Outcome(e, [], {ConstructorMissing}) else
    var f := AliceFinish(e.session, p.status, Some(e.pending[Rekey]));
    var e' := e.(session := f.session, pending := e.pending - {Rekey});
    if f.failed then Outcome(e', [], f.faults)
    else Outcome(e', [Truncate(if f.latest.Some? then f.latest.value else p.version,
                               p.status.RequiresTruncation())], f.faults)
  }

  /** GROUP_HEADER_ACK: a TRUNCATE goes back only when a transfer occurred. */
  function OnHeaderAck(e: Endpoint, p: Packet): Outcome
    requires p.Reply? && p.path.Message?
  {
    var c := if p.path in e.pending then Some(e.pending[p.path]) else None;
    var f := AliceFinish(e.session, p.status, c);
    Outcome(e.(session := f.session, pending := e.pending - {p.path}),
            if p.status.Transfer? then [Truncate(p.version, p.status.RequiresTruncation())] else [],
            f.faults)
  }

  function OnTruncate(e: Endpoint, p: Packet): Outcome
    requires p.Truncate?
  {
    var dereg := if p.truncate.Some? then e.session.window.Deregistered(p.truncate.value) else Some(e.session.window);
    var f0 := if dereg.None? then {DeregisterFailed} else {};
    var s := (if dereg.Some? then e.session.(window := dereg.value) else e.session).Advanced();
    var f1 := f0 + UnlockFaults(s, false);
    var s' := s.Unlocked(false);
    if s'.Usable().None? then Outcome(e.(session := s'), [], f1 + {UsableMissing})
    else Outcome(e.(session := s'),
                 if p.truncate.Some? then [TruncateAck(p.version, p.truncate.value)] else [], f1)
  }

  function OnTruncateAck(e: Endpoint): Outcome
  {
    var s := e.session.Unlocked(true);
    Outcome(e.(session := s), [], UnlockFaults(e.session, true) + if s.Usable().None? then {UsableMissing} else {})
  }

  function Receive(e: Endpoint, p: Packet, seed: nat): Outcome
  {
    var hr := e.session.window.Get(p.version);
    if hr.None? then Outcome(e, [], {VersionMissing}) else
    match p
    case Data(_, ticket) => Outcome(e, [Reply(p.version, Message(ticket), Empty)], {})
    case Proposal(_, _, _) => OnProposal(e, hr.value, p, seed)
    case Reply(_, path, _) => if path == Rekey then OnStage1(e, p) else OnHeaderAck(e, p)
    case Truncate(_, _) => OnTruncate(e, p)
    case TruncateAck(_, _) => OnTruncateAck(e)
  }

  /** initiate_drill_update */
  function StartRekey(e: Endpoint, seed: nat): Outcome
  {
    var (s, c) := e.session.Proposing(seed);
    if c.None? then Outcome(e.(session := s), [], if e.session.Usable().None? then {UsableMissing} else {})
    else Outcome(e.(session := s, pending := e.pending[Rekey := c.value]),
                 [Proposal(e.session.latestUsable, Rekey, seed)], {})
  }

  /** process_outbound_message in best-effort mode: propose along with the message when unlocked. */
  function SendMessage(e: Endpoint, seed: nat): Outcome
  {
    if e.session.Usable().None? then Outcome(e, [], {UsableMissing}) else
    var (s, c) := e.session.Proposing(seed);
    var path := Message(e.messages);
    var e' := Endpoint(s.(rollingGroupId := Succ64(s.rollingGroupId)),
                       if c.Some? then e.pending[path := c.value] else e.pending, e.messages + 1);
    Outcome(e', [if c.Some? then Proposal(e.session.latestUsable, path, seed)
                 else Data(e.session.latestUsable, e.messages)], {})
  }

  datatype Side = Initiator | Responder
  {
    function Peer(): Side { if this == Initiator then Responder else Initiator }
  }

  datatype System = System(init: Endpoint, resp: Endpoint, toInit: seq<Packet>, toResp: seq<Packet>)
  {
    function End(x: Side): Endpoint { if x == Initiator then init else resp }

    function Inbox(x: Side): seq<Packet> { if x == Initiator then toInit else toResp }

    function With(x: Side, e: Endpoint, inbox: seq<Packet>, peerInbox: seq<Packet>): System
    {
      if x == Initiator then this.(init := e, toInit := inbox, toResp := peerInbox)
      else this.(resp := e, toResp := inbox, toInit := peerInbox)
    }
  }

  datatype Action =
    | Send(side: Side, seed: nat)
    | Propose(side: Side, seed: nat)
    | Deliver(side: Side, seed: nat)

  function Step(s: System, a: Action): (System, set<Fault>)
  {
    var x := a.side;
    match a
    case Send(_, seed) => Emit(s, x, SendMessage(s.End(x), seed))
    case Propose(_, seed) => Emit(s, x, StartRekey(s.End(x), seed))
    case Deliver(_, seed) =>
      if s.Inbox(x) == [] then (s, {}) else
      var o := Receive(s.End(x), s.Inbox(x)[0], seed);
      (s.With(x, o.end, s.Inbox(x)[1..], s.Inbox(x.Peer()) + o.sent), o.faults)
  }

  function Emit(s: System, x: Side, o: Outcome): (System, set<Fault>)
  {
    (s.With(x, o.end, s.Inbox(x), s.Inbox(x.Peer()) + o.sent), o.faults)
  }

  /** Any interleaving of sends, rekeys and deliveries is a run; its last state comes last. */
  function Run(s: System, acts: seq<Action>): System
    decreases |acts|
  {
    if acts == [] then s else Step(Run(s, acts[..|acts| - 1]), acts[|acts| - 1]).0
  }

  function NewEndpoint(cid: u64, isInitiator: bool): Endpoint
  {
    Endpoint(Session(Initial(cid, Ratchet(0, cid, Root)), false, isInitiator, 1, 0, None, 0), map[], 0)
  }

  function NewSystem(initCid: u64, respCid: u64): System
  {
    System(NewEndpoint(initCid, true), NewEndpoint(respCid, false), [], [])
  }
}
