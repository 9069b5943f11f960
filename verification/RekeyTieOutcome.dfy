/** How a tie between two proposals ends, and when it ends as it should. */
module RekeyTieOutcome {
  import opened Words
  import opened Ratchets
  import opened Toolsets
  import opened SessionCrypto
  import opened RekeyModel
  import opened RekeyInvariant
  import opened RekeySteps
  import opened RekeyStray
  import opened RekeyRuns
  import opened RekeyTies

  // ---- A tie with a stray TRUNCATE ahead: the initiator commits both proposals ----

  /** The version both ends had, the initiator's proposal, and the responder's. */
  datatype Rift = Rift(u: u32, q: Packet, p2: Packet)

  ghost predicate NoProposal(ch: seq<Packet>)
  {
    forall i :: 0 <= i < |ch| ==> !ch[i].Proposal?
  }

  ghost predicate NoRaise(ch: seq<Packet>)
  {
    forall i :: 0 <= i < |ch| ==> !Raises(ch[i])
  }

  /** The answer to the initiator's proposal is still to be given, or is the first of `rest`. */
  ghost predicate AnswerDue(c: System, rest: seq<Packet>, d: Rift)
    requires d.q.Proposal?
  {
    if rest == []
    then && c.toResp != [] && c.toResp[0] == d.q && NoProposal(c.toResp[1..])
         && c.resp.session.window.mostRecent == d.u && c.resp.session.window.entries != [] && !c.resp.session.localIsInitiator
    else && rest[0].Reply? && rest[0].status.Transfer? && rest[0].path == d.q.path && rest[0].version == d.u
         && NoRaise(rest[1..]) && NoProposal(c.toResp)
  }

  /** What is ahead of the answer at each stage. */
  ghost predicate Ahead(c: System, n: nat, d: Rift)
  {
    match n
    case 0 => && |c.toInit| >= 2 && c.toInit[0].Truncate? && c.toInit[0].truncate.None? && c.toInit[1] == d.p2
              && c.init.session.window.Has(c.toInit[0].version) && c.init.session.updateInProgress
    case 1 => |c.toInit| >= 1 && c.toInit[0] == d.p2 && !c.init.session.updateInProgress
    case _ => true
  }

  /** `c` is a core; `n` counts stray, responder's proposal and answer as the initiator takes them. */
  ghost predicate Rifting(c: System, n: nat, d: Rift)
  {
    var w := c.init.session.window;
    && d.q.Proposal? && d.q.version == d.u && d.p2.Proposal? && d.p2.version == d.u && n <= 3
    && w.mostRecent == (if n < 2 then d.u else if n == 2 then Succ32(d.u) else Succ32(Succ32(d.u)))
    && (n < 3 ==> Sub32(w.mostRecent, d.u) < |w.entries| && d.q.path in c.init.pending)
    && Ahead(c, n, d)
    && (if n < 3 then AnswerDue(c, c.toInit[if n < 2 then 2 - n else 0..], d) else NoRaise(c.toInit) && NoProposal(c.toResp))
  }

  lemma StrayWidens(c: System, d: Rift, seed: nat)
    requires Rifting(c, 0, d)
    ensures Rifting(Step(c, Deliver(Initiator, seed)).0, 1, d)
  {
    var c' := Step(c, Deliver(Initiator, seed)).0;
    assert c'.toResp == c.toResp;
    assert c.toInit[1..][1..] == c.toInit[2..];
  }

  lemma SecondCommits(c: System, d: Rift, seed: nat)
    requires Rifting(c, 1, d)
    ensures Rifting(Step(c, Deliver(Initiator, seed)).0, 2, d)
  {
    var o := Receive(c.init, d.p2, seed);
    var c' := Step(c, Deliver(Initiator, seed)).0;
    assert |o.sent| == 1 && o.sent[0].Reply?;
    assert c'.toResp == c.toResp + o.sent;
    assert c'.toInit == c.toInit[1..];
    if c.toInit[1..] == [] {
      assert c'.toResp[1..] == c.toResp[1..] + o.sent;
    }
  }

  lemma FinishRaises(s: Session, bob: nat, st: UpdateStatus, c: Constructor)
    ensures AliceFinish(s, Transfer(bob, st), Some(c)).session.window.mostRecent == Succ32(s.window.mostRecent)
  {
    var up := s.UpdatedSyncSafe(c.(bob := Some(bob)), true, s.window.cid);
    assert up.Some? && up.value.0.window.mostRecent == Succ32(s.window.mostRecent);
  }

  /** The answer commits one version more, whatever becomes of truncation and lock. */
  lemma AnswerRaises(e: Endpoint, p: Packet, seed: nat)
    requires p.Reply? && p.status.Transfer? && p.path in e.pending && e.session.window.Has(p.version)
    ensures var o := Receive(e, p, seed);
            && o.end.session.window.mostRecent == Succ32(e.session.window.mostRecent)
            && |o.sent| <= 1 && NoProposal(o.sent)
  {
    FinishRaises(e.session, p.status.bob, p.status.status, e.pending[p.path]);
  }

  lemma AnswerCommits(c: System, d: Rift, seed: nat)
    requires Rifting(c, 2, d) && c.toInit != []
    ensures Rifting(Step(c, Deliver(Initiator, seed)).0, 3, d)
  {
    AnswerRaises(c.init, c.toInit[0], seed);
    assert c.toInit[0..] == c.toInit;
  }

  /** Nothing but a proposal or a transfer raises a version, and nothing but a proposal makes a transfer. */
  lemma OthersDoNotRaise(e: Endpoint, p: Packet, seed: nat)
    ensures var o := Receive(e, p, seed);
            && |o.sent| <= 1 && NoProposal(o.sent)
            && (!p.Proposal? ==> NoRaise(o.sent))
            && (!Raises(p) ==> o.end.session.window.mostRecent == e.session.window.mostRecent)
  {
  }

  lemma LastStage(c: System, d: Rift, y: Side, seed: nat)
    requires Rifting(c, 3, d) && c.Inbox(y) != []
    ensures Rifting(Step(c, Deliver(y, seed)).0, 3, d)
  {
    OthersDoNotRaise(c.End(y), c.Inbox(y)[0], seed);
  }

  /** The responder's turn while the answer is due: it answers, or does something of no account. */
  lemma ResponderAnswers(c: System, c': System, rest: seq<Packet>, d: Rift, seed: nat)
    requires d.q.Proposal? && d.q.version == d.u && c.toResp != [] && AnswerDue(c, rest, d)
    requires var o := Receive(c.resp, c.toResp[0], seed);
             c' == c.(resp := o.end, toResp := c.toResp[1..], toInit := c.toInit + o.sent)
    ensures AnswerDue(c', rest + Receive(c.resp, c.toResp[0], seed).sent, d)
  {
    var o := Receive(c.resp, c.toResp[0], seed);
    OthersDoNotRaise(c.resp, c.toResp[0], seed);
    if rest == [] {
      assert o.sent == [Reply(d.u, d.q.path, o.sent[0].status)] && o.sent[0].status.Transfer?;
      assert rest + o.sent == o.sent;
    } else {
      assert (rest + o.sent)[0] == rest[0] && (rest + o.sent)[1..] == rest[1..] + o.sent;
    }
  }

  lemma ResponderTurn(c: System, n: nat, d: Rift, seed: nat)
    requires Rifting(c, n, d) && n < 3 && c.toResp != []
    ensures Rifting(Step(c, Deliver(Responder, seed)).0, n, d)
  {
    var at := if n < 2 then 2 - n else 0;
    var o := Receive(c.resp, c.toResp[0], seed);
    var c' := Step(c, Deliver(Responder, seed)).0;
    ResponderAnswers(c, c', c.toInit[at..], d, seed);
    assert c'.toInit == c.toInit + o.sent;
    assert c'.toInit[at..] == c.toInit[at..] + o.sent;
    assert n < 2 ==> c'.toInit[0] == c.toInit[0];
    assert n == 0 ==> c'.toInit[1] == c.toInit[1];
  }

  lemma RiftControl(c: System, n: nat, d: Rift, y: Side, seed: nat) returns (n': nat)
    requires Rifting(c, n, d) && c.Inbox(y) != []
    ensures Rifting(Step(c, Deliver(y, seed)).0, n', d)
  {
    n' := if y == Initiator && n < 3 then n + 1 else n;
    if n == 3 { LastStage(c, d, y, seed); }
    else if y == Responder { ResponderTurn(c, n, d, seed); }
    else if n == 0 { StrayWidens(c, d, seed); }
    else if n == 1 { SecondCommits(c, d, seed); }
    else { AnswerCommits(c, d, seed); }
  }

  // ---- Messages in between do not matter ----

  /** A message or acknowledgement on its way to `y` keeps clear of the constructor the initiator holds at `path`. */
  predicate KeepsClear(p: Packet, y: Side, path: Path)
  {
    && (p.Reply? && p.status.Empty? ==> p.path.Message? && (y == Initiator ==> p.path != path))
    && (p.Data? && y == Responder ==> Message(p.ticket) != path)
  }

  ghost predicate AllClear(ch: seq<Packet>, y: Side, path: Path)
  {
    forall i :: 0 <= i < |ch| ==> KeepsClear(ch[i], y, path)
  }

  ghost predicate Apart(s: System, path: Path)
  {
    AllClear(s.toInit, Initiator, path) && AllClear(s.toResp, Responder, path)
  }

  /** What a message or its acknowledgement does to whoever gets it. */
  lemma NoiseReceived(e: Endpoint, p: Packet, seed: nat)
    requires !IsControl(p) && (p.Reply? ==> p.path.Message?)
    ensures var o := Receive(e, p, seed);
            && o.end.session == e.session && |o.sent| <= 1
            && (forall path :: path in e.pending && (p.Reply? ==> path != p.path) ==> path in o.end.pending)
            && (o.sent != [] ==> p.Data? && o.sent[0] == Reply(p.version, Message(p.ticket), Empty))
  {
  }

  lemma {:induction false} NoiseAside(s: System, y: Side, seed: nat)
    requires s.Inbox(y) != [] && !IsControl(s.Inbox(y)[0]) && (s.Inbox(y)[0].Reply? ==> s.Inbox(y)[0].path.Message?)
    ensures var s' := Step(s, Deliver(y, seed)).0;
            Control(s'.toInit) == Control(s.toInit) && Control(s'.toResp) == Control(s.toResp)
            && s'.End(y).session == s.End(y).session && s'.End(y.Peer()) == s.End(y.Peer())
  {
    var o := Receive(s.End(y), s.Inbox(y)[0], seed);
    NoiseReceived(s.End(y), s.Inbox(y)[0], seed);
    if o.sent == [] {
      assert s.Inbox(y.Peer()) + o.sent == s.Inbox(y.Peer());
    } else {
      assert o.sent == [o.sent[0]];
      ControlAppend(s.Inbox(y.Peer()), o.sent[0]);
    }
  }

  lemma RiftingSame(c: System, c': System, n: nat, d: Rift)
    requires Rifting(c, n, d) && c'.toInit == c.toInit && c'.toResp == c.toResp
    requires c'.init.session == c.init.session && c'.resp.session == c.resp.session
    requires d.q.path in c.init.pending ==> d.q.path in c'.init.pending
    ensures Rifting(c', n, d)
  {
  }

  lemma ApartNoise(s: System, path: Path, y: Side, seed: nat)
    requires Apart(s, path) && s.Inbox(y) != [] && !IsControl(s.Inbox(y)[0])
    ensures Apart(Step(s, Deliver(y, seed)).0, path)
  {
    var o := Receive(s.End(y), s.Inbox(y)[0], seed);
    assert KeepsClear(s.Inbox(y)[0], y, path);
    NoiseReceived(s.End(y), s.Inbox(y)[0], seed);
    ApartMoves(s, path, y, o);
  }

  /** A delivery takes one packet away and adds what was sent back. */
  lemma ApartMoves(s: System, path: Path, y: Side, o: Outcome)
    requires Apart(s, path) && s.Inbox(y) != [] && AllClear(o.sent, y.Peer(), path)
    ensures Apart(s.With(y, o.end, s.Inbox(y)[1..], s.Inbox(y.Peer()) + o.sent), path)
  {
  }

  lemma RiftNoise(s: System, n: nat, d: Rift, y: Side, seed: nat)
    requires Rifting(Core(s), n, d) && Apart(s, d.q.path) && s.Inbox(y) != [] && !IsControl(s.Inbox(y)[0])
    ensures var s' := Step(s, Deliver(y, seed)).0; Rifting(Core(s'), n, d) && Apart(s', d.q.path)
  {
    NoiseReceived(s.End(y), s.Inbox(y)[0], seed);
    NoiseAside(s, y, seed);
    RiftingSame(Core(s), Core(Step(s, Deliver(y, seed)).0), n, d);
    ApartNoise(s, d.q.path, y, seed);
  }

  lemma ApartOn(s: System, path: Path, y: Side, seed: nat)
    requires Apart(s, path) && s.Inbox(y) != [] && IsControl(s.Inbox(y)[0])
    ensures Apart(Step(s, Deliver(y, seed)).0, path)
  {
    SentBack(s.End(y), s.Inbox(y)[0], seed);
    ApartMoves(s, path, y, Receive(s.End(y), s.Inbox(y)[0], seed));
  }

  lemma RiftStep(s: System, n: nat, d: Rift, a: Action) returns (n': nat)
    requires Rifting(Core(s), n, d) && Apart(s, d.q.path) && a.Deliver?
    ensures var s' := Step(s, a).0; Rifting(Core(s'), n', d) && Apart(s', d.q.path)
  {
    n' := n;
    if s.Inbox(a.side) != [] {
      if IsControl(s.Inbox(a.side)[0]) {
        CoreStep(s, a.side, a.seed);
        n' := RiftControl(Core(s), n, d, a.side, a.seed);
        ApartOn(s, d.q.path, a.side, a.seed);
      } else {
        RiftNoise(s, n, d, a.side, a.seed);
      }
    }
  }

  lemma {:induction false} RiftRun(s: System, n: nat, d: Rift, acts: seq<Action>) returns (n': nat)
    requires Rifting(Core(s), n, d) && Apart(s, d.q.path) && OnlyDeliveries(acts)
    ensures var s' := Run(s, acts); Rifting(Core(s'), n', d) && Apart(s', d.q.path)
    decreases |acts|
  {
    if acts == [] {
      n' := n;
    } else {
      var before := acts[..|acts| - 1];
      var mid := RiftRun(s, n, d, before);
      n' := RiftStep(Run(s, before), mid, d, acts[|acts| - 1]);
    }
  }

  // ---- The outcome ----

  /** Both ends have proposed, and neither proposal has arrived. */
  predicate Tied(s: System, i: nat, j: nat)
  {
    i < |s.toInit| && s.toInit[i].Proposal? && j < |s.toResp| && s.toResp[j].Proposal?
  }

  predicate NoTruncateTo(ch: seq<Packet>)
  {
    forall i :: 0 <= i < |ch| ==> !ch[i].Truncate?
  }

  /** Each end has one version more, made from the base it had and the initiator's proposal. */
  ghost predicate EachGainsOne(s: System, s': System, alice: nat)
  {
    forall x: Side ::
      var w, w' := s.End(x).session.window, s'.End(x).session.window;
      && w.entries != [] && w'.entries != [] && w'.mostRecent == Succ32(w.mostRecent)
      && From(w'.entries[0].secret, w.entries[0].secret, alice)
  }

  lemma CrossedOnly(c: System, ph: Phase, p: Packet, q: Packet)
    requires InPhase(c, ph) && p in c.toInit && p.Proposal? && q in c.toResp && q.Proposal?
    ensures ph == Crossed && c.toResp == [q] && c.toInit == [p]
  {
  }

  /** Both proposals are in flight only in the crossed phase. */
  lemma TieIsCrossed(s: System, ph: Phase, i: nat, j: nat)
    requires Inv(s, ph) && Tied(s, i, j)
    ensures ph == Crossed && Control(s.toInit) == [s.toInit[i]] && Control(s.toResp) == [s.toResp[j]]
  {
    ControlMember(s.toInit, i);
    ControlMember(s.toResp, j);
    CrossedOnly(Core(s), ph, s.toInit[i], s.toResp[j]);
  }

  lemma {:induction false} SoundTieHasNoTruncate(s: System, ph: Phase, i: nat, j: nat)
    requires Inv(s, ph) && Tied(s, i, j)
    ensures NoTruncateTo(s.toInit)
  {
    TieIsCrossed(s, ph, i, j);
    forall k | 0 <= k < |s.toInit|
      ensures !s.toInit[k].Truncate?
    {
      if IsControl(s.toInit[k]) { ControlMember(s.toInit, k); }
    }
  }

  function TieOf(s: System, i: nat, j: nat): Tie
    requires Tied(s, i, j) && s.init.session.window.entries != []
  {
    var w := s.init.session.window;
    Tie(Succ32(w.mostRecent), w.entries[0].secret, s.toResp[j].alice, s.toInit[i].path)
  }

  lemma TieSetsOut(s: System, ph: Phase, i: nat, j: nat)
    requires Inv(s, ph) && Tied(s, i, j)
    ensures s.init.session.window.entries != [] && OnCourse(s, Going(Crossed), TieOf(s, i, j))
    ensures var wi, wr := s.init.session.window, s.resp.session.window;
            wr.entries != [] && wi.mostRecent == wr.mostRecent && wi.entries[0].secret == wr.entries[0].secret
  {
    TieIsCrossed(s, ph, i, j);
    assert InCrossed(Core(s));
  }

  /** With nothing left in flight the tie has settled; only a stray has cost the initiator its usable ratchet. */
  lemma CourseEnds(s: System, co: Course, t: Tie)
    requires OnCourse(s, co, t) && s.toInit == [] && s.toResp == []
    ensures Newly(s.init.session.window, t) && Newly(s.resp.session.window, t)
    ensures Healthy(s) <==> t.path.Message?
  {
    match co
    case Going(ph) =>
      assert ph == Idle;
      LateNewly(Core(s), ph, t);
      InvHealthy(s, ph);
    case Strayed(k, ph) =>
    case Over =>
  }

  lemma {:induction false} SoundTieOutcome(s: System, ph: Phase, i: nat, j: nat, drain: seq<Action>)
    requires Inv(s, ph) && Tied(s, i, j) && OnlyDeliveries(drain)
    requires Run(s, drain).toInit == [] && Run(s, drain).toResp == []
    ensures EachGainsOne(s, Run(s, drain), s.toResp[j].alice)
    ensures Healthy(Run(s, drain)) <==> s.toInit[i].path.Message?
  {
    TieSetsOut(s, ph, i, j);
    var t := TieOf(s, i, j);
    var co := CourseRun(s, Going(Crossed), t, drain);
    CourseEnds(Run(s, drain), co, t);
  }

  lemma {:induction false} StrayInControl(s: System, k: nat)
    requires k < |s.toInit| && IsControl(s.toInit[k]) && Control(s.toInit[..k]) == []
    ensures Control(s.toInit) == [s.toInit[k]] + Control(Without(s, k).toInit)
  {
    var a, b := s.toInit[..k], s.toInit[k + 1..];
    assert s.toInit == a + [s.toInit[k]] + b;
    ControlConcat(a, b);
    ControlConcat(a + [s.toInit[k]], b);
    ControlAppend(a, s.toInit[k]);
  }

  lemma CrossedRift(c: System, stray: Packet, d: Rift)
    requires Windows(c) && InCrossed(c) && stray.Truncate? && stray.truncate.None? && c.init.session.window.Has(stray.version)
    requires d == Rift(c.init.session.window.mostRecent, c.toResp[0], c.toInit[0])
    ensures Rifting(c.(toInit := [stray] + c.toInit), 0, d) && d.q.path in c.init.pending
  {
    var c' := c.(toInit := [stray] + c.toInit);
    assert c'.toInit[2..] == [] && c'.toResp[1..] == [];
  }

  /** With a stray ahead the initiator gains two versions. */
  lemma {:induction false} RiftSetsOut(s: System, k: nat, ph: Phase, i: nat, j: nat) returns (d: Rift)
    requires Tainted(s, k, ph) && Tied(s, i, j)
    ensures Rifting(Core(s), 0, d) && Apart(s, d.q.path) && d.u == s.init.session.window.mostRecent
  {
    var u := Without(s, k);
    TieIsCrossed(u, ph, if i > k then i - 1 else i, j);
    var c := Core(u);
    d := Rift(c.init.session.window.mostRecent, c.toResp[0], c.toInit[0]);
    StrayReach(s, k, ph);
    CrossedRift(c, s.toInit[k], d);
    StrayInControl(s, k);
    assert Core(s) == c.(toInit := [s.toInit[k]] + c.toInit);
    ApartFromPending(s, k, ph, d.q.path);
  }

  lemma ApartInPlace(u: System, path: Path)
    requires Sane(u) && path in u.init.pending
    ensures Apart(u, path)
  {
    assert Tickets(u.toResp, u.toInit, u.init) && Tickets(u.toInit, u.toResp, u.resp);
  }

  lemma ApartFromPending(s: System, k: nat, ph: Phase, path: Path)
    requires Tainted(s, k, ph) && path in s.init.pending
    ensures Apart(s, path)
  {
    ApartInPlace(Without(s, k), path);
    ApartWithStray(s, k, path);
  }

  lemma ApartWithStray(s: System, k: nat, path: Path)
    requires k < |s.toInit| && s.toInit[k].Truncate? && Apart(Without(s, k), path)
    ensures Apart(s, path)
  {
    var u := Without(s, k);
    forall i | 0 <= i < |s.toInit| && i != k
      ensures s.toInit[i] == u.toInit[if i > k then i - 1 else i]
    {
    }
  }

  lemma RiftEnds(s: System, n: nat, d: Rift)
    requires Rifting(Core(s), n, d) && s.toInit == [] && s.toResp == []
    ensures s.init.session.window.mostRecent == Succ32(Succ32(d.u))
  {
  }

  lemma {:induction false} StrayTieOutcome(s: System, k: nat, ph: Phase, i: nat, j: nat, drain: seq<Action>)
    requires Tainted(s, k, ph) && Tied(s, i, j) && OnlyDeliveries(drain)
    requires Run(s, drain).toInit == [] && Run(s, drain).toResp == []
    ensures !EachGainsOne(s, Run(s, drain), s.toResp[j].alice)
  {
    var d := RiftSetsOut(s, k, ph, i, j);
    var n := RiftRun(s, 0, d, drain);
    var s' := Run(s, drain);
    RiftEnds(s', n, d);
    assert s'.End(Initiator).session.window.mostRecent != Succ32(s.End(Initiator).session.window.mostRecent);
  }

  /**
   Both ends have proposed and neither proposal has arrived, in any run without a stray so far. Once
   everything in flight has been delivered, in any order, each end has gained exactly one version, built
   from the initiator's proposal and not from the responder's, if and only if no TRUNCATE was on its way
   to the initiator. Then both ends have a usable ratchet if and only if the responder's proposal rode on
   a message.
   */
  lemma {:induction false} TieCommitsInitiatorsProposal(initCid: u64, respCid: u64, acts: seq<Action>, drain: seq<Action>, i: nat, j: nat)
    requires StrayFree(NewSystem(initCid, respCid), acts)
    requires var s := Run(NewSystem(initCid, respCid), acts);
             && Tied(s, i, j) && OnlyDeliveries(drain)
             && Run(s, drain).toInit == [] && Run(s, drain).toResp == []
    ensures var s := Run(NewSystem(initCid, respCid), acts);
            && (EachGainsOne(s, Run(s, drain), s.toResp[j].alice) <==> NoTruncateTo(s.toInit))
            && (NoTruncateTo(s.toInit) ==> (Healthy(Run(s, drain)) <==> s.toInit[i].path.Message?))
  {
    var s := Run(NewSystem(initCid, respCid), acts);
    var st := RunStatus(initCid, respCid, acts);
    match st
    case Sound(ph) =>
      SoundTieHasNoTruncate(s, ph, i, j);
      SoundTieOutcome(s, ph, i, j, drain);
    case Threatened(k, ph) =>
      StrayTieOutcome(s, k, ph, i, j, drain);
      assert s.toInit[k].Truncate?;
  }

  // ---- There are such ties ----

  lemma {:induction false} FreeStep(s: System, before: seq<Action>, a: Action)
    requires StrayFree(s, before) && !Stray(Run(s, before), a)
    ensures StrayFree(s, before + [a])
  {
    assert (before + [a])[..|before|] == before;
  }

  lemma {:induction false} FreeSteps(s: System, before: seq<Action>, a: Action, b: Action, c: Action)
    requires StrayFree(s, before) && !Stray(Run(s, before), a)
    requires !Stray(Step(Run(s, before), a).0, b) && !Stray(Step(Step(Run(s, before), a).0, b).0, c)
    ensures StrayFree(s, before + [a] + [b] + [c])
  {
    RunStep(s, before, a);
    RunStep(s, before + [a], b);
    FreeStep(s, before, a);
    FreeStep(s, before + [a], b);
    FreeStep(s, before + [a] + [b], c);
  }

  /** The run up to `Answered`, with what is at the head of the streams on the way. */
  lemma {:induction false} SixFreeSteps(i: u64, r: u64) returns (acts: seq<Action>)
    ensures StrayFree(NewSystem(i, r), acts) && Run(NewSystem(i, r), acts) == Answered(i, r)
  {
    var s0 := NewSystem(i, r);
    var a3 := [] + [Send(Initiator, 1)] + [Propose(Responder, 2)] + [Deliver(Initiator, 0)];
    acts := a3 + [Deliver(Responder, 3)] + [Deliver(Responder, 0)] + [Deliver(Initiator, 0)];
    CrossingHeads(i, r);
    FreeSteps(s0, [], Send(Initiator, 1), Propose(Responder, 2), Deliver(Initiator, 0));
    ThreeSteps(s0, [], Send(Initiator, 1), Propose(Responder, 2), Deliver(Initiator, 0));
    ToRefused(i, r);
    RefusedHeads(i, r);
    FreeSteps(s0, a3, Deliver(Responder, 3), Deliver(Responder, 0), Deliver(Initiator, 0));
    ThreeSteps(s0, a3, Deliver(Responder, 3), Deliver(Responder, 0), Deliver(Initiator, 0));
    ToAnswered(i, r);
  }

  lemma CrossingHeads(i: u64, r: u64)
    ensures var s2 := Step(Step(NewSystem(i, r), Send(Initiator, 1)).0, Propose(Responder, 2)).0;
            s2.toInit == [Proposal(0, Rekey, 2)]
  {
  }

  lemma RefusedHeads(i: u64, r: u64)
    ensures var s4 := Step(Refused(i, r), Deliver(Responder, 3)).0;
            var s5 := Step(s4, Deliver(Responder, 0)).0;
            s4.toResp == [Reply(0, Rekey, Omitted)] && |s5.toInit| == 2 && s5.toInit[0].Reply?
  {
    var s4 := Step(Refused(i, r), Deliver(Responder, 3)).0;
    assert s4.resp == Ending(r, false, [K1(), Root], Some(false), 0, 0, map[Rekey := Constructor(Root, 2, None)], 0);
  }

  /** Nine steps without a stray to a tie that has a TRUNCATE ahead of it. */
  lemma {:induction false} TieBehindStray(i: u64, r: u64) returns (acts: seq<Action>)
    ensures StrayFree(NewSystem(i, r), acts)
    ensures var s := Run(NewSystem(i, r), acts); Tied(s, 1, 0) && !NoTruncateTo(s.toInit)
  {
    var s0 := NewSystem(i, r);
    var a6 := SixFreeSteps(i, r);
    acts := a6 + [Deliver(Responder, 0)] + [Send(Initiator, 4)] + [Propose(Responder, 5)];
    AnsweredThenTied(i, r);
    TiedAfter(s0, a6, Answered(i, r));
  }

  ghost predicate TieNext(s: System)
  {
    var s' := Step(Step(Step(s, Deliver(Responder, 0)).0, Send(Initiator, 4)).0, Propose(Responder, 5)).0;
    !Stray(s, Deliver(Responder, 0)) && Tied(s', 1, 0) && !NoTruncateTo(s'.toInit)
  }

  lemma {:induction false} TiedAfter(s: System, before: seq<Action>, mid: System)
    requires StrayFree(s, before) && Run(s, before) == mid && TieNext(mid)
    ensures var acts := before + [Deliver(Responder, 0)] + [Send(Initiator, 4)] + [Propose(Responder, 5)];
            var s' := Run(s, acts);
            StrayFree(s, acts) && Tied(s', 1, 0) && !NoTruncateTo(s'.toInit)
  {
    FreeSteps(s, before, Deliver(Responder, 0), Send(Initiator, 4), Propose(Responder, 5));
    ThreeSteps(s, before, Deliver(Responder, 0), Send(Initiator, 4), Propose(Responder, 5));
  }

  lemma AnsweredThenTied(i: u64, r: u64)
    ensures TieNext(Answered(i, r))
  {
    AnsweredThenCross(i, r);
    assert [Truncate(0, None), Proposal(1, Rekey, 5)][0].Truncate?;
  }

  lemma AnsweredThenCross(i: u64, r: u64)
    ensures var s8 := Step(Step(Answered(i, r), Deliver(Responder, 0)).0, Send(Initiator, 4)).0;
            var s := Step(s8, Propose(Responder, 5)).0;
            s.toInit == [Truncate(0, None), Proposal(1, Rekey, 5)] && s.toResp == [Proposal(1, Message(1), 4)]
  {
    var s7 := Step(Answered(i, r), Deliver(Responder, 0)).0;
    assert s7 == Answered(i, r).(toResp := [], resp := Ending(r, false, [K1(), Root], None, 1, 0, map[], 0));
  }
}
