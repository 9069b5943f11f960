/** What a packet does to whoever gets it, and what sending does to the sender, in any state at all. */
module RekeyProcessors {
  import opened Words
  import opened Ratchets
  import opened Toolsets
  import opened SessionCrypto
  import opened RekeyModel

  // ---- Which packets are acted on ----

  lemma FinishKnowsVersion(s: Session, status: KemTransferStatus, c: Option<Constructor>)
    ensures VersionMissing !in AliceFinish(s, status, c).faults
  {
  }

  /** A packet whose version is not held is dropped without trace, and only such a packet. */
  lemma UnknownVersionDropped(e: Endpoint, p: Packet, seed: nat)
    ensures VersionMissing in Receive(e, p, seed).faults <==> !e.session.window.Has(p.version)
    ensures !e.session.window.Has(p.version) ==> Receive(e, p, seed).end == e && Receive(e, p, seed).sent == []
  {
    if p.Reply? {
      FinishKnowsVersion(e.session, p.status, if p.path in e.pending then Some(e.pending[p.path]) else None);
    }
  }

  /** The answer to an update this end has no constructor for. */
  predicate Orphan(e: Endpoint, p: Packet)
  {
    p.Reply? && p.path !in e.pending && (p.path == Rekey || p.status.Transfer?)
  }

  lemma OrphanReported(e: Endpoint, p: Packet, seed: nat)
    requires e.session.window.Has(p.version)
    ensures ConstructorMissing in Receive(e, p, seed).faults <==> Orphan(e, p)
    ensures Orphan(e, p) ==> Receive(e, p, seed).end.session == e.session
  {
  }

  /** Building on the window's own owner and version, a commit does not fail; only a status without transfer counts as one. */
  lemma CommitsSucceed(s: Session, c: Constructor, localIsAlice: bool)
    requires c.bob.Some?
    ensures s.UpdatedSyncSafe(c, localIsAlice, s.window.cid).Some?
  {
  }

  lemma CommitReported(e: Endpoint, p: Packet, seed: nat)
    requires e.session.window.Has(p.version)
    ensures CommitFailed in Receive(e, p, seed).faults
            <==> p.Reply? && p.status.StatusNoTransfer? && (p.path == Rekey ==> Rekey in e.pending)
  {
    if p.Proposal? {
      var hr := e.session.window.Get(p.version).value;
      CommitsSucceed(e.session, Constructor(hr.secret, p.alice, Some(seed)), false);
    }
    if p.Reply? && p.status.Transfer? && p.path in e.pending {
      CommitsSucceed(e.session, e.pending[p.path].(bob := Some(p.status.bob)), true);
    }
  }

  // ---- Answers ----

  /** Taking an answer drops the constructor it is for, whatever comes of it, and keeps all others. */
  lemma AnswerDropsItsConstructor(e: Endpoint, p: Packet, seed: nat)
    requires p.Reply? && e.session.window.Has(p.version)
    ensures Receive(e, p, seed).end.pending == e.pending - {p.path}
    ensures Receive(e, p, seed).end.messages == e.messages
  {
    if p.path !in e.pending { assert e.pending - {p.path} == e.pending; }
  }

  /** Told that its proposal was omitted, an end gives up the lock it took as Alice, and no other. */
  lemma OmissionReleasesAlice(e: Endpoint, p: Packet, seed: nat)
    requires p.Reply? && p.status.Omitted? && p.path in e.pending && e.session.window.Has(p.version)
    ensures var o, s := Receive(e, p, seed), e.session;
            var s' := o.end.session;
            && s'.window == s.window && s'.latestUsable == s.latestUsable
            && (if s.lockSetByAlice == Some(true) then s'.updateInProgress != s.updateInProgress && s'.lockSetByAlice == None
                else s' == s)
            && o.sent == (if p.path == Rekey && s.Usable().Some? then [Truncate(s.Usable().value.version, None)] else [])
            && (UsableMissing in o.faults <==> s.Usable().None?)
            && (UnlockOfClearFlag in o.faults <==> s.lockSetByAlice == Some(true) && !s.updateInProgress)
  {
  }

  /** An answer that asks for a deregistration the window refuses: committed all the same, but neither advanced nor unlocked. */
  lemma RefusedDeregistration(e: Endpoint, p: Packet, seed: nat)
    requires p.Reply? && p.status.Transfer? && p.path in e.pending && e.session.window.Has(p.version)
    requires p.status.RequiresTruncation().Some?
    requires |e.session.window.entries| + 1 <= MAX_HYPER_RATCHETS_IN_MEMORY
             || p.status.RequiresTruncation().value != e.session.window.oldest
    ensures var o, s := Receive(e, p, seed), e.session;
            var s' := o.end.session;
            && s'.window.mostRecent == Succ32(s.window.mostRecent) && |s'.window.entries| == |s.window.entries| + 1
            && s'.latestUsable == s.latestUsable
            && s'.updateInProgress == s.updateInProgress && s'.lockSetByAlice == s.lockSetByAlice
            && o.faults == {DeregisterFailed}
            && o.sent == (if p.path == Rekey then [] else [Truncate(p.version, p.status.RequiresTruncation())])
  {
    CommitsSucceed(e.session, e.pending[p.path].(bob := Some(p.status.bob)), true);
  }

  /** A transfer that asks for no deregistration: one version more, made from the constructor, then advanced and unlocked. */
  lemma TransferCommits(e: Endpoint, p: Packet, seed: nat)
    requires p.Reply? && p.status.Transfer? && p.path in e.pending && e.session.window.Has(p.version)
    requires p.status.RequiresTruncation().None?
    ensures var o, s, c := Receive(e, p, seed), e.session, e.pending[p.path];
            var s' := o.end.session;
            && s'.window.mostRecent == Succ32(s.window.mostRecent) && s'.window.oldest == s.window.oldest
            && s'.window.entries == [Ratchet(Succ32(s.window.mostRecent), s.window.cid, Next(c.base, c.alice, p.status.bob))]
                                    + s.window.entries
            && s'.latestUsable == Succ32(s.latestUsable)
            && (if s.lockSetByAlice == Some(true) then s'.updateInProgress != s.updateInProgress && s'.lockSetByAlice == None
                else s'.updateInProgress == s.updateInProgress && s'.lockSetByAlice == s.lockSetByAlice)
            && (UsableMissing in o.faults <==> s'.Usable().None?)
            && (p.path != Rekey ==> o.sent == [Truncate(p.version, None)])
            && (p.path == Rekey ==> o.sent == if s'.Usable().Some? then [Truncate(s'.Usable().value.version, None)] else [])
  {
    CommitsSucceed(e.session, e.pending[p.path].(bob := Some(p.status.bob)), true);
  }

  /** A status without transfer is no answer: nothing is committed, unlocked or sent back. */
  lemma BareStatusIgnored(e: Endpoint, p: Packet, seed: nat)
    requires p.Reply? && p.status.StatusNoTransfer? && e.session.window.Has(p.version)
    ensures Receive(e, p, seed).end.session == e.session && Receive(e, p, seed).sent == []
  {
  }

  /** An acknowledgement without transfer leaves the session as it is, and on a message's path sends nothing. */
  lemma EmptyAnswer(e: Endpoint, p: Packet, seed: nat)
    requires p.Reply? && p.status.Empty? && e.session.window.Has(p.version) && (p.path == Rekey ==> Rekey in e.pending)
    ensures var o := Receive(e, p, seed);
            && o.end.session == e.session && o.faults == {}
            && o.sent == (if p.path == Rekey then [Truncate(p.version, None)] else [])
  {
  }

  // ---- The end of an update ----

  /** A TRUNCATE moves the usable version on and flips the flag in any case; the window only if it gives the oldest up. */
  lemma TruncateAlwaysAdvances(e: Endpoint, p: Packet, seed: nat)
    requires p.Truncate? && e.session.window.Has(p.version)
    ensures var o, s := Receive(e, p, seed), e.session;
            var s', refused := o.end.session, p.truncate.Some? && s.window.Deregistered(p.truncate.value).None?;
            && s'.latestUsable == Succ32(s.latestUsable)
            && s'.updateInProgress != s.updateInProgress && s'.lockSetByAlice == None
            && (p.truncate.None? || refused ==> s'.window == s.window)
            && (p.truncate.Some? && !refused ==> Some(s'.window) == s.window.Deregistered(p.truncate.value))
            && o.end.pending == e.pending
            && (DeregisterFailed in o.faults <==> refused)
            && (UnlockOfClearFlag in o.faults <==> !s.updateInProgress)
            && (UsableMissing in o.faults <==> s'.Usable().None?)
            && o.sent == (if s'.Usable().Some? && p.truncate.Some? then [TruncateAck(p.version, p.truncate.value)] else [])
  {
  }

  /** An acknowledgement of a TRUNCATE releases the lock taken as Alice, and does nothing else. */
  lemma AckReleasesAlice(e: Endpoint, p: Packet, seed: nat)
    requires p.TruncateAck? && e.session.window.Has(p.version)
    ensures var o, s := Receive(e, p, seed), e.session;
            var s' := o.end.session;
            && s'.window == s.window && s'.latestUsable == s.latestUsable && o.end.pending == e.pending && o.sent == []
            && (if s.lockSetByAlice == Some(true) then s'.updateInProgress != s.updateInProgress && s'.lockSetByAlice == None
                else s' == s)
            && (UnlockOfClearFlag in o.faults <==> s.lockSetByAlice == Some(true) && !s.updateInProgress)
            && (UsableMissing in o.faults <==> s.Usable().None?)
  {
  }

  // ---- Sending ----

  /** A rekey is proposed exactly when unlocked with a usable ratchet; without one the lock is taken for nothing. */
  lemma RekeyProposedExactly(e: Endpoint, seed: nat)
    ensures var o, s := StartRekey(e, seed), e.session;
            && (o.sent != [] <==> !s.updateInProgress && s.Usable().Some?)
            && (o.sent != [] ==> o.sent == [Proposal(s.latestUsable, Rekey, seed)]
                                 && Rekey in o.end.pending && o.end.pending[Rekey] == Constructor(s.Usable().value.secret, seed, None))
            && (forall path :: path in e.pending && path != Rekey ==> path in o.end.pending && o.end.pending[path] == e.pending[path])
            && (s.updateInProgress ==> o.end == e)
            && (!s.updateInProgress ==> o.end.session.updateInProgress && o.end.session.lockSetByAlice == Some(true))
            && (UsableMissing in o.faults <==> s.Usable().None?)
  {
    if e.session.updateInProgress { assert e.(session := e.session) == e; }
  }

  /** A message goes out exactly when there is a usable ratchet, and carries a proposal exactly when unlocked. */
  lemma MessageSentExactly(e: Endpoint, seed: nat)
    ensures var o, s := SendMessage(e, seed), e.session;
            && (s.Usable().None? ==> o == Outcome(e, [], {UsableMissing}))
            && (s.Usable().Some? ==>
                  && o.end.messages == e.messages + 1 && o.end.session.rollingGroupId == Succ64(s.rollingGroupId)
                  && o.sent == [if s.updateInProgress then Data(s.latestUsable, e.messages)
                                else Proposal(s.latestUsable, Message(e.messages), seed)]
                  && (forall path :: path in e.pending && path != Message(e.messages) ==>
                        path in o.end.pending && o.end.pending[path] == e.pending[path])
                  && o.faults == {})
  {
  }
}
