/** Runs that keep to the phases of the handshake, and how the two windows stand to each other in them. */
module RekeyTheorems {
  import opened Words
  import opened Toolsets
  import opened RekeyModel
  import opened RekeyInvariant
  import opened RekeyHandshake
  import opened RekeySteps

  // ---- Runs in which no omitted rekey is delivered ----

  /** No step of the run hands an endpoint a STAGE1 that says its rekey was omitted. */
  predicate Clean(s: System, acts: seq<Action>)
    decreases |acts|
  {
    acts == [] ||
    var before, a := acts[..|acts| - 1], acts[|acts| - 1];
    Clean(s, before) && !(a.Deliver? && OmittedRekeyNext(Run(s, before), a.side))
  }

  lemma StartInv(initCid: u64, respCid: u64)
    ensures Inv(NewSystem(initCid, respCid), Idle)
  {
    var s := NewSystem(initCid, respCid);
    assert InIdle(Core(s));
  }

  lemma {:induction false} CleanRun(s: System, ph: Phase, acts: seq<Action>) returns (ph': Phase)
    requires Inv(s, ph) && Clean(s, acts)
    ensures Inv(Run(s, acts), ph')
    decreases |acts|
  {
    if acts == [] {
      ph' := ph;
    } else {
      var before := acts[..|acts| - 1];
      var mid := CleanRun(s, ph, before);
      ph' := StepKeeps(Run(s, before), mid, acts[|acts| - 1]);
    }
  }

  /** The two windows line up: level, or one end a version ahead, with equal keys at equal versions. */
  ghost predicate LinedUp(a: Window, b: Window)
  {
    || (a.mostRecent == b.mostRecent && Aligned(a, b, 0))
    || (b.mostRecent == Succ32(a.mostRecent) && Aligned(a, b, 1))
    || (a.mostRecent == Succ32(b.mostRecent) && Aligned(b, a, 1))
  }

  lemma PhaseLinesUp(c: System, ph: Phase)
    requires InPhase(c, ph)
    ensures WithinBounds(c.init.session.window, c.resp.session.window)
  {
    if (ph.BothCommitted? || ph.Truncating?) && ph.x == Responder {
      AlignedFlip(c.resp.session.window, c.init.session.window);
    }
  }

  ghost predicate WithinBounds(a: Window, b: Window)
  {
    LinedUp(a, b) && |a.entries| <= MAX_HYPER_RATCHETS_IN_MEMORY + 1 && |b.entries| <= MAX_HYPER_RATCHETS_IN_MEMORY + 1
  }

  /** Keys agree on every version both ends hold. */
  lemma SharedSecrets(a: Window, b: Window, v: u32)
    requires WithinBounds(a, b) && a.Has(v) && b.Has(v)
    ensures a.Get(v).value.secret == b.Get(v).value.secret
  {
    var i, j := Sub32(a.mostRecent, v), Sub32(b.mostRecent, v);
    assert i == j || j == i + 1 || i == j + 1;
  }

  lemma PacketReach(s: System, y: Side, k: nat)
    requires Sane(s) && k < |s.Inbox(y)|
    ensures var v := s.Inbox(y)[k].version; s.init.session.window.Has(v) && s.resp.session.window.Has(v)
  {
    FlowsFrom(s, y);
    assert InReach(s.Inbox(y)[k], s.End(y.Peer()).session.window, s.End(y).session.window);
  }

  /** Version `v` is held at both ends, with the same key. */
  ghost predicate Shared(a: Window, b: Window, v: u32)
  {
    var there, here := a.Get(v), b.Get(v);
    && here.Some? && there.Some? && here.value.secret == there.value.secret
    && here.value.version == v && there.value.version == v
  }

  lemma SharedBy(a: Window, b: Window, v: u32)
    requires a.Valid() && b.Valid() && WithinBounds(a, b) && a.Has(v) && b.Has(v)
    ensures Shared(a, b, v) && Shared(b, a, v)
  {
    SharedSecrets(a, b, v);
  }

  /** Packet k to `y` names a version both ends hold, with the same key. */
  ghost predicate Decipherable(s: System, y: Side, k: nat)
    requires k < |s.Inbox(y)|
  {
    Shared(s.End(y.Peer()).session.window, s.End(y).session.window, s.Inbox(y)[k].version)
  }

  lemma DecipherableBy(s: System, y: Side, k: nat)
    requires Sane(s) && k < |s.Inbox(y)| && WithinBounds(s.init.session.window, s.resp.session.window)
    ensures Decipherable(s, y, k)
  {
    PacketReach(s, y, k);
    SharedBy(s.init.session.window, s.resp.session.window, s.Inbox(y)[k].version);
  }

  lemma PacketDecipherable(s: System, ph: Phase, y: Side, k: nat)
    requires Inv(s, ph) && k < |s.Inbox(y)|
    ensures Decipherable(s, y, k)
  {
    PhaseLinesUp(Core(s), ph);
    DecipherableBy(s, y, k);
  }
}
