/**
 The sliding window of ratchet versions (citadel_crypt/src/toolset.rs): a deque whose front is the
 newest ratchet, addressed by wrapping u32 subtraction from the most recent version.
 */
module Toolsets {
  import opened Words
  import opened Ratchets

  /** Release-build capacity; a debug build uses 6. The proofs use only that it is at least 5. */
  const MAX_HYPER_RATCHETS_IN_MEMORY: nat := 128

  datatype UpdateStatus =
    | Committed(newVersion: u32)
    | CommittedNeedsSynchronization(newVersion: u32, oldVersion: u32)

  datatype Window = Window(cid: u64, mostRecent: u32, oldest: u32, entries: seq<Ratchet>)
  {
    /** The entry `k` places behind the front carries the version `k` below the most recent one. */
    ghost predicate Valid()
    {
      && 1 <= |entries| <= TWO32
      && Sub32(mostRecent, oldest) == |entries| - 1
      && (forall k :: 0 <= k < |entries| ==> entries[k].version == Sub32(mostRecent, k))
      && (forall k :: 0 <= k < |entries| ==> entries[k].cid == cid)
    }

    predicate Has(version: u32)
    {
      Sub32(mostRecent, version) < |entries|
    }

    /** get_adjusted_index followed by VecDeque::get */
    function Get(version: u32): Option<Ratchet>
    {
      var idx := Sub32(mostRecent, version);
      if idx < |entries| then Some(entries[idx]) else None
    }

    /** The status append_hyper_ratchet reports once the new entry has been pushed. */
    function AppendStatus(newVersion: u32): UpdateStatus
    {
      if |entries| + 1 > MAX_HYPER_RATCHETS_IN_MEMORY
      then CommittedNeedsSynchronization(newVersion, oldest)
      else Committed(newVersion)
    }

    function Updated(r: Ratchet): Option<(Window, UpdateStatus)>
    {
      if r.cid != cid then None
      else if mostRecent != Sub32(r.version, 1) then None
      else Some((this.(entries := [r] + entries, mostRecent := r.version), AppendStatus(r.version)))
    }

    function Deregistered(version: u32): Option<Window>
    {
      if |entries| <= MAX_HYPER_RATCHETS_IN_MEMORY then None
      else if oldest != version then None
      else Some(this.(entries := entries[..|entries| - 1], oldest := Succ32(oldest)))
    }
  }

  /** What the window stands for: a finite map from versions to ratchets. */
  ghost function Contents(w: Window): map<int, Ratchet>
  {
    map v: int | 0 <= v < TWO32 && Sub32(w.mostRecent, v) < |w.entries| :: w.entries[Sub32(w.mostRecent, v)]
  }

  lemma SuccShift(a: u32, v: u32)
    requires v != Succ32(a)
    ensures Sub32(Succ32(a), v) == Sub32(a, v) + 1
  {
  }

  lemma UpdatedValid(w: Window, r: Ratchet)
    requires w.Valid() && |w.entries| < TWO32
    requires w.Updated(r).Some?
    ensures w.Updated(r).value.0.Valid()
    ensures r.version == Succ32(w.mostRecent) && !w.Has(r.version)
  {
    var w' := w.Updated(r).value.0;
    forall k | 0 < k < |w'.entries|
      ensures w'.entries[k].version == Sub32(w'.mostRecent, k) && w'.entries[k].cid == w'.cid
    {
      assert w'.entries[k] == w.entries[k - 1];
    }
  }

  /** A ratchet is taken exactly if it is the owner's and the next version, and then that version is new. */
  lemma UpdatedContents(w: Window, r: Ratchet)
    requires w.Valid() && |w.entries| < TWO32
    ensures w.Updated(r).Some? <==> r.cid == w.cid && r.version == Succ32(w.mostRecent)
    ensures w.Updated(r).Some? ==>
              var w' := w.Updated(r).value.0;
              w'.Valid() && r.version !in Contents(w) && Contents(w') == Contents(w)[r.version := r]
  {
    if w.Updated(r).Some? { NextContents(w, r); }
  }

  lemma NextContents(w: Window, r: Ratchet)
    requires w.Valid() && |w.entries| < TWO32 && w.Updated(r).Some?
    ensures var w' := w.Updated(r).value.0;
            w'.Valid() && r.version !in Contents(w) && Contents(w') == Contents(w)[r.version := r]
  {
    UpdatedValid(w, r);
    var w' := w.Updated(r).value.0;
    var c, c' := Contents(w), Contents(w');
    forall v: u32 | v != r.version
      ensures v in c' <==> v in c
      ensures v in c ==> c'[v] == c[v]
    {
      SuccShift(w.mostRecent, v);
    }
    assert c' == c[r.version := r];
  }

  /** Only the oldest version goes, and only above the capacity. */
  lemma DeregisteredContents(w: Window, version: u32)
    requires w.Valid()
    ensures w.Deregistered(version).Some? <==> version == w.oldest && |w.entries| > MAX_HYPER_RATCHETS_IN_MEMORY
    ensures w.Deregistered(version).Some? ==>
              var w' := w.Deregistered(version).value;
              w'.Valid() && version in Contents(w) && Contents(w') == Contents(w) - {version}
  {
    if w.Deregistered(version).Some? { RestContents(w, version); }
  }

  lemma RestContents(w: Window, version: u32)
    requires w.Valid() && w.Deregistered(version).Some?
    ensures var w' := w.Deregistered(version).value;
            w'.Valid() && version in Contents(w) && Contents(w') == Contents(w) - {version}
  {
    var w' := w.Deregistered(version).value;
    var c, c' := Contents(w), Contents(w');
    forall v: u32 | v != version
      ensures v in c' <==> v in c
      ensures v in c ==> c'[v] == c[v]
    {
    }
    assert c' == c - {version};
  }

  // ---- The reference store: versions in, versions out, no deque and no index arithmetic ----

  datatype Store = Store(cid: u64, contents: map<int, Ratchet>, newest: u32, oldest: u32)

  datatype Op = Update(ratchet: Ratchet) | Deregister(version: u32)

  ghost function StoreStep(s: Store, op: Op): Store
  {
    match op
    case Update(r) =>
      if r.cid == s.cid && r.version == Succ32(s.newest)
      then s.(contents := s.contents[r.version := r], newest := r.version) else s
    case Deregister(v) =>
      if v == s.oldest && |s.contents| > MAX_HYPER_RATCHETS_IN_MEMORY
      then s.(contents := s.contents - {v}, oldest := Succ32(v)) else s
  }

  ghost function StoreRun(s: Store, ops: seq<Op>): Store
    decreases |ops|
  {
    if ops == [] then s else StoreRun(StoreStep(s, ops[0]), ops[1..])
  }

  function WindowStep(w: Window, op: Op): Window
  {
    match op
    case Update(r) => if w.Updated(r).Some? then w.Updated(r).value.0 else w
    case Deregister(v) => if w.Deregistered(v).Some? then w.Deregistered(v).value else w
  }

  function WindowRun(w: Window, ops: seq<Op>): Window
    decreases |ops|
  {
    if ops == [] then w else WindowRun(WindowStep(w, ops[0]), ops[1..])
  }

  /** A u32 index reaches at most 2^32 entries, so no operation starts with that many resident. */
  ghost predicate RunFits(w: Window, ops: seq<Op>)
    decreases |ops|
  {
    ops == [] || (|w.entries| < TWO32 && RunFits(WindowStep(w, ops[0]), ops[1..]))
  }

  ghost function StoreOf(w: Window): Store
  {
    Store(w.cid, Contents(w), w.mostRecent, w.oldest)
  }

  lemma UpdateRefinesStore(w: Window, r: Ratchet)
    requires w.Valid() && |w.entries| < TWO32 && |Contents(w)| == |w.entries|
    ensures var w' := WindowStep(w, Update(r));
            && w'.Valid() && |Contents(w')| == |w'.entries|
            && StoreOf(w') == StoreStep(StoreOf(w), Update(r))
  {
    assert w.mostRecent == Sub32(r.version, 1) <==> r.version == Succ32(w.mostRecent);
    if w.Updated(r).Some? { UpdatedContents(w, r); }
  }

  lemma DeregisterRefinesStore(w: Window, v: u32)
    requires w.Valid() && |Contents(w)| == |w.entries|
    ensures var w' := WindowStep(w, Deregister(v));
            && w'.Valid() && |Contents(w')| == |w'.entries|
            && StoreOf(w') == StoreStep(StoreOf(w), Deregister(v))
  {
    if w.Deregistered(v).Some? {
      DeregisteredContents(w, v);
      RemovedSize(Contents(w), v);
    }
  }

  lemma RemovedSize(m: map<int, Ratchet>, k: int)
    requires k in m
    ensures |m - {k}| == |m| - 1
  {
    assert (m - {k}).Keys == m.Keys - {k};
  }

  lemma WindowBounds(w: Window, v: u32)
    requires w.Valid()
    ensures w.Get(v).Some? <==> v in Contents(w)
    ensures v in Contents(w) ==> w.Get(v) == Some(Contents(w)[v]) && Contents(w)[v].version == v
    ensures v in Contents(w) <==> Sub32(w.mostRecent, v) <= Sub32(w.mostRecent, w.oldest)
  {
  }

  /**
   Every run of updates and deregistrations behaves as the reference store does, through any number
   of u32 wrap-arounds, and a lookup finds version v exactly when v lies between oldest and newest.
   */
  lemma {:induction false} RunRefinesStore(w: Window, ops: seq<Op>, v: u32)
    decreases |ops|
    requires w.Valid() && |Contents(w)| == |w.entries| && RunFits(w, ops)
    ensures var w' := WindowRun(w, ops);
            var s' := StoreRun(StoreOf(w), ops);
            && w'.Valid()
            && s' == StoreOf(w')
            && w'.Get(v) == (if v in s'.contents then Some(s'.contents[v]) else None)
            && (v in s'.contents <==> Sub32(s'.newest, v) <= Sub32(s'.newest, s'.oldest))
            && (v in s'.contents ==> s'.contents[v].version == v)
  {
    if ops == [] {
      WindowBounds(w, v);
    } else {
      match ops[0] {
        case Update(r) => UpdateRefinesStore(w, r);
        case Deregister(v) => DeregisterRefinesStore(w, v);
      }
      RunRefinesStore(WindowStep(w, ops[0]), ops[1..], v);
    }
  }

  function Initial(cid: u64, r: Ratchet): Window
  {
    Window(cid, r.version, r.version, [r])
  }

  lemma InitialContents(cid: u64, r: Ratchet)
    requires r.cid == cid
    ensures var w := Initial(cid, r); w.Valid() && Contents(w) == map[r.version := r] && |Contents(w)| == 1
  {
    assert Contents(Initial(cid, r)) == map[r.version := r];
  }

  class Toolset {
    const cid: u64
    var mostRecent: u32
    var oldest: u32
    /** front of the deque first */
    var entries: seq<Ratchet>
    const staticAuxiliary: Ratchet

    function View(): Window
      reads this
    {
      Window(cid, mostRecent, oldest, entries)
    }

    /** Toolset::new; the ratchet passed in must be version 0 */
    constructor (cid: u64, ratchet: Ratchet)
      requires ratchet.version == 0 && ratchet.cid == cid
      ensures View() == Initial(cid, ratchet) && View().Valid()
      ensures this.cid == cid && staticAuxiliary == ratchet
    {
      this.cid := cid;
      mostRecent := 0;
      oldest := 0;
      entries := [ratchet];
      staticAuxiliary := ratchet;
    }

    /** From<(StaticAuxRatchet, StackedRatchet)>: the window starts at the second ratchet's version */
    constructor FromRatchets(aux: Ratchet, ratchet: Ratchet)
      requires aux.cid == ratchet.cid
      ensures View() == Initial(aux.cid, ratchet) && View().Valid()
      ensures staticAuxiliary == aux
    {
      cid := aux.cid;
      mostRecent := ratchet.version;
      oldest := ratchet.version;
      entries := [ratchet];
      staticAuxiliary := aux;
    }

    method AppendHyperRatchet(ratchet: Ratchet) returns (status: UpdateStatus)
      modifies this`entries
      ensures entries == [ratchet] + old(entries)
      ensures status == old(View()).AppendStatus(ratchet.version)
    {
      var newVersion := ratchet.version;
      entries := [ratchet] + entries;
      if |entries| > MAX_HYPER_RATCHETS_IN_MEMORY {
        status := CommittedNeedsSynchronization(newVersion, oldest);
      } else {
        status := Committed(newVersion);
      }
    }

    method UpdateFrom(ratchet: Ratchet) returns (res: Option<UpdateStatus>)
      requires View().Valid() && |entries| < TWO32
      modifies this`entries, this`mostRecent
      ensures View().Valid()
      ensures old(View()).Updated(ratchet) == (if res.Some? then Some((View(), res.value)) else None)
      ensures res.None? ==> View() == old(View())
      ensures res.Some? ==> Contents(View()) == old(Contents(View()))[ratchet.version := ratchet]
    {
      if ratchet.cid != cid {
        return None;
      }
      if mostRecent != Sub32(ratchet.version, 1) {
        return None;
      }
      UpdatedContents(View(), ratchet);
      var status := AppendHyperRatchet(ratchet);
      mostRecent := status.newVersion;
      res := Some(status);
    }

    method DeregisterOldest(version: u32) returns (ok: bool)
      requires View().Valid()
      modifies this`entries, this`oldest
      ensures View().Valid()
      ensures old(View()).Deregistered(version) == (if ok then Some(View()) else None)
      ensures !ok ==> View() == old(View())
      ensures ok ==> Contents(View()) == old(Contents(View())) - {version}
    {
      if |entries| <= MAX_HYPER_RATCHETS_IN_MEMORY {
        return false;
      }
      if oldest != version {
        return false;
      }
      DeregisteredContents(View(), version);
      entries := entries[..|entries| - 1];
      oldest := Succ32(oldest);
      ok := true;
    }

    method GetHyperRatchet(version: u32) returns (res: Option<Ratchet>)
      requires View().Valid()
      ensures res == View().Get(version)
      ensures res.Some? <==> Sub32(mostRecent, version) <= Sub32(mostRecent, oldest)
      ensures res.Some? ==> res.value.version == version
    {
      var idx := Sub32(mostRecent, version);
      if idx < |entries| {
        res := Some(entries[idx]);
      } else {
        res := None;
      }
    }
  }
}
