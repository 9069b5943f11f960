/**
 One endpoint's session state (citadel_crypt/src/endpoint_crypto_container.rs): the version window,
 the update lock with the side that set it, the lagging usable version and the rolling identifiers.
 */
module SessionCrypto {
  import opened Words
  import opened Ratchets
  import opened Toolsets

  datatype KemTransferStatus =
    | StatusNoTransfer(status: UpdateStatus)
    | Empty
    | Omitted
    | Transfer(bob: nat, status: UpdateStatus)
  {
    function RequiresTruncation(): (oldest: Option<u32>)
      ensures oldest.Some? <==> (Transfer? || StatusNoTransfer?) && status.CommittedNeedsSynchronization?
      ensures oldest.Some? ==> oldest.value == status.oldVersion
    {
      match this
      case StatusNoTransfer(CommittedNeedsSynchronization(_, oldest)) => Some(oldest)
      case Transfer(_, CommittedNeedsSynchronization(_, oldest)) => Some(oldest)
      case _ => None
    }
  }

  datatype Session = Session(
    window: Window,
    updateInProgress: bool,
    localIsInitiator: bool,
    rollingObjectId: u32,
    rollingGroupId: u64,
    lockSetByAlice: Option<bool>,
    latestUsable: u32)
  {
    /** get_hyper_ratchet(None) */
    function Usable(): Option<Ratchet>
    {
      window.Get(latestUsable)
    }

    /** The ratchet a finished constructor yields: update_version, then finish_with_custom_cid. */
    function NextRatchet(c: Constructor, localCid: u64): Option<Ratchet>
    {
      if c.bob.None? then None
      else Some(Ratchet(Succ32(window.mostRecent), localCid, Next(c.base, c.alice, c.bob.value)))
    }

    function Committed(c: Constructor, localCid: u64): Option<(Session, UpdateStatus)>
    {
      var next := NextRatchet(c, localCid);
      if next.None? then None else
      var up := window.Updated(next.value);
      if up.None? then None else Some((this.(window := up.value.0), up.value.1))
    }

    /** update_sync_safe as the new state and the answer; None is its error return. */
    function UpdatedSyncSafe(c: Constructor, localIsAlice: bool, localCid: u64): Option<(Session, KemTransferStatus)>
    {
      if updateInProgress && !localIsAlice && localIsInitiator then Some((this, Omitted))
      else
        var res := Committed(c, localCid);
        if res.None? then None
        else if localIsAlice then Some((res.value.0, StatusNoTransfer(res.value.1)))
        else Some((res.value.0.(updateInProgress := true, lockSetByAlice := Some(false)),
                   Transfer(c.bob.value, res.value.1)))
    }

    /** Whether maybe_unlock goes on to flip the flag. */
    predicate Unlocks(requiresLockedByAlice: bool)
    {
      !requiresLockedByAlice || lockSetByAlice == Some(true)
    }

    /** maybe_unlock: fetch_nand(true) negates the flag, whatever it was. */
    function Unlocked(requiresLockedByAlice: bool): Session
    {
      if Unlocks(requiresLockedByAlice)
      then this.(updateInProgress := !updateInProgress, lockSetByAlice := None)
      else this
    }

    function Advanced(): Session
    {
      this.(latestUsable := Succ32(latestUsable))
    }

    /** get_next_constructor(false); the lock is taken even when the usable ratchet turns out missing. */
    function Proposing(alice: nat): (Session, Option<Constructor>)
    {
      if updateInProgress then (this, None)
      else
        var locked := this.(updateInProgress := true, lockSetByAlice := Some(true));
        (locked, if Usable().None? then None else Some(Constructor(Usable().value.secret, alice, None)))
    }
  }

  class PeerSessionCrypto {
    const toolset: Toolset
    var updateInProgress: bool
    const localIsInitiator: bool
    var rollingObjectId: u32
    var rollingGroupId: u64
    var lockSetByAlice: Option<bool>
    var latestUsable: u32

    function View(): Session
      reads this, toolset
    {
      Session(toolset.View(), updateInProgress, localIsInitiator, rollingObjectId, rollingGroupId,
              lockSetByAlice, latestUsable)
    }

    ghost predicate Valid()
      reads this, toolset
    {
      toolset.View().Valid()
    }

    constructor (toolset: Toolset, localIsInitiator: bool)
      requires toolset.View().Valid()
      ensures Valid() && this.toolset == toolset
      ensures View() == Session(toolset.View(), false, localIsInitiator, 1, 0, None, 0)
    {
      this.toolset := toolset;
      updateInProgress := false;
      this.localIsInitiator := localIsInitiator;
      rollingObjectId := 1;
      rollingGroupId := 0;
      lockSetByAlice := None;
      latestUsable := 0;
    }

    method GetHyperRatchet(version: Option<u32>) returns (res: Option<Ratchet>)
      requires Valid()
      ensures res == View().window.Get(if version.Some? then version.value else latestUsable)
    {
      res := toolset.GetHyperRatchet(if version.Some? then version.value else latestUsable);
    }

    method CommitNextHyperRatchetVersion(c: Constructor, localCid: u64) returns (res: Option<UpdateStatus>)
      requires Valid() && |toolset.entries| < TWO32
      modifies toolset
      ensures Valid()
      ensures old(View()).Committed(c, localCid) == (if res.Some? then Some((View(), res.value)) else None)
      ensures res.None? ==> View() == old(View())
    {
      var next := Succ32(toolset.mostRecent);
      if c.bob.None? {
        return None;
      }
      var ratchet := Ratchet(next, localCid, Next(c.base, c.alice, c.bob.value));
      res := toolset.UpdateFrom(ratchet);
    }

    method UpdateSyncSafe(c: Constructor, localIsAlice: bool, localCid: u64) returns (res: Option<KemTransferStatus>)
      requires Valid() && |toolset.entries| < TWO32
      modifies this`updateInProgress, this`lockSetByAlice, toolset
      ensures Valid()
      ensures old(View()).UpdatedSyncSafe(c, localIsAlice, localCid)
              == (if res.Some? then Some((View(), res.value)) else None)
      ensures res.None? ==> View() == old(View())
    {
      if updateInProgress && !localIsAlice {
        if localIsInitiator {
          return Some(Omitted);
        }
      }
      var status := CommitNextHyperRatchetVersion(c, localCid);
      if status.None? {
        return None;
      }
      if localIsAlice {
        res := Some(StatusNoTransfer(status.value));
      } else {
        res := Some(Transfer(c.bob.value, status.value));
        updateInProgress := true;
        lockSetByAlice := Some(false);
      }
    }

    method MaybeUnlock(requiresLockedByAlice: bool) returns (res: Option<Ratchet>)
      requires Valid()
      modifies this`updateInProgress, this`lockSetByAlice
      ensures Valid()
      ensures View() == old(View()).Unlocked(requiresLockedByAlice)
      ensures res == View().Usable()
    {
      if requiresLockedByAlice {
        if lockSetByAlice == Some(true) {
          updateInProgress := !updateInProgress;
          lockSetByAlice := None;
        }
      } else {
        updateInProgress := !updateInProgress;
        lockSetByAlice := None;
      }
      res := GetHyperRatchet(None);
    }

    method PostAliceStage1OrPostStage1Bob()
      modifies this`latestUsable
      ensures View() == old(View()).Advanced()
    {
      latestUsable := Succ32(latestUsable);
    }

    method DeregisterOldestHyperRatchet(version: u32) returns (ok: bool)
      requires Valid()
      modifies toolset
      ensures Valid()
      ensures ok == old(View()).window.Deregistered(version).Some?
      ensures View() == if ok then old(View()).(window := old(View()).window.Deregistered(version).value)
                        else old(View())
    {
      ok := toolset.DeregisterOldest(version);
    }

    method GetNextConstructor(force: bool, alice: nat) returns (res: Option<Constructor>)
      requires Valid()
      modifies this`updateInProgress, this`lockSetByAlice
      ensures Valid()
      ensures (View(), res) == if force then old(View()).(updateInProgress := false).Proposing(alice)
                               else old(View()).Proposing(alice)
    {
      if !force && updateInProgress {
        return None;
      }
      updateInProgress := true;
      lockSetByAlice := Some(true);
      var r := GetHyperRatchet(None);
      if r.None? {
        return None;
      }
      res := Some(Constructor(r.value.secret, alice, None));
    }

    method GetAndIncrementGroupId() returns (id: u64)
      modifies this`rollingGroupId
      ensures View() == old(View()).(rollingGroupId := Succ64(id)) && id == old(rollingGroupId)
    {
      rollingGroupId := Succ64(rollingGroupId);
      id := if rollingGroupId == 0 then TWO64 - 1 else rollingGroupId - 1;
    }
  }
}
