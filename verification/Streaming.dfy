/**
 Sending a file: the session reserves a run of group identifiers (citadel_proto/src/proto/session.rs)
 and a poll-driven scrambler reads the source group by group
 (citadel_crypt/src/streaming_crypt_scrambler.rs).
 */
module Streaming {
  import opened Words
  import opened SessionCrypto
  import opened Arith

  const MAX_BYTES_PER_GROUP: nat := 1024 * 1024 * 10
  const DEFAULT_BYTES_PER_GROUP: nat := 1024 * 1024 * 3

  datatype Group = Group(id: nat, bytes: seq<byte>)

  /** The groups of a source: runs of `max` bytes under consecutive identifiers, the last one shorter. */
  function Groups(source: seq<byte>, max: nat, id: nat): (gs: seq<Group>)
    requires max > 0
    decreases |source|
  {
    if source == [] then []
    else
      var n := if |source| < max then |source| else max;
      [Group(id, source[..n])] + Groups(source[n..], max, id + 1)
  }

  function Joined(gs: seq<Group>): seq<byte>
  {
    if gs == [] then [] else gs[0].bytes + Joined(gs[1..])
  }

  /** There are ceil(len / max) groups, they use consecutive identifiers and join to the source. */
  lemma {:induction false} GroupsPartitionSource(source: seq<byte>, max: nat, id: nat)
    requires max > 0
    ensures var gs := Groups(source, max, id);
            && |gs| == DivCeil(|source|, max)
            && Joined(gs) == source
            && (forall k :: 0 <= k < |gs| ==> gs[k].id == id + k && 0 < |gs[k].bytes| <= max)
            && (forall k :: 0 <= k < |gs| - 1 ==> |gs[k].bytes| == max)
    decreases |source|
  {
    if source != [] {
      var n := if |source| < max then |source| else max;
      GroupsPartitionSource(source[n..], max, id + 1);
      var gs, rest := Groups(source, max, id), Groups(source[n..], max, id + 1);
      assert gs == [Group(id, source[..n])] + rest && gs[1..] == rest;
      assert source[..n] + source[n..] == source;
    }
  }

  lemma GroupsOfRest(source: seq<byte>, max: nat, id: nat, k: nat)
    requires max > 0 && k > 0 && |source| > max && k - 1 < |Groups(source[max..], max, id + 1)|
    ensures k < |Groups(source, max, id)| && Groups(source, max, id)[k] == Groups(source[max..], max, id + 1)[k - 1]
  {
  }

  lemma {:induction false} FirstGroup(source: seq<byte>, max: nat, id: nat)
    requires max > 0 && source != []
    ensures 0 < |Groups(source, max, id)|
    ensures Groups(source, max, id)[0] == Group(id, source[0..if max < |source| then max else |source|])
  {
  }

  /** The group that begins `at` bytes into the source. */
  function GroupStarting(source: seq<byte>, max: nat, id: nat, at: nat): Group
    requires at <= |source|
  {
    Group(id, source[at..if at + max < |source| then at + max else |source|])
  }

  lemma GroupInRest(source: seq<byte>, max: nat, id: nat, at: nat)
    requires max <= at < |source|
    ensures GroupStarting(source[max..], max, id, at - max) == GroupStarting(source, max, id, at)
  {
    SliceOfRest(source, max, at - max, if at < |source| - max then at else |source| - max);
  }

  lemma {:induction false} GroupFrom(source: seq<byte>, max: nat, id: nat, k: nat, at: nat)
    requires max > 0 && at == Times(k, max) && at < |source|
    ensures k < |Groups(source, max, id)| && Groups(source, max, id)[k] == GroupStarting(source, max, id + k, at)
    decreases k
  {
    if k == 0 {
      FirstGroup(source, max, id);
    } else {
      GroupFrom(source[max..], max, id + 1, k - 1, at - max);
      GroupsOfRest(source, max, id, k);
      GroupInRest(source, max, id + k, at);
    }
  }

  /** The k-th group starts k * max bytes into the source. */
  lemma {:induction false} GroupAt(source: seq<byte>, max: nat, id: nat, k: nat)
    requires max > 0 && k * max < |source|
    ensures var gs := Groups(source, max, id);
            var start := k * max;
            var end := if start + max < |source| then start + max else |source|;
            k < |gs| && gs[k] == Group(id + k, source[start..end])
  {
    TimesIs(k, max);
    GroupFrom(source, max, id, k, k * max);
  }

  // ---- The scrambler ----

  datatype TaskState = Pending | Finished | Failed
  datatype Poll<T> = NotReady | Ready(value: T)

  class AsyncCryptScrambler {
    const source: seq<byte>
    const groupId: nat
    const maxBytesPerGroup: nat
    const totalGroups: nat
    /** bytes the reader has handed out */
    var readerPos: nat
    var readCursor: nat
    var groupsRendered: nat
    var pollAmt: nat
    var curTask: Option<Group>
    /** the groups yielded so far */
    ghost var yielded: seq<Group>

    ghost predicate Valid()
      reads this
    {
      && maxBytesPerGroup > 0 && totalGroups == DivCeil(|source|, maxBytesPerGroup)
      && readCursor <= |source|
      && (readCursor < |source| ==> readCursor == groupsRendered * maxBytesPerGroup)
      && groupsRendered <= |Groups(source, maxBytesPerGroup, groupId)|
      && (readCursor == |source| ==> groupsRendered == totalGroups)
      && yielded == Groups(source, maxBytesPerGroup, groupId)[..groupsRendered]
      && (curTask.None? ==> readerPos == readCursor)
      && (curTask.Some? ==>
            && readCursor < |source| && 0 < pollAmt && readerPos == readCursor + pollAmt <= |source|
            && pollAmt == (if |source| - readCursor < maxBytesPerGroup then |source| - readCursor else maxBytesPerGroup)
            && curTask.value == Group(groupId + groupsRendered, source[readCursor..readerPos]))
    }

    constructor (source: seq<byte>, maxGroupSize: Option<nat>, groupId: nat)
      requires maxGroupSize.Some? ==> 0 < maxGroupSize.value <= MAX_BYTES_PER_GROUP
      ensures Valid() && this.source == source && this.groupId == groupId && yielded == []
      ensures maxBytesPerGroup == if maxGroupSize.Some? then maxGroupSize.value else DEFAULT_BYTES_PER_GROUP
    {
      var max := if maxGroupSize.Some? then maxGroupSize.value else DEFAULT_BYTES_PER_GROUP;
      this.source := source;
      this.groupId := groupId;
      maxBytesPerGroup := max;
      totalGroups := DivCeil(|source|, max);
      readerPos := 0;
      readCursor := 0;
      groupsRendered := 0;
      pollAmt := 0;
      curTask := None;
      yielded := [];
      new;
      GroupsPartitionSource(source, max, groupId);
    }

    method PollTask(task: TaskState) returns (res: Poll<Option<Group>>)
      requires Valid() && curTask.Some?
      modifies this
      ensures Valid()
      ensures match task
              case Pending => res == NotReady && unchanged(this)
              case Failed => res == Ready(None) && unchanged(this)
              case Finished => res == Ready(old(curTask)) && yielded == old(yielded) + [old(curTask).value] && curTask.None?
      ensures readCursor + readerPos >= old(readCursor + readerPos)
    {
      match task
      case Pending => res := NotReady;
      case Failed => res := Ready(None);
      case Finished =>
        var group := curTask.value;
        GroupRendered(source, maxBytesPerGroup, groupId, groupsRendered, readCursor, pollAmt);
        groupsRendered := groupsRendered + 1;
        readCursor := readCursor + pollAmt;
        curTask := None;
        yielded := yielded + [group];
        res := Ready(Some(group));
    }

    /** poll_scramble_next_group; `task` is how far the spawned encryption is when polled. */
    method PollScrambleNextGroup(readOk: bool, task: TaskState) returns (res: Poll<Option<Group>>)
      requires Valid()
      modifies this
      ensures Valid()
      ensures yielded == old(yielded) + (if res.Ready? && res.value.Some? then [res.value.value] else [])
      ensures readOk && task != Failed ==> (res == Ready(None) <==> old(readCursor) == |source|)
      ensures res == Ready(None) && readOk && task != Failed ==> Joined(yielded) == source && |yielded| == totalGroups
    {
      if curTask.Some? {
        res := PollTask(task);
        return;
      }
      if readCursor != |source| {
        var remaining := |source| - readCursor;
        var pollLen := if remaining < maxBytesPerGroup then remaining else maxBytesPerGroup;
        if readOk {
          var bytes := source[readerPos..readerPos + pollLen];
          readerPos := readerPos + pollLen;
          curTask := Some(Group(groupId + groupsRendered, bytes));
          pollAmt := pollLen;
          res := PollTask(task);
        } else {
          res := Ready(None);
        }
      } else {
        GroupsPartitionSource(source, maxBytesPerGroup, groupId);
        ghost var gs := Groups(source, maxBytesPerGroup, groupId);
        assert gs[..|gs|] == gs;
        res := Ready(None);
      }
    }
  }

  /** scramble_encrypt_source: a group size over the limit is refused. */
  method ScrambleEncryptSource(source: seq<byte>, maxGroupSize: Option<nat>, groupId: nat)
    returns (r: Option<AsyncCryptScrambler>)
    requires maxGroupSize != Some(0)
    ensures r.None? <==> maxGroupSize.Some? && maxGroupSize.value > MAX_BYTES_PER_GROUP
    ensures r.Some? ==> fresh(r.value) && r.value.Valid() && r.value.source == source && r.value.groupId == groupId
                        && r.value.yielded == [] && r.value.totalGroups == DivCeil(|source|, r.value.maxBytesPerGroup)
                        && r.value.maxBytesPerGroup == if maxGroupSize.Some? then maxGroupSize.value else DEFAULT_BYTES_PER_GROUP
  {
    if maxGroupSize.Some? && maxGroupSize.value > MAX_BYTES_PER_GROUP {
      return None;
    }
    var s := new AsyncCryptScrambler(source, maxGroupSize, groupId);
    return Some(s);
  }

  /** What the group read at the cursor adds. */
  lemma {:induction false} GroupRendered(source: seq<byte>, max: nat, id: nat, k: nat, at: nat, amt: nat)
    requires max > 0 && at == k * max < |source| && amt == if |source| - at < max then |source| - at else max
    ensures var gs := Groups(source, max, id);
            && k < |gs| == DivCeil(|source|, max) && gs[..k + 1] == gs[..k] + [Group(id + k, source[at..at + amt])]
    ensures at + amt == |source| ==> k + 1 == DivCeil(|source|, max)
    ensures at + amt < |source| ==> at + amt == (k + 1) * max
  {
    GroupAt(source, max, id, k);
    GroupsPartitionSource(source, max, id);
    CursorAdvances(|source|, max, k, amt);
    var gs := Groups(source, max, id);
    assert gs[..k + 1] == gs[..k] + [gs[k]];
  }

  lemma {:induction false} CursorAdvances(len: nat, max: nat, k: nat, amt: nat)
    requires max > 0 && k * max < len
    requires amt == if len - k * max < max then len - k * max else max
    ensures k * max + amt == len ==> k + 1 == DivCeil(len, max)
    ensures k * max + amt < len ==> k * max + amt == (k + 1) * max
  {
    if k * max + amt == len {
      DivCeilUnique(len, max, k, amt);
    }
  }

  // ---- Reserving identifiers ----

  /**
   What a session is asked to send. A message takes one identifier, and so does a transfer that is refused
   because its source cannot be read or its groups would be too large; any other takes one per group.
   */
  datatype Request = Note | Unreadable | File(length: u64, maxGroup: Option<nat>)
  {
    function GroupSize(): nat
      requires File?
    {
      if maxGroup.Some? then maxGroup.value else DEFAULT_BYTES_PER_GROUP
    }

    predicate Admitted() { File? && GroupSize() <= MAX_BYTES_PER_GROUP }

    /** A group size of zero would be divided by. */
    predicate Valid() { File? ==> GroupSize() > 0 }

    function GroupCount(): nat
      requires Valid()
    {
      if Admitted() then DivCeil(length, GroupSize()) else 0
    }

    function Needs(): nat
      requires Valid()
    {
      if Admitted() then GroupCount() else 1
    }
  }

  lemma {:induction false} DivCeilAtMost(n: nat, d: nat)
    requires d > 0
    ensures DivCeil(n, d) <= n
  {
    if n > d { DivCeilAtMost(n - d, d); }
  }

  ghost predicate Sendable(rs: seq<Request>)
  {
    forall k :: 0 <= k < |rs| ==> rs[k].Valid()
  }

  /** The identifier counter after the first `k` requests, before it wraps. */
  function Reserved(rs: seq<Request>, k: nat): nat
    requires k <= |rs| && Sendable(rs)
  {
    if k == 0 then 0 else Reserved(rs, k - 1) + rs[k - 1].Needs()
  }

  /** get_and_increment_group_id, then rolling_group_id += groups_needed - 1 (which wraps for an empty file). */
  method ReserveFileGroups(crypt: PeerSessionCrypto, groupsNeeded: u64) returns (start: u64)
    modifies crypt`rollingGroupId
    ensures start == old(crypt.rollingGroupId)
    ensures crypt.rollingGroupId == (old(crypt.rollingGroupId) + groupsNeeded) % TWO64
  {
    start := crypt.GetAndIncrementGroupId();
    crypt.rollingGroupId := (crypt.rollingGroupId + (groupsNeeded + TWO64 - 1) % TWO64) % TWO64;
  }

  method ReserveOne(crypt: PeerSessionCrypto, r: Request) returns (start: u64)
    requires r.Valid()
    modifies crypt`rollingGroupId
    ensures start == old(crypt.rollingGroupId)
    ensures crypt.rollingGroupId == (old(crypt.rollingGroupId) + r.Needs()) % TWO64
  {
    if r.File? && r.GroupSize() <= MAX_BYTES_PER_GROUP {
      DivCeilAtMost(r.length, r.GroupSize());
      start := ReserveFileGroups(crypt, DivCeil(r.length, r.GroupSize()));
    } else {
      start := crypt.GetAndIncrementGroupId();
    }
  }

  /** The whole of a file request: the identifier is taken first, then the source may be refused. */
  method StartTransfer(crypt: PeerSessionCrypto, source: seq<byte>, maxGroupSize: Option<nat>)
    returns (start: u64, scrambler: Option<AsyncCryptScrambler>)
    requires maxGroupSize != Some(0) && |source| < TWO64
    modifies crypt`rollingGroupId
    ensures var r := File(|source|, maxGroupSize);
            && start == old(crypt.rollingGroupId)
            && crypt.rollingGroupId == (old(crypt.rollingGroupId) + r.Needs()) % TWO64
            && (scrambler.Some? <==> r.Admitted())
            && (scrambler.Some? ==>
                  var s := scrambler.value;
                  && fresh(s) && s.Valid() && s.source == source && s.groupId == start && s.yielded == []
                  && s.maxBytesPerGroup == r.GroupSize() && s.totalGroups == r.GroupCount())
  {
    start := crypt.GetAndIncrementGroupId();
    scrambler := ScrambleEncryptSource(source, maxGroupSize, start);
    if scrambler.Some? {
      var groupsNeeded := scrambler.value.totalGroups;
      DivCeilAtMost(|source|, scrambler.value.maxBytesPerGroup);
      ReservesRest(start, groupsNeeded);
      crypt.rollingGroupId := (crypt.rollingGroupId + (groupsNeeded + TWO64 - 1) % TWO64) % TWO64;
    }
  }

  /** One identifier was taken before; the others follow. */
  lemma ReservesRest(start: u64, groupsNeeded: u64)
    ensures (Succ64(start) + (groupsNeeded + TWO64 - 1) % TWO64) % TWO64 == (start + groupsNeeded) % TWO64
  {
  }

  lemma WrappedSum(a: nat, b: nat)
    ensures (a % TWO64 + b) % TWO64 == (a + b) % TWO64
  {
    var q := a / TWO64;
    assert a == q * TWO64 + a % TWO64;
  }

  /** The identifier counter of a session that began at `first`, k requests on. */
  ghost predicate CounterAt(first: u64, rs: seq<Request>, k: nat, counter: u64)
    requires k <= |rs| && Sendable(rs)
  {
    counter == (first + Reserved(rs, k)) % TWO64
  }

  lemma CounterMoves(first: u64, rs: seq<Request>, k: nat, counter: u64, next: u64)
    requires k < |rs| && Sendable(rs) && CounterAt(first, rs, k, counter) && next == (counter + rs[k].Needs()) % TWO64
    ensures CounterAt(first, rs, k + 1, next)
  {
    WrappedSum(first + Reserved(rs, k), rs[k].Needs());
  }

  /** A session's requests, one after the other, on the container's own counter. */
  method ReserveAll(crypt: PeerSessionCrypto, rs: seq<Request>) returns (starts: seq<u64>)
    requires Sendable(rs)
    modifies crypt`rollingGroupId
    ensures |starts| == |rs|
    ensures forall k :: 0 <= k < |rs| ==> CounterAt(old(crypt.rollingGroupId), rs, k, starts[k])
    ensures CounterAt(old(crypt.rollingGroupId), rs, |rs|, crypt.rollingGroupId)
  {
    starts := [];
    ghost var first := crypt.rollingGroupId;
    for k := 0 to |rs|
      invariant |starts| == k
      invariant forall i :: 0 <= i < k ==> CounterAt(first, rs, i, starts[i])
      invariant CounterAt(first, rs, k, crypt.rollingGroupId)
    {
      var start := ReserveOne(crypt, rs[k]);
      CounterMoves(first, rs, k, start, crypt.rollingGroupId);
      starts := starts + [start];
    }
  }

  lemma {:induction false} ReservedGrows(rs: seq<Request>, i: nat, j: nat)
    requires i <= j <= |rs| && Sendable(rs)
    ensures Reserved(rs, i) <= Reserved(rs, j)
    decreases j - i
  {
    if i < j { ReservedGrows(rs, i, j - 1); }
  }

  /** Two requests never share an identifier. */
  lemma {:induction false} RangesDisjoint(rs: seq<Request>, i: nat, j: nat, g: nat, h: nat)
    requires i < |rs| && j < |rs| && Sendable(rs) && g < rs[i].Needs() && h < rs[j].Needs()
    requires Reserved(rs, i) + g == Reserved(rs, j) + h
    ensures i == j && g == h
  {
    if i < j { ReservedGrows(rs, i + 1, j); }
    if j < i { ReservedGrows(rs, j + 1, i); }
  }

  lemma {:induction false} IdentifiersDistinct(rs: seq<Request>, i: nat, g: nat, j: nat, h: nat)
    requires i < |rs| && j < |rs| && Sendable(rs) && g < rs[i].Needs() && h < rs[j].Needs()
    ensures Reserved(rs, i) + g < Reserved(rs, |rs|) && Reserved(rs, j) + h < Reserved(rs, |rs|)
    ensures (i, g) != (j, h) ==> Reserved(rs, i) + g != Reserved(rs, j) + h
  {
    ReservedGrows(rs, i + 1, |rs|);
    ReservedGrows(rs, j + 1, |rs|);
    if Reserved(rs, i) + g == Reserved(rs, j) + h { RangesDisjoint(rs, i, j, g, h); }
  }
}
