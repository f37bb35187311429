/**
 The write queue of db/db_impl.cc as a state machine: any number of threads in DBImpl::Write, a step being
 what one of them does while it holds the mutex, or one action of the leader on the log or the memtable while
 it does not.

 Over every interleaving: writers are completed once each, in the order they arrived; groups take consecutive
 ranges of sequence numbers, even when they fail; the memtable shows the batches of successful groups as a
 whole and in order; a sync write is completed only by a leader that syncs.
 */
module WriteQueue {
  import opened ByteStrings
  import opened WriteBatches

  // A call of Write; a flush request has no batch.
  datatype Request = Batch(ops: seq<Op>, sync: bool) | Flush(sync: bool)

  datatype Phase = Waiting | Leading | Returned

  // A thread in Write: its flags done and status, and where it is.
  datatype Writer = Writer(done: bool, ok: bool, phase: Phase)

  // How far the leader has come with its group outside the mutex.
  datatype Stage = Unlogged | Logged | Applying(count: nat) | Failed(sync: bool)

  datatype Group = Group(members: nat, ops: seq<Op>, first: nat, record: nat, stage: Stage)

  // A record of the log: a batch and whether the log was synced after it.
  datatype LogRecord = LogRecord(first: nat, ops: seq<Op>, synced: bool)

  // A group that is over, for the statements about whole runs; record is the index of its log record.
  datatype Past = Past(members: seq<nat>, ops: seq<Op>, first: nat, record: nat, ok: bool, grouped: bool,
                       syncError: bool)

  datatype Active = Nobody | Busy(group: Group)

  // The requests and threads in order of arrival, writers_, the leader's work, last_sequence_, bg_error_, the log
  // and the memtable.
  datatype State = State(requests: seq<Request>, writers: seq<Writer>, queue: seq<nat>, active: Active,
                         lastSequence: nat, bgError: bool, log: seq<LogRecord>, mem: seq<Numbered>, past: seq<Past>)

  function ByteSize(ops: seq<Op>): nat {
    HEADER + |EncodeOps(ops)|
  }

  const SMALL: nat := 131072

  function MaxSize(size: nat): nat {
    if size <= SMALL then size + SMALL else 1048576
  }

  // The loop of BuildBatchGroup: how many of the requests the first one takes along, from number i on.
  function GroupEnd(requests: seq<Request>, i: nat, size: nat, maxSize: nat): (n: nat)
    requires 1 <= i <= |requests|
    ensures i <= n <= |requests|
    decreases |requests| - i
  {
    if i == |requests| then i
    else if requests[i].sync && !requests[0].sync then i
    else if requests[i].Flush? then GroupEnd(requests, i + 1, size, maxSize)
    else if size + ByteSize(requests[i].ops) > maxSize then i
    else GroupEnd(requests, i + 1, size + ByteSize(requests[i].ops), maxSize)
  }

  function GroupMembers(requests: seq<Request>): (n: nat)
    requires requests != [] && requests[0].Batch?
    ensures 1 <= n <= |requests|
  {
    var size := ByteSize(requests[0].ops);
    GroupEnd(requests, 1, size, MaxSize(size))
  }

  // The bytes of the batches among the first n requests.
  function BytesOf(requests: seq<Request>, n: nat): nat
    requires n <= |requests|
  {
    if n == 0 then 0
    else BytesOf(requests, n - 1) + if requests[n - 1].Batch? then ByteSize(requests[n - 1].ops) else 0
  }

  // The first n requests can be written as one group: no sync write rides on one that is not, and the group is not too
  // large for its leader.
  ghost predicate CanGroup(requests: seq<Request>, n: nat)
    requires requests != [] && requests[0].Batch?
  {
    && 1 <= n <= |requests|
    && (forall k | 1 <= k < n && requests[k].sync :: requests[0].sync)
    && BytesOf(requests, n) <= RoomFor(ByteSize(requests[0].ops))
  }

  // A leader above the limit goes without other batches.
  function RoomFor(size: nat): nat {
    if size < MaxSize(size) then MaxSize(size) else size
  }

  // BuildBatchGroup takes along as many requests as can be.
  lemma GroupIsLongest(requests: seq<Request>)
    requires requests != [] && requests[0].Batch?
    ensures CanGroup(requests, GroupMembers(requests))
    ensures forall n: nat | CanGroup(requests, n) :: n <= GroupMembers(requests)
  {
    hide ByteSize;
    var size := ByteSize(requests[0].ops);
    OneRequest(requests);
    EndIsLongest(requests, 1, size, MaxSize(size));
  }

  lemma OneRequest(requests: seq<Request>)
    requires requests != [] && requests[0].Batch?
    ensures BytesOf(requests, 1) == ByteSize(requests[0].ops)
  {
    hide ByteSize;
    assert BytesOf(requests, 0) == 0;
  }

  lemma {:induction false} EndIsLongest(requests: seq<Request>, i: nat, size: nat, maxSize: nat)
    requires requests != [] && requests[0].Batch? && CanGroup(requests, i)
    requires size == BytesOf(requests, i) >= ByteSize(requests[0].ops) && maxSize == MaxSize(ByteSize(requests[0].ops))
    ensures CanGroup(requests, GroupEnd(requests, i, size, maxSize))
    ensures forall n: nat | CanGroup(requests, n) :: n <= GroupEnd(requests, i, size, maxSize)
    decreases |requests| - i
  {
    hide ByteSize, MaxSize;
    if i < |requests| {
      var r := requests[i];
      HasHeader(r);
      if r.sync && !requests[0].sync {
      } else if r.Batch? && size + ByteSize(r.ops) > maxSize {
        forall n: nat | CanGroup(requests, n)
          ensures n <= i
        {
          if n > i {
            BytesGrow(requests, i + 1, n);
          }
        }
      } else {
        EndIsLongest(requests, i + 1, if r.Batch? then size + ByteSize(r.ops) else size, maxSize);
      }
    }
  }

  lemma HasHeader(r: Request)
    ensures r.Batch? ==> ByteSize(r.ops) > 0
  {
  }

  lemma {:induction false} BytesGrow(requests: seq<Request>, m: nat, n: nat)
    requires m <= n <= |requests|
    ensures BytesOf(requests, m) <= BytesOf(requests, n)
    decreases n
  {
    hide ByteSize;
    if m < n {
      BytesGrow(requests, m, n - 1);
    }
  }

  function GroupOps(requests: seq<Request>): seq<Op> {
    if requests == [] then []
    else
      var last := requests[|requests| - 1];
      GroupOps(requests[..|requests| - 1]) + if last.Batch? then last.ops else []
  }

  function Requests(s: State, ids: seq<nat>): (r: seq<Request>)
    requires forall k :: 0 <= k < |ids| ==> ids[k] < |s.requests|
    ensures |r| == |ids|
    ensures forall k :: 0 <= k < |ids| ==> r[k] == s.requests[ids[k]]
  {
    seq(|ids|, k requires 0 <= k < |ids| => s.requests[ids[k]])
  }

  ghost predicate Init(s: State) {
    s.requests == [] && s.writers == [] && s.queue == [] && s.active == Nobody && !s.bgError && s.log == [] && s.mem == [] && s.past == []
  }

  // Entering Write: the writer queues up.
  ghost predicate Arrive(s: State, t: State, request: Request) {
    t == s.(requests := s.requests + [request], writers := s.writers + [Writer(false, false, Waiting)],
            queue := s.queue + [|s.writers|])
  }

  // A waiting writer finds that another has done its work.
  ghost predicate Return(s: State, t: State, id: nat) {
    && id < |s.writers| && s.writers[id].phase == Waiting && s.writers[id].done
    && t == s.(writers := s.writers[id := s.writers[id].(phase := Returned)])
  }

  // A waiting writer finds itself at the front. It may wait for room, letting go of the mutex.
  ghost predicate Lead(s: State, t: State, id: nat) {
    && s.queue != [] && s.queue[0] == id < |s.writers|
    && s.writers[id].phase == Waiting && !s.writers[id].done
    && t == s.(writers := s.writers[id := s.writers[id].(phase := Leading)])
  }

  // MakeRoomForWrite has returned; roomOk is false when it could not make room.
  ghost predicate Begin(s: State, t: State, id: nat, roomOk: bool) {
    && s.queue != [] && s.queue[0] == id < |s.writers| == |s.requests| && s.active == Nobody
    && s.writers[id].phase == Leading
    && (forall k :: 0 <= k < |s.queue| ==> s.queue[k] < |s.requests|)
    && var ok := roomOk && !s.bgError;
       if ok && s.requests[id].Batch? then
         var requests := Requests(s, s.queue);
         var n := GroupMembers(requests);
         t == s.(active := Busy(Group(n, GroupOps(requests[..n]), s.lastSequence + 1, |s.log|, Unlogged)))
       else
         t == Finished(s, 1, [], 0, ok, false, false)
  }

  // The last loop of Write: the first n writers leave the queue with the leader's status.
  ghost function Finished(s: State, n: nat, ops: seq<Op>, record: nat, ok: bool, grouped: bool,
                          syncError: bool): State
    requires 1 <= n <= |s.queue|
  {
    var ids := s.queue[..n];
    s.(writers := seq(|s.writers|, i requires 0 <= i < |s.writers| =>
         if i == s.queue[0] then s.writers[i].(ok := ok, phase := Returned)
         else if i in ids then s.writers[i].(ok := ok, done := true)
         else s.writers[i]),
       queue := s.queue[n..],
       active := Nobody,
       lastSequence := s.lastSequence + |ops|,
       past := s.past + [Past(ids, ops, s.lastSequence + 1, record, ok, grouped, syncError)],
       bgError := s.bgError || syncError)
  }

  // log_->AddRecord, without the mutex.
  ghost predicate AddRecord(s: State, t: State, ok: bool) {
    && s.active.Busy? && s.active.group.stage == Unlogged && s.queue != [] && s.queue[0] < |s.requests|
    && var g := s.active.group;
       if !ok then t == s.(active := Busy(g.(stage := Failed(false))))
       else
         t == s.(log := s.log + [LogRecord(g.first, g.ops, false)],
                 active := Busy(g.(record := |s.log|,
                                   stage := if s.requests[s.queue[0]].sync then Logged else Applying(0))))
  }

  // logfile_->Sync.
  ghost predicate Sync(s: State, t: State, ok: bool) {
    && s.active.Busy? && s.active.group.stage == Logged && s.log != []
    && var g := s.active.group;
       if !ok then t == s.(active := Busy(g.(stage := Failed(true))))
       else
         t == s.(log := s.log[|s.log| - 1 := s.log[|s.log| - 1].(synced := true)],
                 active := Busy(g.(stage := Applying(0))))
  }

  // WriteBatchInternal::InsertInto adds one operation to the memtable.
  ghost predicate Insert(s: State, t: State) {
    && s.active.Busy? && s.active.group.stage.Applying?
    && var g := s.active.group;
       var k := g.stage.count;
       && k < |g.ops|
       && t == s.(mem := s.mem + [Numbered(g.first + k, g.ops[k])], active := Busy(g.(stage := Applying(k + 1))))
  }

  // With the mutex again: record a sync error, publish the sequence number, complete the group.
  ghost predicate End(s: State, t: State) {
    && s.active.Busy?
    && var g := s.active.group;
       && 1 <= g.members <= |s.queue|
       && (g.stage.Failed? || g.stage == Applying(|g.ops|))
       && t == Finished(s, g.members, g.ops, g.record, !g.stage.Failed?, true, g.stage == Failed(true))
  }

  // A background compaction fails.
  ghost predicate BackgroundError(s: State, t: State) {
    t == s.(bgError := true)
  }

  datatype Step =
    | ArriveStep(request: Request)
    | ReturnStep(id: nat)
    | LeadStep(id: nat)
    | BeginStep(id: nat, ok: bool)
    | AddRecordStep(ok: bool)
    | SyncStep(ok: bool)
    | InsertStep
    | EndStep
    | BackgroundErrorStep

  ghost predicate Next(s: State, t: State, step: Step) {
    match step
    case ArriveStep(request) => Arrive(s, t, request)
    case ReturnStep(id) => Return(s, t, id)
    case LeadStep(id) => Lead(s, t, id)
    case BeginStep(id, ok) => Begin(s, t, id, ok)
    case AddRecordStep(ok) => AddRecord(s, t, ok)
    case SyncStep(ok) => Sync(s, t, ok)
    case InsertStep => Insert(s, t)
    case EndStep => End(s, t)
    case BackgroundErrorStep => BackgroundError(s, t)
  }

  // How many writers have been completed.
  function Popped(s: State): int {
    |s.writers| - |s.queue|
  }

  // writers_ holds the writers not yet completed, in order of arrival; only the first of them may lead.
  ghost predicate QueueInv(s: State) {
    && |s.requests| == |s.writers| && Popped(s) >= 0
    && (forall k :: 0 <= k < |s.queue| ==> s.queue[k] == Popped(s) + k)
    && (forall id :: 0 <= id < Popped(s) ==>
          s.writers[id].phase == Returned || (s.writers[id].phase == Waiting && s.writers[id].done))
    && (forall id :: Popped(s) <= id < |s.writers| ==> !s.writers[id].done && s.writers[id].phase != Returned)
    && (forall id :: Popped(s) < id < |s.writers| ==> s.writers[id].phase == Waiting)
    && (s.active.Busy? ==> s.queue != [] && s.writers[Popped(s)].phase == Leading)
  }

  lemma {:induction false} QueueStep(s: State, t: State, step: Step)
    requires QueueInv(s) && Next(s, t, step)
    ensures QueueInv(t)
  {
    hide GroupMembers, GroupOps, Number, Finished;
    match step
    case BeginStep(id, ok) =>
      FinishedQueue(s, 1, [], 0, ok && !s.bgError, false, false);
    case EndStep =>
      var g := s.active.group;
      FinishedQueue(s, g.members, g.ops, g.record, !g.stage.Failed?, true, g.stage == Failed(true));
    case _ =>
  }

  lemma FinishedQueue(s: State, n: nat, ops: seq<Op>, record: nat, ok: bool, grouped: bool, syncError: bool)
    requires QueueInv(s) && 1 <= n <= |s.queue| && s.writers[Popped(s)].phase == Leading
    ensures QueueInv(Finished(s, n, ops, record, ok, grouped, syncError))
    ensures Finished(s, n, ops, record, ok, grouped, syncError).active == Nobody
  {
    var ids, t := s.queue[..n], Finished(s, n, ops, record, ok, grouped, syncError);
    forall i | 0 <= i < |s.writers| ensures i in ids <==> Popped(s) <= i < Popped(s) + n {
      if Popped(s) <= i < Popped(s) + n {
        assert ids[i - Popped(s)] == i;
      }
    }
  }

  // What a leader without sync takes along.
  ghost predicate SyncKept(requests: seq<Request>, a: nat, n: nat)
    requires a + n <= |requests| && n > 0
  {
    !requests[a].sync ==> forall k :: a <= k < a + n ==> !requests[k].sync
  }

  // The leader's group, and the log record it has written.
  ghost predicate GroupInv(s: State) {
    s.active.Busy? ==>
      var g, p := s.active.group, Popped(s);
      && 0 <= p && 1 <= g.members && p + g.members <= |s.requests| && s.requests[p].Batch?
      && g.ops == GroupOps(s.requests[p..p + g.members])
      && g.first == s.lastSequence + 1
      && SyncKept(s.requests, p, g.members)
      && (g.stage.Logged? ==>
          s.requests[p].sync && |s.log| == g.record + 1 && s.log[g.record] == LogRecord(g.first, g.ops, false))
      && (g.stage.Applying? ==>
          && g.stage.count <= |g.ops|
          && |s.log| == g.record + 1 && s.log[g.record] == LogRecord(g.first, g.ops, s.requests[p].sync))
  }

  lemma {:induction false} GroupEndKeepsSync(requests: seq<Request>, i: nat, size: nat, maxSize: nat)
    requires 1 <= i <= |requests| && SyncKept(requests, 0, i)
    ensures SyncKept(requests, 0, GroupEnd(requests, i, size, maxSize))
    decreases |requests| - i
  {
    hide ByteSize;
    if i < |requests| && !(requests[i].sync && !requests[0].sync) {
      if requests[i].Flush? {
        GroupEndKeepsSync(requests, i + 1, size, maxSize);
      } else if size + ByteSize(requests[i].ops) <= maxSize {
        GroupEndKeepsSync(requests, i + 1, size + ByteSize(requests[i].ops), maxSize);
      }
    }
  }

  lemma {:induction false} GroupStep(s: State, t: State, step: Step)
    requires QueueInv(s) && GroupInv(s) && Next(s, t, step)
    ensures GroupInv(t)
  {
    hide GroupMembers, GroupOps, Number, GroupEnd, SyncKept, QueueInv, Requests;
    QueueFront(s);
    match step
    case BeginStep(id, ok) =>
      if t.active.Busy? {
        GroupBegins(s, t, id, ok);
      }
    case ArriveStep(request) =>
      if s.active.Busy? {
        var n, p := s.active.group.members, Popped(s);
        assert t.requests[p..p + n] == s.requests[p..p + n] && t.requests[p] == s.requests[p];
        SyncStaysKept(s.requests, t.requests, p, n);
      }
    case _ =>
  }

  lemma QueueFront(s: State)
    requires QueueInv(s)
    ensures s.queue != [] ==> s.queue[0] == Popped(s)
  {
  }

  lemma GroupBegins(s: State, t: State, id: nat, ok: bool)
    requires QueueInv(s) && Begin(s, t, id, ok) && t.active.Busy?
    ensures GroupInv(t)
  {
    hide GroupMembers, GroupOps, Number, GroupEnd, QueueInv, Requests;
    QueueIsRest(s);
    var requests := Requests(s, s.queue);
    GroupSync(requests);
    var n, p := t.active.group.members, Popped(s);
    assert requests[..n] == s.requests[p..p + n] && requests[0] == s.requests[p];
    forall k | p <= k < p + n ensures s.requests[k] == requests[k - p] {
    }
  }

  lemma QueueIsRest(s: State)
    requires QueueInv(s)
    ensures 0 <= Popped(s) <= |s.requests|
    ensures forall k :: 0 <= k < |s.queue| ==> s.queue[k] < |s.requests|
    ensures Requests(s, s.queue) == s.requests[Popped(s)..]
  {
  }

  lemma GroupSync(requests: seq<Request>)
    requires requests != [] && requests[0].Batch?
    ensures SyncKept(requests, 0, GroupMembers(requests))
  {
    var size := ByteSize(requests[0].ops);
    GroupEndKeepsSync(requests, 1, size, MaxSize(size));
  }

  function MembersBefore(past: seq<Past>, i: nat): nat
    requires i <= |past|
  {
    if i == 0 then 0 else MembersBefore(past, i - 1) + |past[i - 1].members|
  }

  function OpsBefore(past: seq<Past>, i: nat): nat
    requires i <= |past|
  {
    if i == 0 then 0 else OpsBefore(past, i - 1) + |past[i - 1].ops|
  }

  lemma {:induction false} BeforePrefix(past: seq<Past>, more: seq<Past>, i: nat)
    requires i <= |past|
    ensures MembersBefore(past + more, i) == MembersBefore(past, i)
    ensures OpsBefore(past + more, i) == OpsBefore(past, i)
  {
    if i > 0 {
      BeforePrefix(past, more, i - 1);
    }
  }

  lemma {:induction false} BeforeGrows(past: seq<Past>, i: nat, j: nat)
    requires i <= j <= |past|
    ensures MembersBefore(past, i) <= MembersBefore(past, j)
    ensures OpsBefore(past, i) <= OpsBefore(past, j)
  {
    if i < j {
      BeforeGrows(past, i, j - 1);
    }
  }

  // The log records that no longer change; a record still to be synced does.
  ghost function Settling(s: State): (n: nat)
    ensures n <= |s.log|
  {
    if s.active.Busy? && s.active.group.stage.Logged? && s.log != [] then |s.log| - 1 else |s.log|
  }

  // Group x of the past: writers number a on, the first of which led; its operations have numbers from first on.
  ghost predicate PastGroup(s: State, x: Past, a: nat, first: nat) {
    var n := |x.members|;
    && 1 <= n && a + n <= Popped(s) <= |s.requests| == |s.writers|
    && (forall k :: 0 <= k < n ==> x.members[k] == a + k && s.writers[x.members[k]].ok == x.ok)
    && x.first == first
    && if x.grouped then
         && s.requests[a].Batch? && x.ops == GroupOps(s.requests[a..a + n]) && SyncKept(s.requests, a, n)
         && (x.ok ==> x.record < Settling(s) && s.log[x.record] == LogRecord(first, x.ops, s.requests[a].sync))
       else n == 1 && x.ops == [] && (x.ok ==> s.requests[a].Flush?)
  }

  // start is the sequence number the database was opened with.
  ghost predicate PastInv(s: State, start: nat) {
    && Popped(s) == MembersBefore(s.past, |s.past|)
    && s.lastSequence == start + OpsBefore(s.past, |s.past|)
    && forall i :: 0 <= i < |s.past| ==>
         PastGroup(s, s.past[i], MembersBefore(s.past, i), start + 1 + OpsBefore(s.past, i))
  }

  // What a step leaves alone of the writers already completed.
  ghost predicate Settled(s: State, t: State) {
    && s.requests <= t.requests && |s.writers| <= |t.writers| == |t.requests| && 0 <= Popped(s) <= Popped(t)
    && (forall id :: 0 <= id < Popped(s) ==> t.writers[id].ok == s.writers[id].ok)
    && Settling(s) <= Settling(t) && t.log[..Settling(s)] == s.log[..Settling(s)]
  }

  lemma {:induction false} StepSettles(s: State, t: State, step: Step)
    requires QueueInv(s) && GroupInv(s) && Next(s, t, step)
    ensures Settled(s, t)
  {
    hide GroupMembers, GroupOps, Number, GroupEnd, SyncKept, Finished;
    match step
    case BeginStep(id, ok) =>
      if !(ok && !s.bgError && s.requests[id].Batch?) {
        FinishedSettles(s, 1, [], 0, ok && !s.bgError, false, false);
      }
    case EndStep =>
      var g := s.active.group;
      FinishedSettles(s, g.members, g.ops, g.record, !g.stage.Failed?, true, g.stage == Failed(true));
    case _ =>
  }

  lemma FinishedSettles(s: State, n: nat, ops: seq<Op>, record: nat, ok: bool, grouped: bool, syncError: bool)
    requires QueueInv(s) && 1 <= n <= |s.queue|
    ensures Settled(s, Finished(s, n, ops, record, ok, grouped, syncError))
  {
  }

  lemma {:induction false} PastGroupStays(s: State, t: State, x: Past, a: nat, first: nat)
    requires Settled(s, t) && PastGroup(s, x, a, first)
    ensures PastGroup(t, x, a, first)
  {
    hide GroupOps, SyncKept;
    var n := |x.members|;
    assert t.requests[a..a + n] == s.requests[a..a + n];
    forall k | 0 <= k < n ensures x.members[k] == a + k && t.writers[x.members[k]].ok == x.ok {
    }
    assert t.requests[a] == s.requests[a];
    if x.grouped {
      SyncStaysKept(s.requests, t.requests, a, n);
      if x.ok {
        assert s.log[..Settling(s)][x.record] == t.log[..Settling(s)][x.record];
      }
    }
  }

  lemma SyncStaysKept(requests: seq<Request>, more: seq<Request>, a: nat, n: nat)
    requires requests <= more && a + n <= |requests| && n > 0 && SyncKept(requests, a, n)
    ensures SyncKept(more, a, n)
  {
  }


  lemma {:induction false} PastStays(s: State, t: State, start: nat)
    requires PastInv(s, start) && Settled(s, t) && t.past == s.past
    requires Popped(t) == Popped(s) && t.lastSequence == s.lastSequence
    ensures PastInv(t, start)
  {
    hide PastGroup, Settled, MembersBefore, OpsBefore;
    forall i | 0 <= i < |s.past|
      ensures PastGroup(t, s.past[i], MembersBefore(s.past, i), start + 1 + OpsBefore(s.past, i))
    {
      PastGroupStays(s, t, s.past[i], MembersBefore(s.past, i), start + 1 + OpsBefore(s.past, i));
    }
  }

  lemma {:induction false} PastGrows(s: State, t: State, start: nat, x: Past)
    requires PastInv(s, start) && Settled(s, t) && t.past == s.past + [x]
    requires Popped(t) == Popped(s) + |x.members| && t.lastSequence == s.lastSequence + |x.ops|
    requires PastGroup(t, x, Popped(s), s.lastSequence + 1)
    ensures PastInv(t, start)
  {
    hide PastGroup, Settled, MembersBefore, OpsBefore;
    var n := |s.past|;
    forall i | 0 <= i < |t.past|
      ensures PastGroup(t, t.past[i], MembersBefore(t.past, i), start + 1 + OpsBefore(t.past, i))
    {
      BeforePrefix(s.past, [x], i);
      if i < n {
        PastGroupStays(s, t, s.past[i], MembersBefore(s.past, i), start + 1 + OpsBefore(s.past, i));
      }
    }
    BeforePrefix(s.past, [x], n);
    LastBefore(t.past, n);
  }

  lemma LastBefore(past: seq<Past>, n: nat)
    requires n + 1 == |past|
    ensures MembersBefore(past, n + 1) == MembersBefore(past, n) + |past[n].members|
    ensures OpsBefore(past, n + 1) == OpsBefore(past, n) + |past[n].ops|
  {
  }

  lemma {:induction false} PastStep(s: State, t: State, step: Step, start: nat)
    requires QueueInv(s) && GroupInv(s) && PastInv(s, start) && Next(s, t, step)
    ensures PastInv(t, start)
  {
    hide GroupMembers, GroupOps, Number, GroupEnd, SyncKept, PastGroup, MembersBefore, OpsBefore, PastInv, Settled;
    StepSettles(s, t, step);
    match step
    case BeginStep(id, ok) =>
      if t.active.Busy? {
        PastStays(s, t, start);
      } else {
        NewGroup(s, t, 1, [], 0, ok && !s.bgError, false, false);
        PastGrows(s, t, start, t.past[|s.past|]);
      }
    case EndStep =>
      var g := s.active.group;
      NewGroup(s, t, g.members, g.ops, g.record, !g.stage.Failed?, true, g.stage == Failed(true));
      PastGrows(s, t, start, t.past[|s.past|]);
    case _ =>
      PastStays(s, t, start);
  }

  lemma NewGroup(s: State, t: State, n: nat, ops: seq<Op>, record: nat, ok: bool, grouped: bool, syncError: bool)
    requires QueueInv(s) && GroupInv(s) && 1 <= n <= |s.queue|
    requires t == Finished(s, n, ops, record, ok, grouped, syncError)
    requires grouped ==>
      && s.active.Busy? && s.active.group.members == n && s.active.group.ops == ops && s.active.group.record == record
      && (ok ==> s.active.group.stage == Applying(|ops|))
    requires !grouped ==> n == 1 && ops == [] && (ok ==> s.requests[Popped(s)].Flush?)
    ensures |t.past| == |s.past| + 1 && PastGroup(t, t.past[|s.past|], Popped(s), s.lastSequence + 1)
    ensures Popped(t) == Popped(s) + n && |t.past[|s.past|].members| == n
  {
    hide GroupOps;
    var p := Popped(s);
    forall k | 0 <= k < n ensures s.queue[..n][k] == p + k {
    }
    forall id | p <= id < p + n ensures t.writers[id].ok == ok {
      assert s.queue[..n][id - p] == id;
    }
  }

  // The entries of the memtable that belong to successful groups.
  function Applied(past: seq<Past>): seq<Numbered> {
    if past == [] then []
    else
      var x := past[|past| - 1];
      Applied(past[..|past| - 1]) + if x.ok then Number(x.first, x.ops) else []
  }

  // What the leader has inserted so far.
  function Inserting(s: State): seq<Numbered> {
    if s.active.Busy? && s.active.group.stage.Applying? && s.active.group.stage.count <= |s.active.group.ops| then
      Number(s.active.group.first, s.active.group.ops)[..s.active.group.stage.count]
    else []
  }

  ghost predicate MemInv(s: State) {
    s.mem == Applied(s.past) + Inserting(s)
  }

  lemma {:induction false} MemStep(s: State, t: State, step: Step)
    requires GroupInv(s) && MemInv(s) && Next(s, t, step)
    ensures MemInv(t)
  {
    hide GroupMembers, GroupOps, GroupEnd, SyncKept, Applied, Requests, Finished, Number;
    match step
    case BeginStep(id, ok) =>
      FinishedMem(s, 1, [], 0, ok && !s.bgError, false, false);
    case InsertStep =>
      OneInserted(s.active.group.first, s.active.group.ops, s.active.group.stage.count, Applied(s.past));
    case EndStep =>
      var g := s.active.group;
      FinishedMem(s, g.members, g.ops, g.record, !g.stage.Failed?, true, g.stage == Failed(true));
    case _ =>
  }

  lemma OneInserted(first: nat, ops: seq<Op>, count: nat, before: seq<Numbered>)
    requires count < |ops|
    ensures before + Number(first, ops)[..count + 1] ==
            before + Number(first, ops)[..count] + [Number(first, ops)[count]]
    ensures Number(first, ops)[count] == Numbered(first + count, ops[count])
  {
    var all := Number(first, ops);
    assert all[..count + 1] == all[..count] + [all[count]];
  }

  lemma FinishedMem(s: State, n: nat, ops: seq<Op>, record: nat, ok: bool, grouped: bool, syncError: bool)
    ensures 1 <= n <= |s.queue| ==>
              var t := Finished(s, n, ops, record, ok, grouped, syncError);
              && t.active == Nobody && t.mem == s.mem && Inserting(t) == []
              && Applied(t.past) == Applied(s.past) + if ok then Number(s.lastSequence + 1, ops) else []
    ensures Number(s.lastSequence + 1, ops)[..|ops|] == Number(s.lastSequence + 1, ops)
    ensures Number(s.lastSequence + 1, []) == []
  {
    hide Applied;
    AppliedNext(s.past, Past(if n <= |s.queue| then s.queue[..n] else [], ops, s.lastSequence + 1, record, ok, grouped,
                             syncError));
  }

  lemma AppliedNext(past: seq<Past>, x: Past)
    ensures Applied(past + [x]) == Applied(past) + if x.ok then Number(x.first, x.ops) else []
  {
    assert (past + [x])[..|past|] == past;
  }

  // After a sync error every later write fails.
  ghost predicate ErrorInv(s: State) {
    forall i :: 0 <= i < |s.past| && s.past[i].syncError ==>
      s.bgError && s.active == Nobody && forall j :: i < j < |s.past| ==> !s.past[j].ok
  }

  lemma {:induction false} ErrorStep(s: State, t: State, step: Step)
    requires GroupInv(s) && ErrorInv(s) && Next(s, t, step)
    ensures ErrorInv(t)
  {
    hide GroupMembers, GroupOps, GroupEnd, SyncKept, Requests;
  }

  ghost predicate Inv(s: State, start: nat) {
    QueueInv(s) && GroupInv(s) && PastInv(s, start) && MemInv(s) && ErrorInv(s)
  }

  lemma {:induction false} InvStep(s: State, t: State, step: Step, start: nat)
    requires Inv(s, start) && Next(s, t, step)
    ensures Inv(t, start)
  {
    hide Next, QueueInv, GroupInv, PastInv, MemInv, ErrorInv;
    QueueStep(s, t, step);
    GroupStep(s, t, step);
    PastStep(s, t, step, start);
    MemStep(s, t, step);
    ErrorStep(s, t, step);
  }

  ghost predicate IsRun(states: seq<State>, steps: seq<Step>) {
    && |states| == |steps| + 1
    && Init(states[0])
    && forall i :: 0 <= i < |steps| ==> Next(states[i], states[i + 1], steps[i])
  }

  lemma {:induction false} RunKeepsInv(states: seq<State>, steps: seq<Step>, i: nat)
    requires IsRun(states, steps) && i < |states|
    ensures Inv(states[i], states[0].lastSequence)
  {
    hide Next;
    if i == 0 {
      assert states[0].past == [];
    } else {
      RunKeepsInv(states, steps, i - 1);
      InvStep(states[i - 1], states[i], steps[i - 1], states[0].lastSequence);
    }
  }

  // The writers completed so far, group after group.
  function Completed(past: seq<Past>): seq<nat> {
    if past == [] then [] else Completed(past[..|past| - 1]) + past[|past| - 1].members
  }

  lemma {:induction false} CompletedBefore(s: State, start: nat, i: nat)
    requires PastInv(s, start) && i <= |s.past|
    ensures |Completed(s.past[..i])| == MembersBefore(s.past, i)
    ensures forall k :: 0 <= k < |Completed(s.past[..i])| ==> Completed(s.past[..i])[k] == k
  {
    hide OpsBefore, PastInv, SyncKept;
    if i > 0 {
      CompletedBefore(s, start, i - 1);
      assert s.past[..i][..i - 1] == s.past[..i - 1];
      PastAt(s, start, i - 1);
    }
  }

  /** In every reachable state the writers completed are exactly those that are no longer queued, each of them
   once and in the order they arrived, and only a completed writer has left Write or been told to. */
  lemma {:induction false} CompletedOnceInOrder(states: seq<State>, steps: seq<Step>, i: nat)
    requires IsRun(states, steps) && i < |states|
    ensures var s := states[i];
            && Completed(s.past) + s.queue == seq(|s.writers|, id => id)
            && forall id :: 0 <= id < |s.writers| ==>
                 (s.writers[id].done || s.writers[id].phase == Returned <==> id in Completed(s.past))
  {
    hide Next, GroupInv, MemInv, ErrorInv, IsRun, MembersBefore, OpsBefore, PastGroup;
    var s, start := states[i], states[0].lastSequence;
    RunKeepsInv(states, steps, i);
    CompletedBefore(s, start, |s.past|);
    assert s.past[..|s.past|] == s.past;
    forall id | 0 <= id < |s.writers| ensures id in Completed(s.past) <==> id < Popped(s) {
      if id < Popped(s) {
        assert Completed(s.past)[id] == id;
      }
    }
  }

  // What a completed writer is told does not change any more.
  lemma {:induction false} StatusIsFinal(states: seq<State>, steps: seq<Step>, i: nat, j: nat, id: nat)
    requires IsRun(states, steps) && i <= j < |states|
    requires id < |states[i].writers| && id in Completed(states[i].past)
    ensures id < |states[j].writers| && id in Completed(states[j].past)
    ensures states[j].writers[id].ok == states[i].writers[id].ok
    decreases j
  {
    hide Next, GroupInv, MemInv, ErrorInv, IsRun, PastInv, Completed;
    if i < j {
      StatusIsFinal(states, steps, i, j - 1, id);
      RunKeepsInv(states, steps, j - 1);
      RunLength(states, steps);
      OneStep(states, steps, j - 1);
      StepSettles(states[j - 1], states[j], steps[j - 1]);
      RunKeepsInv(states, steps, j);
      InCompleted(states[j - 1], states[0].lastSequence, id);
      InCompleted(states[j], states[0].lastSequence, id);
    }
  }

  lemma RunLength(states: seq<State>, steps: seq<Step>)
    requires IsRun(states, steps)
    ensures |states| == |steps| + 1
  {
  }

  lemma OneStep(states: seq<State>, steps: seq<Step>, i: nat)
    requires IsRun(states, steps) && i < |steps|
    ensures Next(states[i], states[i + 1], steps[i])
  {
    hide Next;
  }

  lemma {:induction false} InCompleted(s: State, start: nat, id: nat)
    requires PastInv(s, start)
    ensures id in Completed(s.past) <==> id < Popped(s)
  {
    CompletedBefore(s, start, |s.past|);
    assert s.past[..|s.past|] == s.past;
    if id < Popped(s) {
      assert Completed(s.past)[id] == id;
    }
  }

  // What PastInv says of one group.
  lemma PastAt(s: State, start: nat, i: nat)
    requires PastInv(s, start) && i < |s.past|
    ensures var x, a := s.past[i], MembersBefore(s.past, i);
            && x.first == start + 1 + OpsBefore(s.past, i)
            && OpsBefore(s.past, i + 1) == OpsBefore(s.past, i) + |x.ops|
            && a + |x.members| <= |s.requests| == |s.writers|
            && (forall k :: 0 <= k < |x.members| ==> x.members[k] == a + k && s.writers[x.members[k]].ok == x.ok)
            && (x.grouped ==> |x.members| > 0 && SyncKept(s.requests, a, |x.members|))
            && (!x.grouped && x.ok ==> |x.members| == 1 && s.requests[a].Flush?)
            && (x.grouped && x.ok ==>
                x.record < |s.log| && s.log[x.record] == LogRecord(x.first, x.ops, s.requests[a].sync))
    ensures s.lastSequence == start + OpsBefore(s.past, |s.past|)
  {
    hide SyncKept, GroupOps, MembersBefore, OpsBefore, PastInv;
    PastGroupAt(s, start, i);
    NextBefore(s.past, i);
    var x := s.past[i];
    assert x.grouped && x.ok ==> x.record < Settling(s) <= |s.log|;
  }

  lemma PastGroupAt(s: State, start: nat, i: nat)
    requires PastInv(s, start) && i < |s.past|
    ensures PastGroup(s, s.past[i], MembersBefore(s.past, i), start + 1 + OpsBefore(s.past, i))
    ensures s.lastSequence == start + OpsBefore(s.past, |s.past|)
  {
    hide PastGroup, MembersBefore, OpsBefore;
  }

  lemma NextBefore(past: seq<Past>, i: nat)
    requires i < |past|
    ensures OpsBefore(past, i + 1) == OpsBefore(past, i) + |past[i].ops|
  {
  }

  /** Groups take consecutive ranges of sequence numbers: no two overlap, whether or not the groups succeed, and
   none reaches past last_sequence_. */
  lemma {:induction false} RangesAreConsecutive(states: seq<State>, steps: seq<Step>, i: nat, x: nat, y: nat)
    requires IsRun(states, steps) && i < |states| && x < y < |states[i].past|
    ensures var past := states[i].past;
            past[x].first + |past[x].ops| <= past[y].first <= past[y].first + |past[y].ops| <= states[i].lastSequence + 1
    ensures y == x + 1 ==> states[i].past[x].first + |states[i].past[x].ops| == states[i].past[y].first
  {
    hide Next, QueueInv, GroupInv, MemInv, ErrorInv, PastInv, IsRun, MembersBefore, OpsBefore, SyncKept;
    var s, start := states[i], states[0].lastSequence;
    RunKeepsInv(states, steps, i);
    PastAt(s, start, x);
    PastAt(s, start, y);
    BeforeGrows(s.past, x + 1, y);
    BeforeGrows(s.past, y + 1, |s.past|);
  }

  lemma {:induction false} AppliedSequences(s: State, start: nat, i: nat)
    requires PastInv(s, start) && i <= |s.past|
    ensures var a := Applied(s.past[..i]);
            && (forall k :: 0 <= k < |a| ==> start < a[k].sequence <= start + OpsBefore(s.past, i))
            && (forall k, l :: 0 <= k < l < |a| ==> a[k].sequence < a[l].sequence)
  {
    hide MembersBefore, PastInv, SyncKept, OpsBefore;
    if i > 0 {
      AppliedSequences(s, start, i - 1);
      var x := s.past[i - 1];
      assert s.past[..i] == s.past[..i - 1] + [x];
      AppliedNext(s.past[..i - 1], x);
      PastAt(s, start, i - 1);
    }
  }

  /** What a reader at last_sequence_ sees of the memtable is the batches of the successful groups, whole and in
   order, under increasing sequence numbers; everything of the group being inserted is beyond it. */
  lemma {:induction false} GroupsAppearWhole(states: seq<State>, steps: seq<Step>, i: nat, k: nat)
    requires IsRun(states, steps) && i < |states| && k < |states[i].mem|
    ensures var s := states[i];
            && Applied(s.past) <= s.mem
            && (s.mem[k].sequence <= s.lastSequence <==> k < |Applied(s.past)|)
            && (k > 0 ==> s.mem[k - 1].sequence < s.mem[k].sequence)
  {
    hide Next, QueueInv, ErrorInv, IsRun, Applied, MembersBefore, OpsBefore, PastGroup, GroupOps, SyncKept;
    var s, start := states[i], states[0].lastSequence;
    RunKeepsInv(states, steps, i);
    AppliedSequences(s, start, |s.past|);
    assert s.past[..|s.past|] == s.past;
  }

  /** A sync write that is told it succeeded was written and then synced by a leader that asked for it; and the
   write's operations are in the log record of its group. */
  lemma {:induction false} SyncWritesAreSynced(states: seq<State>, steps: seq<Step>, i: nat, id: nat) returns (x: nat)
    requires IsRun(states, steps) && i < |states| && id in Completed(states[i].past)
    requires id < |states[i].writers| == |states[i].requests|
    requires states[i].writers[id].ok && states[i].requests[id].Batch? && states[i].requests[id].sync
    ensures var s := states[i];
            && x < |s.past| && id in s.past[x].members && s.past[x].record < |s.log|
            && s.log[s.past[x].record] == LogRecord(s.past[x].first, s.past[x].ops, true)
  {
    hide Next, QueueInv, GroupInv, MemInv, ErrorInv, PastInv, IsRun, Completed, MembersBefore, OpsBefore;
    var s, start := states[i], states[0].lastSequence;
    RunKeepsInv(states, steps, i);
    assert s.past[..|s.past|] == s.past;
    x := GroupOf(s, start, id, |s.past|);
    PastAt(s, start, x);
    var k :| 0 <= k < |s.past[x].members| && s.past[x].members[k] == id;
    assert id == MembersBefore(s.past, x) + k;
  }

  lemma {:induction false} GroupOf(s: State, start: nat, id: nat, n: nat) returns (x: nat)
    requires PastInv(s, start) && n <= |s.past| && id in Completed(s.past[..n])
    ensures x < n && id in s.past[x].members
  {
    hide PastInv;
    var last := s.past[n - 1];
    assert s.past[..n][..n - 1] == s.past[..n - 1];
    if id in last.members {
      x := n - 1;
    } else {
      x := GroupOf(s, start, id, n - 1);
    }
  }

  // After a sync error no write succeeds.
  lemma {:induction false} NothingAfterSyncError(states: seq<State>, steps: seq<Step>, i: nat, x: nat, y: nat)
    requires IsRun(states, steps) && i < |states| && x < y < |states[i].past| && states[i].past[x].syncError
    ensures !states[i].past[y].ok
  {
    hide Next, QueueInv, GroupInv, MemInv, PastInv, IsRun;
    RunKeepsInv(states, steps, i);
  }
}
