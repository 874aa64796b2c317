/**
 The writer queue (db/db_impl.cc: Write, BuildBatchGroup).  The writer at the front leads:
 it logs and inserts the batches of a whole group while it lets go of the mutex, so
 writers may join the queue between any two of its steps.
 */
module GroupCommit {
  import opened Wrappers
  import opened DbFormat

  datatype Op = Op(user: UserKey, kind: ValueType, value: Bytes)

  // A writer without a batch only wants the memtable switched.
  datatype Writer = Writer(id: nat, batch: Option<seq<Op>>, sync: bool)

  datatype Outcome = Ok | Failed

  datatype Record = Record(first: nat, ops: seq<Op>)

  // One memtable entry.
  datatype Insertion = Insertion(op: Op, sequence: nat)

  // ----- the batch of a group -----

  function OpsOf(w: Writer): seq<Op> {
    if w.batch.Some? then w.batch.value else []
  }

  function GroupOps(members: seq<Writer>): seq<Op> {
    if members == [] then [] else GroupOps(members[..|members| - 1]) + OpsOf(members[|members| - 1])
  }

  // What a group weighs; `byteSize` is WriteBatchInternal::ByteSize.
  function GroupBytes(members: seq<Writer>, byteSize: seq<Op> -> nat): nat {
    if members == [] then 0
    else GroupBytes(members[..|members| - 1], byteSize)
         + var w := members[|members| - 1]; if w.batch.Some? then byteSize(w.batch.value) else 0
  }

  // A small first write limits the growth of its group.
  function MaxGroupBytes(first: nat): nat {
    if first <= 0x2_0000 then first + 0x2_0000 else 0x10_0000
  }

  predicate SyncAllowed(members: seq<Writer>) {
    forall i :: 0 < i < |members| && members[i].sync ==> members[0].sync
  }

  // The writer may not join the group of those before it.
  predicate Stops(queue: seq<Writer>, n: nat, byteSize: seq<Op> -> nat)
    requires 0 < n < |queue| && queue[0].batch.Some?
  {
    || (queue[n].sync && !queue[0].sync)
    || (queue[n].batch.Some? && GroupBytes(queue[..n + 1], byteSize) > MaxGroupBytes(byteSize(queue[0].batch.value)))
  }

  // The group is the longest front part of the queue in which nobody stops it.
  predicate IsGroup(queue: seq<Writer>, n: nat, byteSize: seq<Op> -> nat)
    requires queue != [] && queue[0].batch.Some?
  {
    && 0 < n <= |queue|
    && (forall i :: 0 < i < n ==> !Stops(queue, i, byteSize))
    && (n < |queue| ==> Stops(queue, n, byteSize))
  }

  // What is allowed in one group: no sync writer behind a leader that does not sync, and
  // together with others no more bytes than the limit, which is 128 KB above the first
  // batch or, for a larger first batch, 1 MB.
  ghost predicate MayGroup(members: seq<Writer>, byteSize: seq<Op> -> nat)
    requires members != [] && members[0].batch.Some?
  {
    var first := byteSize(members[0].batch.value);
    && (forall i :: 0 < i < |members| && members[i].sync ==> members[0].sync)
    && ((exists i :: 0 < i < |members| && members[i].batch.Some?) ==>
          GroupBytes(members, byteSize) <= if first <= 128 * 1024 then first + 128 * 1024 else 1024 * 1024)
  }

  lemma {:induction false} NobodyStops(queue: seq<Writer>, n: nat, byteSize: seq<Op> -> nat)
    requires 0 < n <= |queue| && queue[0].batch.Some?
    ensures (forall i :: 0 < i < n ==> !Stops(queue, i, byteSize)) <==> MayGroup(queue[..n], byteSize)
  {
    if n > 1 {
      var m := n - 1;
      NobodyStops(queue, m, byteSize);
      OneMore(queue, m, byteSize);
      assert forall i :: 0 <= i < m ==> queue[..n][i] == queue[..m][i];
      assert MayGroup(queue[..n], byteSize) <==> MayGroup(queue[..m], byteSize) && !Stops(queue, m, byteSize) by {
        hide GroupBytes;
        assert queue[..n][m] == queue[m];
      }
    }
  }

  /** The group is the largest front part of the queue that is allowed as one. */
  lemma {:induction false} GroupIsLargest(queue: seq<Writer>, n: nat, byteSize: seq<Op> -> nat)
    requires queue != [] && queue[0].batch.Some?
    ensures IsGroup(queue, n, byteSize) <==>
              && 0 < n <= |queue| && MayGroup(queue[..n], byteSize)
              && forall m :: n < m <= |queue| ==> !MayGroup(queue[..m], byteSize)
  {
    hide MayGroup, Stops;
    forall m | 0 < m <= |queue|
      ensures (forall i :: 0 < i < m ==> !Stops(queue, i, byteSize)) <==> MayGroup(queue[..m], byteSize)
    {
      NobodyStops(queue, m, byteSize);
    }
    if IsGroup(queue, n, byteSize) {
      assert forall m :: n < m <= |queue| ==> !MayGroup(queue[..m], byteSize);
    } else if 0 < n < |queue| && MayGroup(queue[..n], byteSize) {
      assert !Stops(queue, n, byteSize);
      assert MayGroup(queue[..n + 1], byteSize);
    }
  }

  /** BuildBatchGroup: `n` writers of the queue make up the group, `result` is their batch. */
  method BuildBatchGroup(queue: seq<Writer>, byteSize: seq<Op> -> nat) returns (n: nat, result: seq<Op>)
    requires queue != [] && queue[0].batch.Some?
    ensures IsGroup(queue, n, byteSize)
    ensures result == GroupOps(queue[..n])
    ensures SyncAllowed(queue[..n])
  {
    hide GroupOps, GroupBytes, SyncAllowed;
    var first := queue[0];
    FirstOps(first, byteSize);
    result := first.batch.value;
    var size := byteSize(result);
    var maxSize := 1024 * 1024;
    if size <= 128 * 1024 {
      maxSize := size + 128 * 1024;
    }
    n := 1;
    assert queue[..1] == [first];
    while n < |queue|
      invariant 0 < n <= |queue|
      invariant result == GroupOps(queue[..n]) && size == GroupBytes(queue[..n], byteSize)
      invariant forall i :: 0 < i < n ==> !Stops(queue, i, byteSize)
    {
      var w := queue[n];
      OneMore(queue, n, byteSize);
      if w.sync && !first.sync {
        break;
      }
      if w.batch.Some? {
        size := size + byteSize(w.batch.value);
        if size > maxSize {
          break;
        }
        result := result + w.batch.value;
      }
      n := n + 1;
    }
    GroupIsAllowed(queue, n, byteSize);
  }

  lemma {:induction false} FirstOps(first: Writer, byteSize: seq<Op> -> nat)
    requires first.batch.Some?
    ensures GroupOps([first]) == first.batch.value && GroupBytes([first], byteSize) == byteSize(first.batch.value)
  {
    assert [first][..0] == [];
  }

  lemma {:induction false} OneMore(queue: seq<Writer>, n: nat, byteSize: seq<Op> -> nat)
    requires n < |queue|
    ensures GroupOps(queue[..n + 1]) == GroupOps(queue[..n]) + OpsOf(queue[n])
    ensures GroupBytes(queue[..n + 1], byteSize)
         == GroupBytes(queue[..n], byteSize) + if queue[n].batch.Some? then byteSize(queue[n].batch.value) else 0
  {
    assert queue[..n + 1][..n] == queue[..n];
  }

  lemma {:induction false} GroupIsAllowed(queue: seq<Writer>, n: nat, byteSize: seq<Op> -> nat)
    requires queue != [] && queue[0].batch.Some? && IsGroup(queue, n, byteSize)
    ensures SyncAllowed(queue[..n])
  {
    forall i | 0 < i < n && queue[i].sync
      ensures queue[0].sync
    {
      assert !Stops(queue, i, byteSize);
    }
  }

  // ----- the state of the queue -----

  // A group that is through; `logged` once its record is in the log.
  datatype Group = Group(members: seq<Writer>, first: nat, attempted: bool, logged: bool, outcome: Outcome)

  datatype Leader =
    | NoLeader
    | Appending(n: nat)
    | Syncing(n: nat)
    | Inserting(n: nat, inserted: nat)
    | Finishing(n: nat, logged: bool, outcome: Outcome, syncError: bool)

  datatype State = State(
    queue: seq<Writer>,
    leader: Leader,
    lastSequence: nat,
    log: seq<Record>,
    mem: seq<Insertion>,
    bgError: bool,
    groups: seq<Group>)

  function InsertionsFrom(ops: seq<Op>, first: nat): (r: seq<Insertion>)
    ensures |r| == |ops|
  {
    seq(|ops|, i requires 0 <= i < |ops| => Insertion(ops[i], first + i))
  }

  // ----- the steps -----

  ghost predicate Enqueue(s: State, w: Writer, s': State) {
    w.id == Arrived(s) && s' == s.(queue := s.queue + [w])
  }

  // How many writers have ever come.
  ghost function Arrived(s: State): nat {
    |Finished(s.groups)| + |s.queue|
  }

  // MakeRoomForWrite failed, or there is no batch: the front writer leaves alone.
  ghost predicate LeaveAlone(s: State, room: bool, s': State) {
    && s.leader.NoLeader? && s.queue != []
    && (s.bgError ==> !room) && (room ==> s.queue[0].batch.None?)
    && s' == s.(queue := s.queue[1..],
                groups := s.groups + [Group([s.queue[0]], s.lastSequence + 1, false, false, if room then Ok else Failed)])
  }

  ghost predicate Lead(s: State, n: nat, byteSize: seq<Op> -> nat, s': State) {
    && s.leader.NoLeader? && !s.bgError && s.queue != [] && s.queue[0].batch.Some?
    && IsGroup(s.queue, n, byteSize)
    && s' == s.(leader := Appending(n))
  }

  ghost predicate AppendRecord(s: State, ok: bool, s': State) {
    && s.leader.Appending? && 0 < s.leader.n <= |s.queue|
    && var n := s.leader.n;
       if ok then
         s' == s.(log := s.log + [Record(s.lastSequence + 1, GroupOps(s.queue[..n]))],
                  leader := if s.queue[0].sync then Syncing(n) else Inserting(n, 0))
       else
         s' == s.(leader := Finishing(n, false, Failed, false))
  }

  ghost predicate SyncLog(s: State, ok: bool, s': State) {
    && s.leader.Syncing?
    && s' == s.(leader := if ok then Inserting(s.leader.n, 0) else Finishing(s.leader.n, true, Failed, true))
  }

  // Readers run between the insertions of one batch.
  ghost predicate InsertOne(s: State, s': State) {
    && s.leader.Inserting? && s.leader.n <= |s.queue|
    && var ops := GroupOps(s.queue[..s.leader.n]);
       && s.leader.inserted < |ops|
       && s' == s.(mem := s.mem + [Insertion(ops[s.leader.inserted], s.lastSequence + 1 + s.leader.inserted)],
                   leader := s.leader.(inserted := s.leader.inserted + 1))
  }

  ghost predicate InsertionEnds(s: State, s': State) {
    && s.leader.Inserting? && s.leader.n <= |s.queue|
    && s.leader.inserted == |GroupOps(s.queue[..s.leader.n])|
    && s' == s.(leader := Finishing(s.leader.n, true, Ok, false))
  }

  // SetLastSequence, even when the append failed; then the group leaves the queue, and
  // every member gets the status of the group.
  ghost predicate FinishGroup(s: State, s': State) {
    && s.leader.Finishing? && s.leader.n <= |s.queue|
    && var f := s.leader;
       s' == s.(lastSequence := s.lastSequence + |GroupOps(s.queue[..f.n])|,
                bgError := s.bgError || f.syncError,
                queue := s.queue[f.n..],
                leader := NoLeader,
                groups := s.groups + [Group(s.queue[..f.n], s.lastSequence + 1, true, f.logged, f.outcome)])
  }

  datatype Step =
    | DoEnqueue(w: Writer)
    | DoLeaveAlone(room: bool)
    | DoLead(n: nat)
    | DoAppendRecord(ok: bool)
    | DoSyncLog(ok: bool)
    | DoInsertOne
    | DoInsertionEnds
    | DoFinishGroup

  ghost predicate Does(s: State, step: Step, byteSize: seq<Op> -> nat, s': State) {
    match step
    case DoEnqueue(w) => Enqueue(s, w, s')
    case DoLeaveAlone(room) => LeaveAlone(s, room, s')
    case DoLead(n) => Lead(s, n, byteSize, s')
    case DoAppendRecord(ok) => AppendRecord(s, ok, s')
    case DoSyncLog(ok) => SyncLog(s, ok, s')
    case DoInsertOne => InsertOne(s, s')
    case DoInsertionEnds => InsertionEnds(s, s')
    case DoFinishGroup => FinishGroup(s, s')
  }

  // ----- what the groups that are through amount to -----

  function Finished(groups: seq<Group>): seq<Writer> {
    if groups == [] then [] else Finished(groups[..|groups| - 1]) + groups[|groups| - 1].members
  }

  function Records(groups: seq<Group>): seq<Record> {
    if groups == [] then []
    else
      var g := groups[|groups| - 1];
      Records(groups[..|groups| - 1]) + if g.logged then [Record(g.first, GroupOps(g.members))] else []
  }

  // The sequence number that the next write after these groups gets, less one.
  function LastAfter(start: nat, groups: seq<Group>): nat {
    if groups == [] then start
    else
      var g := groups[|groups| - 1];
      LastAfter(start, groups[..|groups| - 1]) + if g.attempted then |GroupOps(g.members)| else 0
  }

  function Inserted(groups: seq<Group>): seq<Insertion>
  {
    if groups == [] then []
    else
      var g := groups[|groups| - 1];
      Inserted(groups[..|groups| - 1])
      + if g.attempted && g.outcome.Ok? then InsertionsFrom(GroupOps(g.members), g.first) else []
  }

  ghost predicate GoodGroup(g: Group, before: nat) {
    && g.members != [] && SyncAllowed(g.members)
    && g.first == before + 1
    && (g.attempted ==> g.members[0].batch.Some? && (g.outcome.Ok? ==> g.logged))
    && (!g.attempted ==> |g.members| == 1 && !g.logged && (g.outcome.Ok? ==> g.members[0].batch.None?))
  }

  // Every group starts right after the last sequence number of the ones before it.
  ghost predicate GoodGroups(start: nat, groups: seq<Group>) {
    forall i :: 0 <= i < |groups| ==> GoodGroup(groups[i], LastAfter(start, groups[..i]))
  }

  // Writers leave in the order in which they came, each of them once.
  ghost predicate InOrder(writers: seq<Writer>) {
    forall i :: 0 <= i < |writers| ==> writers[i].id == i
  }

  ghost predicate LeaderInv(s: State) {
    s.leader.NoLeader? ||
    (&& 0 < s.leader.n <= |s.queue| && s.queue[0].batch.Some? && SyncAllowed(s.queue[..s.leader.n])
     && !s.bgError
     && (s.leader.Inserting? ==> s.leader.inserted <= |GroupOps(s.queue[..s.leader.n])|)
     && (s.leader.Finishing? && s.leader.outcome.Ok? ==> s.leader.logged))
  }

  predicate LeaderLogged(l: Leader) {
    l.Syncing? || l.Inserting? || (l.Finishing? && l.logged)
  }

  // How many operations of the group in progress are in the memtable.
  function LeaderInserted(s: State): nat
    requires s.leader.Finishing? ==> s.leader.n <= |s.queue|
  {
    match s.leader
    case Inserting(n, inserted) => inserted
    case Finishing(n, logged, outcome, syncError) => if outcome.Ok? then |GroupOps(s.queue[..n])| else 0
    case _ => 0
  }

  ghost predicate Inv(s: State, start: nat) {
    && GoodGroups(start, s.groups)
    && s.lastSequence == LastAfter(start, s.groups)
    && InOrder(Finished(s.groups) + s.queue)
    && LeaderInv(s)
    && s.log == Records(s.groups)
                + (if LeaderLogged(s.leader) then [Record(s.lastSequence + 1, GroupOps(s.queue[..s.leader.n]))] else [])
    && MemInv(s)
  }

  ghost predicate MemInv(s: State)
    requires LeaderInv(s)
  {
    s.mem == Inserted(s.groups)
                + (if s.leader.NoLeader? then []
                   else InsertionsFrom(GroupOps(s.queue[..s.leader.n]), s.lastSequence + 1)[..LeaderInserted(s)])
  }

  // ----- every step keeps the invariant -----

  lemma {:induction false} OneMoreGroup(start: nat, groups: seq<Group>, g: Group)
    requires GoodGroups(start, groups) && GoodGroup(g, LastAfter(start, groups))
    ensures GoodGroups(start, groups + [g])
    ensures Finished(groups + [g]) == Finished(groups) + g.members
    ensures Records(groups + [g]) == Records(groups) + if g.logged then [Record(g.first, GroupOps(g.members))] else []
    ensures LastAfter(start, groups + [g]) == LastAfter(start, groups) + if g.attempted then |GroupOps(g.members)| else 0
    ensures Inserted(groups + [g])
         == Inserted(groups) + if g.attempted && g.outcome.Ok? then InsertionsFrom(GroupOps(g.members), g.first) else []
  {
    var all := groups + [g];
    assert all[..|groups|] == groups;
    forall i | 0 <= i < |all|
      ensures GoodGroup(all[i], LastAfter(start, all[..i]))
    {
      if i < |groups| {
        assert all[..i] == groups[..i];
        assert GoodGroup(groups[i], LastAfter(start, groups[..i]));
      }
    }
  }

  // A writer that joins at the end does not change the group in progress.
  lemma {:induction false} EnqueueKeeps(s: State, w: Writer, s': State, start: nat)
    requires Inv(s, start) && Enqueue(s, w, s')
    ensures Inv(s', start)
  {
    hide GoodGroups, SyncAllowed;
    if !s.leader.NoLeader? {
      assert s'.queue[..s.leader.n] == s.queue[..s.leader.n];
    }
    assert Finished(s.groups) + s'.queue == (Finished(s.groups) + s.queue) + [w];
  }

  lemma {:induction false} LeaveAloneKeeps(s: State, room: bool, s': State, start: nat)
    requires Inv(s, start) && LeaveAlone(s, room, s')
    ensures Inv(s', start)
  {
    hide GoodGroups, Records, Inserted, LastAfter, Finished, GroupOps, InOrder;
    OneMoreGroup(start, s.groups, s'.groups[|s.groups|]);
    assert s.queue == [s.queue[0]] + s.queue[1..];
    assert Finished(s'.groups) + s'.queue == Finished(s.groups) + s.queue;
  }

  lemma {:induction false} LeadKeeps(s: State, n: nat, byteSize: seq<Op> -> nat, s': State, start: nat)
    requires Inv(s, start) && Lead(s, n, byteSize, s')
    ensures Inv(s', start)
  {
    GroupIsAllowed(s.queue, n, byteSize);
    hide GoodGroups, SyncAllowed, IsGroup;
    assert InsertionsFrom(GroupOps(s.queue[..n]), s.lastSequence + 1)[..0] == [];
  }

  lemma {:induction false} AppendRecordKeeps(s: State, ok: bool, s': State, start: nat)
    requires Inv(s, start) && AppendRecord(s, ok, s')
    ensures Inv(s', start)
  {
    hide GoodGroups, SyncAllowed;
  }

  lemma {:induction false} SyncLogKeeps(s: State, ok: bool, s': State, start: nat)
    requires Inv(s, start) && SyncLog(s, ok, s')
    ensures Inv(s', start)
  {
    hide GoodGroups, SyncAllowed;
  }

  lemma {:induction false} InsertOneKeeps(s: State, s': State, start: nat)
    requires Inv(s, start) && InsertOne(s, s')
    ensures Inv(s', start)
  {
    hide GoodGroups, SyncAllowed;
    var es := InsertionsFrom(GroupOps(s.queue[..s.leader.n]), s.lastSequence + 1);
    var k := s.leader.inserted;
    assert es[..k + 1] == es[..k] + [es[k]];
  }

  lemma {:induction false} InsertionEndsKeeps(s: State, s': State, start: nat)
    requires Inv(s, start) && InsertionEnds(s, s')
    ensures Inv(s', start)
  {
    hide GoodGroups, SyncAllowed;
  }

  lemma {:induction false} FinishGroupKeeps(s: State, s': State, start: nat)
    requires Inv(s, start) && FinishGroup(s, s')
    ensures Inv(s', start)
  {
    hide GoodGroups, SyncAllowed, Records, Inserted, LastAfter, Finished, GroupOps, InOrder;
    var n := s.leader.n;
    var es := InsertionsFrom(GroupOps(s.queue[..n]), s.lastSequence + 1);
    OneMoreGroup(start, s.groups, s'.groups[|s.groups|]);
    assert es[..|es|] == es && es[..0] == [];
    assert s.queue == s.queue[..n] + s.queue[n..];
    assert Finished(s'.groups) + s'.queue == Finished(s.groups) + s.queue;
  }

  lemma {:induction false} StepKeepsInv(s: State, step: Step, byteSize: seq<Op> -> nat, s': State, start: nat)
    requires Inv(s, start) && Does(s, step, byteSize, s')
    ensures Inv(s', start)
  {
    hide Inv, Enqueue, LeaveAlone, Lead, AppendRecord, SyncLog, InsertOne, InsertionEnds, FinishGroup;
    match step
    case DoEnqueue(w) => EnqueueKeeps(s, w, s', start);
    case DoLeaveAlone(room) => LeaveAloneKeeps(s, room, s', start);
    case DoLead(n) => LeadKeeps(s, n, byteSize, s', start);
    case DoAppendRecord(ok) => AppendRecordKeeps(s, ok, s', start);
    case DoSyncLog(ok) => SyncLogKeeps(s, ok, s', start);
    case DoInsertOne => InsertOneKeeps(s, s', start);
    case DoInsertionEnds => InsertionEndsKeeps(s, s', start);
    case DoFinishGroup => FinishGroupKeeps(s, s', start);
  }

  // ----- whole runs -----

  ghost predicate IsRun(run: seq<State>, steps: seq<Step>, byteSize: seq<Op> -> nat, start: nat) {
    && run != [] && run[0] == State([], NoLeader, start, [], [], false, [])
    && |steps| == |run| - 1
    && forall i :: 0 <= i < |steps| ==> Does(run[i], steps[i], byteSize, run[i + 1])
  }

  lemma {:induction false} RunKeepsInv(run: seq<State>, steps: seq<Step>, byteSize: seq<Op> -> nat, start: nat, i: nat)
    requires IsRun(run, steps, byteSize, start) && i < |run|
    ensures Inv(run[i], start)
  {
    hide Does;
    if i > 0 {
      hide Inv;
      RunKeepsInv(run, steps, byteSize, start, i - 1);
      StepKeepsInv(run[i - 1], steps[i - 1], byteSize, run[i], start);
    }
  }

  // Where the operations of a member lie in its group.
  lemma {:induction false} MemberPlace(members: seq<Writer>, j: nat)
    requires j < |members|
    ensures |GroupOps(members[..j])| + |OpsOf(members[j])| <= |GroupOps(members)|
    ensures forall t :: 0 <= t < |OpsOf(members[j])| ==>
              |GroupOps(members[..j])| + t < |GroupOps(members)|
              && GroupOps(members)[|GroupOps(members[..j])| + t] == OpsOf(members[j])[t]
  {
    var n := |members| - 1;
    if j < n {
      MemberPlace(members[..n], j);
      assert members[..n][..j] == members[..j];
    }
  }

  // The place of a group in the memtable.
  lemma {:induction false} GroupInMem(groups: seq<Group>, i: nat, k: nat)
    requires i < |groups| && groups[i].attempted && groups[i].outcome.Ok? && k < |GroupOps(groups[i].members)|
    ensures |Inserted(groups[..i])| + k < |Inserted(groups)|
    ensures Inserted(groups)[|Inserted(groups[..i])| + k] == Insertion(GroupOps(groups[i].members)[k], groups[i].first + k)
  {
    hide GroupOps, Inserted;
    var n := |groups| - 1;
    LastInserted(groups);
    if i < n {
      GroupInMem(groups[..n], i, k);
      assert groups[..n][..i] == groups[..i];
    }
  }

  lemma {:induction false} LastInserted(groups: seq<Group>)
    requires groups != []
    ensures var g := groups[|groups| - 1];
      Inserted(groups) == Inserted(groups[..|groups| - 1])
                          + if g.attempted && g.outcome.Ok? then InsertionsFrom(GroupOps(g.members), g.first) else []
  {
  }

  // The place of its record in the log.
  lemma {:induction false} GroupInLog(groups: seq<Group>, i: nat)
    requires i < |groups| && groups[i].logged
    ensures |Records(groups[..i])| < |Records(groups)|
    ensures Records(groups)[|Records(groups[..i])|] == Record(groups[i].first, GroupOps(groups[i].members))
  {
    hide GroupOps;
    var n := |groups| - 1;
    if i < n {
      GroupInLog(groups[..n], i);
      assert groups[..n][..i] == groups[..i];
    }
  }

  /**
   A successful write is logged once and inserted once, under consecutive sequence
   numbers: in any reachable state, member `j` of a successful group `i` has its
   operations in the group's log record and in the memtable, right behind those of the
   writers before it; no other record covers an operation's sequence number, and no other
   insertion has it.
   */
  lemma {:induction false} SuccessIsCommitted(run: seq<State>, steps: seq<Step>, byteSize: seq<Op> -> nat, start: nat, at: nat,
                                              i: nat, j: nat, t: nat)
    requires IsRun(run, steps, byteSize, start) && at < |run| && i < |run[at].groups|
    requires var g := run[at].groups[i]; g.attempted && g.outcome.Ok? && j < |g.members| && t < |OpsOf(g.members[j])|
    ensures var s, g := run[at], run[at].groups[i];
      var offset := |GroupOps(g.members[..j])| + t;
      var inLog, inMem := |Records(s.groups[..i])|, |Inserted(s.groups[..i])| + offset;
      && inLog < |s.log| && s.log[inLog] == Record(g.first, GroupOps(g.members))
      && g.first == LastAfter(start, s.groups[..i]) + 1
      && offset < |GroupOps(g.members)| && GroupOps(g.members)[offset] == OpsOf(g.members[j])[t]
      && inMem < |s.mem| && s.mem[inMem] == Insertion(OpsOf(g.members[j])[t], g.first + offset)
      && (forall k :: 0 <= k < |s.log| && Covers(s.log[k], g.first + offset) ==> k == inLog)
      && (forall k :: 0 <= k < |s.mem| && s.mem[k].sequence == g.first + offset ==> k == inMem)
  {
    hide IsRun, Does, Inv, Records, Inserted, GroupOps, LastAfter, Rising, LogRising;
    RunKeepsInv(run, steps, byteSize, start, at);
    var s, g := run[at], run[at].groups[i];
    GroupFacts(s, start, i);
    MemberPlace(g.members, j);
    GroupInMem(s.groups, i, |GroupOps(g.members[..j])| + t);
    GroupInLog(s.groups, i);
    NumbersOnlyRise(s, start);
    RisingOnce(s.mem, |Inserted(s.groups[..i])| + |GroupOps(g.members[..j])| + t);
    CoveredOnce(s.log, |Records(s.groups[..i])|, g.first + |GroupOps(g.members[..j])| + t);
  }

  /**
   In any reachable state the memtable has every sequence number at most once, in rising
   order, and so have the records of the log, of which there is one for every logged group
   and at most one more, that of the group in progress.
   */
  lemma {:induction false} NothingTwice(run: seq<State>, steps: seq<Step>, byteSize: seq<Op> -> nat, start: nat, at: nat)
    requires IsRun(run, steps, byteSize, start) && at < |run|
    ensures Rising(run[at].mem) && LogRising(run[at].log)
    ensures Records(run[at].groups) <= run[at].log && |run[at].log| <= |Records(run[at].groups)| + 1
  {
    hide IsRun, Does, Inv, Records, Rising, LogRising;
    RunKeepsInv(run, steps, byteSize, start, at);
    NumbersOnlyRise(run[at], start);
  }

  predicate Covers(r: Record, n: nat) {
    r.first <= n < r.first + |r.ops|
  }

  ghost predicate Rising(mem: seq<Insertion>) {
    forall i, j :: 0 <= i < j < |mem| ==> mem[i].sequence < mem[j].sequence
  }

  ghost predicate LogRising(log: seq<Record>) {
    forall i, j :: 0 <= i < j < |log| ==> log[i].first + |log[i].ops| <= log[j].first
  }

  lemma {:induction false} RisingOnce(mem: seq<Insertion>, at: nat)
    requires Rising(mem) && at < |mem|
    ensures forall k :: 0 <= k < |mem| && mem[k].sequence == mem[at].sequence ==> k == at
  {
  }

  lemma {:induction false} CoveredOnce(log: seq<Record>, at: nat, n: nat)
    requires LogRising(log) && at < |log| && Covers(log[at], n)
    ensures forall k :: 0 <= k < |log| && Covers(log[k], n) ==> k == at
  {
  }

  lemma {:induction false} InsertedRises(start: nat, groups: seq<Group>)
    requires GoodGroups(start, groups)
    ensures Rising(Inserted(groups))
  {
    hide GroupOps;
    if groups != [] {
      var n := |groups| - 1;
      assert GoodGroup(groups[n], LastAfter(start, groups[..n]));
      PrefixIsGood(start, groups, n);
      InsertedRises(start, groups[..n]);
      InsertedUpTo(start, groups[..n]);
    }
  }

  lemma {:induction false} RecordsRise(start: nat, groups: seq<Group>)
    requires GoodGroups(start, groups)
    ensures LogRising(Records(groups))
    ensures forall r :: r in Records(groups) ==> r.first + |r.ops| <= LastAfter(start, groups) + 1
  {
    hide GroupOps;
    if groups != [] {
      var n := |groups| - 1;
      assert GoodGroup(groups[n], LastAfter(start, groups[..n]));
      PrefixIsGood(start, groups, n);
      RecordsRise(start, groups[..n]);
    }
  }

  lemma {:induction false} NumbersOnlyRise(s: State, start: nat)
    requires Inv(s, start)
    ensures Rising(s.mem) && LogRising(s.log)
    ensures Records(s.groups) <= s.log && |s.log| <= |Records(s.groups)| + 1
  {
    hide GoodGroups, LastAfter, Records, Inserted, GroupOps, InOrder, SyncAllowed, Finished;
    InsertedRises(start, s.groups);
    InsertedUpTo(start, s.groups);
    RecordsRise(start, s.groups);
  }

  lemma {:induction false} GroupFacts(s: State, start: nat, i: nat)
    requires Inv(s, start) && i < |s.groups|
    ensures GoodGroup(s.groups[i], LastAfter(start, s.groups[..i]))
    ensures Inserted(s.groups) <= s.mem && Records(s.groups) <= s.log
  {
    hide Records, Inserted, GroupOps, LastAfter, InOrder, SyncAllowed, Finished;
  }

  /** Writers are served in the order of their arrival, none of them twice. */
  lemma {:induction false} ServedInOrder(run: seq<State>, steps: seq<Step>, byteSize: seq<Op> -> nat, start: nat, at: nat)
    requires IsRun(run, steps, byteSize, start) && at < |run|
    ensures InOrder(Finished(run[at].groups) + run[at].queue)
  {
    hide IsRun, Does, InOrder;
    RunKeepsInv(run, steps, byteSize, start, at);
  }

  // ----- what a sync is worth -----

  // A step belongs to group `i` if the groups before it, and no others, are through.
  ghost predicate NotInserted(run: seq<State>, steps: seq<Step>, p: nat, i: nat) {
    forall q :: 0 <= q < p && q < |steps| && q < |run| && |run[q].groups| == i ==> steps[q] != DoInsertOne
  }

  // Step `a` of the group put its record into the log.
  ghost predicate Appended(run: seq<State>, steps: seq<Step>, p: nat, i: nat, r: Record, a: nat) {
    && a < p <= |steps| && |steps| < |run|
    && steps[a] == DoAppendRecord(true) && |run[a].groups| == i && run[a + 1].log == run[a].log + [r]
  }

  // Later, at step `b`, the log was synced, and only behind that step the group inserts.
  ghost predicate Synced(run: seq<State>, steps: seq<Step>, p: nat, i: nat, r: Record, a: nat, b: nat) {
    && Appended(run, steps, b, i, r, a) && b < p <= |steps|
    && steps[b] == DoSyncLog(true) && |run[b].groups| == i
    && forall q :: 0 <= q < p && |run[q].groups| == i && steps[q] == DoInsertOne ==> b < q
  }

  // An error of the file system in the group.
  ghost predicate Refused(run: seq<State>, steps: seq<Step>, p: nat, i: nat) {
    exists q :: 0 <= q < p && q < |steps| && q < |run| && |run[q].groups| == i
                && (steps[q] == DoAppendRecord(false) || steps[q] == DoSyncLog(false))
  }

  function RecordInProgress(s: State): Record
    requires !s.leader.NoLeader? && s.leader.n <= |s.queue|
  {
    Record(s.lastSequence + 1, GroupOps(s.queue[..s.leader.n]))
  }

  // What the steps of the group in progress have done up to step `p`.
  ghost predicate History(run: seq<State>, steps: seq<Step>, p: nat)
    requires p < |run|
  {
    var s := run[p];
    var i := |s.groups|;
    match s.leader
    case NoLeader => NotInserted(run, steps, p, i)
    case Appending(_) => NotInserted(run, steps, p, i)
    case Syncing(n) =>
      && 0 < n <= |s.queue| && s.queue[0].sync && NotInserted(run, steps, p, i)
      && exists a :: Appended(run, steps, p, i, RecordInProgress(s), a)
    case Inserting(n, _) =>
      0 < n <= |s.queue| && (s.queue[0].sync ==> exists a, b :: Synced(run, steps, p, i, RecordInProgress(s), a, b))
    case Finishing(n, _, outcome, _) =>
      && 0 < n <= |s.queue|
      && (outcome.Ok? && s.queue[0].sync ==> exists a, b :: Synced(run, steps, p, i, RecordInProgress(s), a, b))
      && (outcome.Failed? ==> Refused(run, steps, p, i))
  }

  lemma {:induction false} GroupsOnlyGrow(run: seq<State>, steps: seq<Step>, byteSize: seq<Op> -> nat, start: nat, q: nat, p: nat)
    requires IsRun(run, steps, byteSize, start) && q <= p < |run|
    ensures run[q].groups <= run[p].groups
    decreases p
  {
    if q < p {
      GroupsOnlyGrow(run, steps, byteSize, start, q, p - 1);
      assert Does(run[p - 1], steps[p - 1], byteSize, run[p]);
    }
  }

  lemma {:induction false} NothingInsertedYet(run: seq<State>, steps: seq<Step>, byteSize: seq<Op> -> nat, start: nat, p: nat, i: nat)
    requires IsRun(run, steps, byteSize, start) && p < |run| && |run[p].groups| < i
    ensures NotInserted(run, steps, p + 1, i)
  {
    hide Does;
    forall q | 0 <= q <= p
      ensures |run[q].groups| < i
    {
      GroupsOnlyGrow(run, steps, byteSize, start, q, p);
    }
  }

  // The history goes on by one step that does not end the group.
  lemma {:induction false} HistoryGoesOn(run: seq<State>, steps: seq<Step>, byteSize: seq<Op> -> nat, start: nat, p: nat)
    requires IsRun(run, steps, byteSize, start) && p < |steps| && LeaderInv(run[p]) && History(run, steps, p)
    requires !steps[p].DoLeaveAlone? && !steps[p].DoFinishGroup?
    ensures History(run, steps, p + 1)
  {
    hide GroupOps, SyncAllowed, IsGroup;
    var s, s' := run[p], run[p + 1];
    assert Does(s, steps[p], byteSize, s');
    var i := |s.groups|;
    if !s.leader.NoLeader? && !s'.leader.NoLeader? {
      assert s'.leader.n == s.leader.n && s'.queue[..s.leader.n] == s.queue[..s.leader.n];
      var r := RecordInProgress(s);
      assert RecordInProgress(s') == r;
      if s.leader.Syncing? {
        var a :| Appended(run, steps, p, i, r, a);
        assert Appended(run, steps, p + 1, i, r, a);
        assert steps[p] == DoSyncLog(true) ==> Synced(run, steps, p + 1, i, r, a, p);
      }
      assert steps[p] == DoAppendRecord(true) ==> Appended(run, steps, p + 1, i, r, p);
      if (s.leader.Inserting? || s.leader.Finishing?) && exists a, b :: Synced(run, steps, p, i, r, a, b) {
        var a, b :| Synced(run, steps, p, i, r, a, b);
        assert Synced(run, steps, p + 1, i, r, a, b);
      }
    }
  }

  lemma {:induction false} RunHasHistory(run: seq<State>, steps: seq<Step>, byteSize: seq<Op> -> nat, start: nat, p: nat)
    requires IsRun(run, steps, byteSize, start) && p < |run|
    ensures LeaderInv(run[p]) && History(run, steps, p)
  {
    hide Does, Inv, History, GroupOps;
    RunKeepsInv(run, steps, byteSize, start, p);
    LeaderOf(run[p], start);
    if p == 0 {
      NoHistory(run, steps);
    } else {
      RunHasHistory(run, steps, byteSize, start, p - 1);
      if steps[p - 1].DoLeaveAlone? || steps[p - 1].DoFinishGroup? {
        EndsGroup(run, steps, byteSize, start, p - 1);
        NothingInsertedYet(run, steps, byteSize, start, p - 1, |run[p].groups|);
        FreshHistory(run, steps, p);
      } else {
        HistoryGoesOn(run, steps, byteSize, start, p - 1);
      }
    }
  }

  lemma {:induction false} LeaderOf(s: State, start: nat)
    requires Inv(s, start)
    ensures LeaderInv(s)
  {
    hide GoodGroups, LastAfter, Records, Inserted, GroupOps, InOrder, SyncAllowed, Finished;
  }

  lemma {:induction false} NoHistory(run: seq<State>, steps: seq<Step>)
    requires run != [] && run[0].leader.NoLeader?
    ensures History(run, steps, 0)
  {
  }

  lemma {:induction false} FreshHistory(run: seq<State>, steps: seq<Step>, p: nat)
    requires p < |run| && run[p].leader.NoLeader? && NotInserted(run, steps, p, |run[p].groups|)
    ensures History(run, steps, p)
  {
  }

  lemma {:induction false} EndsGroup(run: seq<State>, steps: seq<Step>, byteSize: seq<Op> -> nat, start: nat, p: nat)
    requires IsRun(run, steps, byteSize, start) && p < |steps|
    requires steps[p].DoLeaveAlone? || steps[p].DoFinishGroup?
    ensures run[p + 1].leader.NoLeader? && |run[p + 1].groups| == |run[p].groups| + 1
  {
    assert Does(run[p], steps[p], byteSize, run[p + 1]);
  }

  // The step with which a group was through.
  lemma {:induction false} LastStepOf(run: seq<State>, steps: seq<Step>, byteSize: seq<Op> -> nat, start: nat, at: nat, i: nat) returns (e: nat)
    requires IsRun(run, steps, byteSize, start) && at < |run| && i < |run[at].groups|
    ensures e < at && |run[e].groups| == i && run[e + 1].groups == run[e].groups + [run[at].groups[i]]
  {
    assert Does(run[at - 1], steps[at - 1], byteSize, run[at]);
    if i < |run[at - 1].groups| {
      e := LastStepOf(run, steps, byteSize, start, at - 1, i);
    } else {
      e := at - 1;
    }
  }

  // A group that got Ok, and whose first member asked for a sync, is in the log and synced.
  ghost predicate SyncedGroup(run: seq<State>, steps: seq<Step>, i: nat, g: Group, a: nat, b: nat, e: nat) {
    && a < b < e < |steps| && |steps| < |run|
    && |run[a].groups| == |run[b].groups| == |run[e].groups| == i
    && steps[a] == DoAppendRecord(true) && run[a + 1].log == run[a].log + [Record(g.first, GroupOps(g.members))]
    && steps[b] == DoSyncLog(true)
    && steps[e] == DoFinishGroup && run[e + 1].groups == run[e].groups + [g]
    && forall q :: 0 <= q < |steps| && |run[q].groups| == i && steps[q] == DoInsertOne ==> b < q < e
  }

  /**
   A write that asked for a sync and was answered Ok was synced: in every run, its group has
   a step of its own that put its record into the log, behind that a successful sync of its
   own, and only behind that its insertions.
   */
  lemma {:induction false} SyncIsHonoured(run: seq<State>, steps: seq<Step>, byteSize: seq<Op> -> nat, start: nat, at: nat, i: nat, j: nat)
    returns (a: nat, b: nat, e: nat)
    requires IsRun(run, steps, byteSize, start) && at < |run| && i < |run[at].groups|
    requires var g := run[at].groups[i]; j < |g.members| && g.members[j].sync && g.members[j].batch.Some? && g.outcome.Ok?
    ensures SyncedGroup(run, steps, i, run[at].groups[i], a, b, e) && e < at
  {
    hide Does, Inv, History, GroupOps, InOrder;
    var g := run[at].groups[i];
    RunKeepsInv(run, steps, byteSize, start, at);
    GroupFacts(run[at], start, i);
    e := LastStepOf(run, steps, byteSize, start, at, i);
    RunHasHistory(run, steps, byteSize, start, e);
    FinishedOk(run, steps, byteSize, start, e, g);
    a, b :| Synced(run, steps, e, i, Record(g.first, GroupOps(g.members)), a, b);
    forall q | 0 <= q < |steps| && |run[q].groups| == i && steps[q] == DoInsertOne
      ensures b < q < e
    {
      if e < q {
        GroupsOnlyGrow(run, steps, byteSize, start, e + 1, q);
      }
    }
  }

  lemma {:induction false} FinishedOk(run: seq<State>, steps: seq<Step>, byteSize: seq<Op> -> nat, start: nat, e: nat, g: Group)
    requires IsRun(run, steps, byteSize, start) && e < |steps| && LeaderInv(run[e]) && History(run, steps, e)
    requires run[e + 1].groups == run[e].groups + [g] && g.outcome.Ok? && g.members != []
    requires SyncAllowed(g.members) && exists j :: 0 <= j < |g.members| && g.members[j].sync && g.members[j].batch.Some?
    ensures steps[e] == DoFinishGroup
    ensures exists a, b :: Synced(run, steps, e, |run[e].groups|, Record(g.first, GroupOps(g.members)), a, b)
  {
    hide GroupOps, Synced, Appended, NotInserted, Refused;
    assert Does(run[e], steps[e], byteSize, run[e + 1]);
    assert (run[e].groups + [g])[|run[e].groups|] == g;
    var j :| 0 <= j < |g.members| && g.members[j].sync && g.members[j].batch.Some?;
    assert g.members[0].sync;
  }

  /** Only groups that asked for it are synced. */
  lemma {:induction false} SyncWasAsked(run: seq<State>, steps: seq<Step>, byteSize: seq<Op> -> nat, start: nat, p: nat)
    requires IsRun(run, steps, byteSize, start) && p < |steps| && steps[p].DoSyncLog?
    ensures run[p].queue != [] && run[p].queue[0].sync
  {
    hide NotInserted, Appended;
    assert Does(run[p], steps[p], byteSize, run[p + 1]);
    RunHasHistory(run, steps, byteSize, start, p);
  }

  /** A group that led and was answered with an error met an error of the file system. */
  lemma {:induction false} FailureHasACause(run: seq<State>, steps: seq<Step>, byteSize: seq<Op> -> nat, start: nat, at: nat, i: nat)
    requires IsRun(run, steps, byteSize, start) && at < |run| && i < |run[at].groups|
    requires run[at].groups[i].attempted && run[at].groups[i].outcome.Failed?
    ensures Refused(run, steps, at, i)
  {
    hide Synced, Appended, NotInserted, GroupOps;
    var e := LastStepOf(run, steps, byteSize, start, at, i);
    RunHasHistory(run, steps, byteSize, start, e);
    assert Does(run[e], steps[e], byteSize, run[e + 1]);
    assert (run[e].groups + [run[at].groups[i]])[i] == run[at].groups[i];
    assert Refused(run, steps, e, i);
    var q :| 0 <= q < e && |run[q].groups| == i && (steps[q] == DoAppendRecord(false) || steps[q] == DoSyncLog(false));
    assert q < at;
  }

  // What a failed sync leaves behind: its group in progress, or the error for good.
  ghost predicate AfterFailedSync(s: State, b: State) {
    && s.log == b.log && s.mem == b.mem && |b.groups| <= |s.groups|
    && (forall k :: |b.groups| <= k < |s.groups| ==> s.groups[k].outcome.Failed?)
    && (if |s.groups| == |b.groups| then s.leader.Finishing? && s.leader.outcome.Failed? && s.leader.syncError
        else s.leader.NoLeader? && s.bgError)
  }

  /**
   After a failed sync the group fails, and so does every later one; nothing more is logged
   or inserted.
   */
  lemma {:induction false} FailedSyncIsFinal(run: seq<State>, steps: seq<Step>, byteSize: seq<Op> -> nat, start: nat, b: nat, at: nat)
    requires IsRun(run, steps, byteSize, start) && b < |steps| && steps[b] == DoSyncLog(false) && b < at < |run|
    ensures forall k :: |run[b].groups| <= k < |run[at].groups| ==> run[at].groups[k].outcome.Failed?
    ensures run[at].log == run[b].log && run[at].mem == run[b].mem
    ensures AfterFailedSync(run[at], run[b])
    decreases at
  {
    assert Does(run[at - 1], steps[at - 1], byteSize, run[at]);
    if b < at - 1 {
      FailedSyncIsFinal(run, steps, byteSize, start, b, at - 1);
    }
  }

  /** The sequence numbers of a group are never used again, whatever became of it. */
  lemma {:induction false} NumbersAreNotReused(run: seq<State>, steps: seq<Step>, byteSize: seq<Op> -> nat, start: nat, at: nat, i: nat, j: nat)
    requires IsRun(run, steps, byteSize, start) && at < |run| && i < j < |run[at].groups|
    requires run[at].groups[i].attempted
    ensures run[at].groups[i].first + |GroupOps(run[at].groups[i].members)| <= run[at].groups[j].first
  {
    hide IsRun, Does, Inv, GroupOps;
    var groups := run[at].groups;
    RunKeepsInv(run, steps, byteSize, start, at);
    GroupFacts(run[at], start, i);
    GroupFacts(run[at], start, j);
    assert groups[..i + 1][..i] == groups[..i];
    LastAfterGrows(start, groups[..j], i + 1);
    assert groups[..j][..i + 1] == groups[..i + 1];
  }

  // ----- readers -----

  lemma {:induction false} LastAfterGrows(start: nat, groups: seq<Group>, i: nat)
    requires i <= |groups|
    ensures LastAfter(start, groups[..i]) <= LastAfter(start, groups)
  {
    if i < |groups| {
      LastAfterGrows(start, groups[..|groups| - 1], i);
      assert groups[..|groups| - 1][..i] == groups[..i];
    } else {
      assert groups[..i] == groups;
    }
  }

  // The entries of the first groups end at their last sequence number.
  lemma {:induction false} InsertedUpTo(start: nat, groups: seq<Group>)
    requires GoodGroups(start, groups)
    ensures forall e :: e in Inserted(groups) ==> start < e.sequence <= LastAfter(start, groups)
  {
    if groups != [] {
      var n := |groups| - 1;
      var g := groups[n];
      assert GoodGroup(groups[n], LastAfter(start, groups[..n]));
      assert GoodGroups(start, groups[..n]) by {
        PrefixIsGood(start, groups, n);
      }
      InsertedUpTo(start, groups[..n]);
      LastAfterGrows(start, groups[..n], 0);
      assert groups[..n][..0] == [];
    }
  }

  lemma {:induction false} PrefixIsGood(start: nat, groups: seq<Group>, n: nat)
    requires GoodGroups(start, groups) && n <= |groups|
    ensures GoodGroups(start, groups[..n])
  {
    forall i | 0 <= i < n
      ensures GoodGroup(groups[..n][i], LastAfter(start, groups[..n][..i]))
    {
      assert groups[..n][..i] == groups[..i];
    }
  }

  // Entries of later groups start behind it.
  lemma {:induction false} InsertedSplit(start: nat, groups: seq<Group>, i: nat)
    requires GoodGroups(start, groups) && i <= |groups|
    ensures forall e :: e in Inserted(groups) ==>
              (e in Inserted(groups[..i]) <==> e.sequence <= LastAfter(start, groups[..i]))
    ensures forall e :: e in Inserted(groups[..i]) ==> e in Inserted(groups)
  {
    var n := |groups| - 1;
    if i == |groups| {
      assert groups[..i] == groups;
      InsertedUpTo(start, groups);
    } else {
      PrefixIsGood(start, groups, n);
      PrefixIsGood(start, groups, i);
      InsertedSplit(start, groups[..n], i);
      assert groups[..n][..i] == groups[..i];
      assert GoodGroup(groups[n], LastAfter(start, groups[..n]));
      LastAfterGrows(start, groups[..n], i);
      InsertedUpTo(start, groups[..i]);
    }
  }

  /**
   A reader never sees part of a batch.  A reader took its sequence number when the
   first `i` groups were through; whatever has been inserted since, it sees exactly
   the entries of the successful ones among these groups.
   */
  lemma {:induction false} ReadersSeeWholeGroups(run: seq<State>, steps: seq<Step>, byteSize: seq<Op> -> nat, start: nat, at: nat, i: nat,
                                                 e: Insertion)
    requires IsRun(run, steps, byteSize, start) && at < |run| && i <= |run[at].groups|
    ensures LastAfter(start, run[at].groups) == run[at].lastSequence
    ensures (e in run[at].mem && e.sequence <= LastAfter(start, run[at].groups[..i])) <==> e in Inserted(run[at].groups[..i])
  {
    hide IsRun, Does, InOrder, Records, SyncAllowed;
    var s := run[at];
    RunKeepsInv(run, steps, byteSize, start, at);
    InsertedSplit(start, s.groups, i);
    LastAfterGrows(start, s.groups, i);
    if !s.leader.NoLeader? {
      var es := InsertionsFrom(GroupOps(s.queue[..s.leader.n]), s.lastSequence + 1);
      assert forall o :: o in es ==> s.lastSequence < o.sequence;
      assert e in es[..LeaderInserted(s)] ==> e in es;
    }
  }
}
