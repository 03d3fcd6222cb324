/** The two threads of the tracker: one fills the queue from the network, one empties it. */
module Tracker {
  import opened Words
  import opened Queue
  import Messages

  datatype MessageType = Heartbeat | Netinfo | P2p | Exit | AcknowledgeNetinfo

  datatype Item = Item(mtype: MessageType, address: Messages.PeerAddress)

  predicate SameAddress(a: Messages.PeerAddress, b: Messages.PeerAddress): (same: bool)
    ensures same <==> a == b
  {
    a.family == b.family && a.port == b.port && a.addr == b.addr
  }

  predicate Matches(other: Item, item: Item) {
    other.mtype.Heartbeat? && SameAddress(other.address, item.address)
  }

  /** A heartbeat from the address of the item is waiting. */
  predicate Duplicate(queue: seq<Item>, item: Item) {
    exists i :: 0 <= i < |queue| && Matches(queue[i], item)
  }

  ghost predicate AtMostOneHeartbeat(queue: seq<Item>) {
    forall i, j :: 0 <= i < j < |queue| && queue[i].mtype.Heartbeat? ==> !Matches(queue[j], queue[i])
  }

  // ------------------------------------------------- the threads, one at a time

  /** The scan of the waiting items, newest first. */
  method Scan(q: QueueLock<Item>, item: Item) returns (found: bool)
    requires q.Valid()
    ensures found <==> Duplicate(q.contents, item)
  {
    found := false;
    var i := 1;
    while i <= q.size
      invariant 1 <= i <= q.size + 1
      invariant !found
      invariant forall k :: q.size - i < k < q.size ==> !Matches(q.contents[k], item)
    {
      IndexIsSlot(q.top, i, q.maxSize);
      assert Holding(q.contents, q.data[..], q.top, q.size - i);
      if Matches(q.data[Index(q.top, i, q.maxSize)], item) {
        found := true;
        break;
      }
      i := i + 1;
    }
  }

  /** What becomes of a message when the other thread does not intervene. */
  function Admit(queue: seq<Item>, max: nat, found: bool, item: Item): (seq<Item>, bool) {
    var found' := if item.mtype.Heartbeat? then Duplicate(queue, item) else found;
    (if found' || |queue| == max then queue else queue + [item], found')
  }

  /** The handling of one intact message; found keeps its value from the previous one. */
  method HandleItem(q: QueueLock<Item>, item: Item, found0: bool) returns (found: bool)
    requires q.Valid()
    modifies q, q.data
    ensures q.Valid() && (q.contents, found) == Admit(old(q.contents), q.maxSize, found0, item)
  {
    found := found0;
    if item.mtype.Heartbeat? {
      found := Scan(q, item);
    }
    if !found {
      var full := q.IsFull();
      if !full {
        var ok := q.Enqueue(item);
        assert ok;
      }
    }
  }

  /** One turn of the thread that handles requests: None when it has to wait. */
  method TakeRequest(q: QueueLock<Item>) returns (item: Option<Item>)
    requires q.Valid()
    modifies q
    ensures q.Valid()
    ensures (q.contents, Taken(item)) == Fifo(old(q.contents), q.maxSize, Operation.Dequeue)
    ensures item.None? <==> old(q.contents) == []
  {
    var empty := q.IsEmpty();
    item := None;
    if !empty {
      item := q.Dequeue();
    }
  }

  // ------------------------------------------------------- the threads together

  datatype Producer = Waiting | Received(item: Item) | Scanned(item: Item, duplicate: bool) | Room(item: Item)

  datatype Consumer = Idle | Ready

  /** What was decided about a message, and on what grounds. */
  datatype Decision = Decision(item: Item, duplicate: bool, room: bool, kept: bool)

  datatype State = State(
    max: nat, queue: seq<Item>, producer: Producer, found: bool, consumer: Consumer,
    failed: bool,             // a guarded enqueue or dequeue had no effect
    accepted: seq<Item>, handed: seq<Item>, log: seq<Decision>)

  /** Every step is one critical section, or one unlocked look at the size. */
  datatype Step = Receive(item: Item) | ScanQueue | CheckFull | DoEnqueue | CheckEmpty | DoDequeue

  predicate Enabled(s: State, step: Step) {
    match step
    case Receive(_) => s.producer.Waiting?
    case ScanQueue => s.producer.Received?
    case CheckFull => s.producer.Scanned?
    case DoEnqueue => s.producer.Room?
    case CheckEmpty => s.consumer.Idle?
    case DoDequeue => s.consumer.Ready?
  }

  function Take(s: State, step: Step): State
    requires Enabled(s, step)
  {
    match step
    case Receive(item) => s.(producer := Received(item))
    case ScanQueue =>
      var item := s.producer.item;
      var duplicate := item.mtype.Heartbeat? && Duplicate(s.queue, item);
      s.(producer := Scanned(item, duplicate), found := if item.mtype.Heartbeat? then duplicate else s.found)
    case CheckFull =>
      var item, room := s.producer.item, |s.queue| != s.max;
      var kept := !s.found && room;
      s.(producer := if kept then Room(item) else Waiting,
         log := s.log + [Decision(item, s.producer.duplicate, room, kept)])
    case DoEnqueue =>
      var item := s.producer.item;
      var after := Fifo(s.queue, s.max, Operation.Enqueue(item));
      s.(producer := Waiting, queue := after.0, failed := s.failed || !after.1.ok,
         accepted := if after.1.ok then s.accepted + [item] else s.accepted)
    case CheckEmpty => if s.queue == [] then s else s.(consumer := Ready)
    case DoDequeue =>
      var after := Fifo(s.queue, s.max, Operation.Dequeue);
      s.(consumer := Idle, queue := after.0, failed := s.failed || after.1.item.None?,
         handed := if after.1.item.None? then s.handed else s.handed + [after.1.item.value])
  }

  /** The flag starts with whatever value it happens to have. */
  ghost predicate Init(s: State) {
    s == State(s.max, [], Waiting, s.found, Idle, false, [], [], [])
  }

  ghost predicate Next(s: State, t: State) {
    exists step :: Enabled(s, step) && Take(s, step) == t
  }

  ghost predicate Behaviour(run: seq<State>)
    ensures Behaviour(run) ==> run != []
  {
    && run != []
    && Init(run[0])
    && forall i :: 0 < i < |run| ==> Next(run[i - 1], run[i])
  }

  /** A heartbeat on its way into the queue has no other from its address before it. */
  ghost predicate Fresh(queue: seq<Item>, item: Item) {
    item.mtype.Heartbeat? ==> !Duplicate(queue, item)
  }

  ghost predicate ProducerInv(s: State) {
    match s.producer
    case Waiting => true
    case Received(_) => true
    case Scanned(item, duplicate) =>
      (item.mtype.Heartbeat? ==> s.found == duplicate) && (!s.found ==> Fresh(s.queue, item))
    case Room(item) => !s.found && Fresh(s.queue, item) && |s.queue| < s.max
  }

  ghost predicate Inv(s: State) {
    && |s.queue| <= s.max
    && AtMostOneHeartbeat(s.queue)
    && ProducerInv(s)
    && (s.consumer.Ready? ==> s.queue != [])
    && !s.failed
    && s.accepted == s.handed + s.queue
  }

  lemma DequeueKeeps(queue: seq<Item>, item: Item)
    requires queue != []
    ensures AtMostOneHeartbeat(queue) ==> AtMostOneHeartbeat(queue[1..])
    ensures Fresh(queue, item) ==> Fresh(queue[1..], item)
  {
    if Duplicate(queue[1..], item) {
      var i :| 0 <= i < |queue| - 1 && Matches(queue[1..][i], item);
      assert Matches(queue[i + 1], item);
    }
  }

  lemma EnqueueKeeps(queue: seq<Item>, item: Item)
    requires AtMostOneHeartbeat(queue) && Fresh(queue, item)
    ensures AtMostOneHeartbeat(queue + [item])
  {
    var q := queue + [item];
    forall i, j | 0 <= i < j < |q| && q[i].mtype.Heartbeat? ensures !Matches(q[j], q[i]) {
      if j == |queue| && item.mtype.Heartbeat? {
        assert !Matches(queue[i], item);
      }
    }
  }

  lemma TakeKeepsInv(s: State, step: Step)
    requires Inv(s) && Enabled(s, step)
    ensures Inv(Take(s, step))
  {
    hide AtMostOneHeartbeat, Duplicate;
    match step
    case DoEnqueue => EnqueueKeeps(s.queue, s.producer.item);
    case DoDequeue => TakingKeepsInv(s);
    case _ =>
  }

  lemma TakingKeepsInv(s: State)
    requires Inv(s) && s.consumer.Ready?
    ensures Inv(Take(s, DoDequeue))
  {
    hide AtMostOneHeartbeat, Duplicate;
    if s.producer.Scanned? || s.producer.Room? { DequeueKeeps(s.queue, s.producer.item); }
    else { DequeueKeeps(s.queue, s.queue[0]); }
    assert s.queue == [s.queue[0]] + s.queue[1..];
  }

  lemma {:induction false} BehaviourInv(run: seq<State>, k: nat)
    requires Behaviour(run) && k < |run|
    ensures Inv(run[k])
  {
    hide Inv;
    if k == 0 {
      InitInv(run[0]);
    } else {
      BehaviourInv(run, k - 1);
      var step :| Enabled(run[k - 1], step) && Take(run[k - 1], step) == run[k];
      TakeKeepsInv(run[k - 1], step);
    }
  }

  lemma InitInv(s: State)
    requires Init(s)
    ensures Inv(s)
  {}

  /** In every interleaving: one heartbeat an address, no failing call, nothing lost or reordered. */
  lemma Safety(run: seq<State>, k: nat)
    requires Behaviour(run) && k < |run|
    ensures AtMostOneHeartbeat(run[k].queue) && !run[k].failed
    ensures run[k].accepted == run[k].handed + run[k].queue && |run[k].queue| <= run[k].max
  {
    BehaviourInv(run, k);
  }

  // ------------------------------------------------------- which messages enter

  /** The outcome of the last scan up to message k, or the initial flag. */
  ghost predicate LastScan(log: seq<Decision>, flag: bool, k: int)
    requires k < |log|
    decreases k
  {
    if k < 0 then flag
    else if log[k].item.mtype.Heartbeat? then log[k].duplicate
    else LastScan(log, flag, k - 1)
  }

  ghost predicate Explained(log: seq<Decision>, flag: bool, k: nat)
    requires k < |log|
  {
    log[k].kept <==> log[k].room && !LastScan(log, flag, k)
  }

  /** found is the outcome of the last scan; a scanned message is not in the log yet. */
  ghost predicate FlagInv(s: State, flag: bool) {
    && (forall k :: 0 <= k < |s.log| ==> Explained(s.log, flag, k))
    && (if s.producer.Scanned? && s.producer.item.mtype.Heartbeat? then s.found == s.producer.duplicate
        else s.found == LastScan(s.log, flag, |s.log| - 1))
  }

  lemma {:induction false} LastScanPrefix(log: seq<Decision>, d: Decision, flag: bool, k: int)
    requires k < |log|
    ensures LastScan(log + [d], flag, k) == LastScan(log, flag, k)
    decreases k
  {
    if k >= 0 { LastScanPrefix(log, d, flag, k - 1); }
  }

  lemma TakeKeepsFlag(s: State, step: Step, flag: bool)
    requires FlagInv(s, flag) && Enabled(s, step)
    ensures FlagInv(Take(s, step), flag)
  {
    hide Duplicate;
    if step.CheckFull? {
      var t := Take(s, step);
      var d := t.log[|s.log|];
      forall k | 0 <= k < |t.log| ensures Explained(t.log, flag, k) {
        if k < |s.log| {
          assert Explained(s.log, flag, k);
          LastScanPrefix(s.log, d, flag, k);
        } else {
          LastScanPrefix(s.log, d, flag, k - 1);
        }
      }
      LastScanPrefix(s.log, d, flag, |s.log| - 1);
    }
  }

  lemma {:induction false} BehaviourFlag(run: seq<State>, k: nat)
    requires Behaviour(run) && k < |run|
    ensures FlagInv(run[k], run[0].found)
  {
    hide FlagInv;
    if k == 0 {
      InitFlag(run[0]);
    } else {
      BehaviourFlag(run, k - 1);
      var step :| Enabled(run[k - 1], step) && Take(run[k - 1], step) == run[k];
      TakeKeepsFlag(run[k - 1], step, run[0].found);
    }
  }

  lemma InitFlag(s: State)
    requires Init(s)
    ensures FlagInv(s, s.found)
  {}

  /** A message is kept exactly when there is room and the last heartbeat up to it was no duplicate. */
  lemma KeptExactly(run: seq<State>, k: nat, i: nat)
    requires Behaviour(run) && k < |run| && i < |run[k].log|
    ensures run[k].log[i].kept <==> run[k].log[i].room && !LastScan(run[k].log, run[0].found, i)
  {
    BehaviourFlag(run, k);
    assert Explained(run[k].log, run[0].found, i);
  }

  ghost function Last(run: seq<State>): State
    requires run != []
  {
    run[|run| - 1]
  }

  lemma Do(run: seq<State>, step: Step) returns (longer: seq<State>)
    requires Behaviour(run) && Enabled(Last(run), step)
    ensures Behaviour(longer) && run <= longer && Last(longer) == Take(Last(run), step)
  {
    hide Init, Enabled, Take;
    longer := run + [Take(Last(run), step)];
    forall i | 0 < i < |longer| ensures Next(longer[i - 1], longer[i]) {
      if i < |run| { assert Next(run[i - 1], run[i]); }
    }
  }

  /** One message handled with no step of the other thread in between, as HandleItem does. */
  lemma UndisturbedIsAdmit(run: seq<State>, item: Item) returns (longer: seq<State>)
    requires Behaviour(run) && Last(run).producer.Waiting?
    ensures Behaviour(longer) && run <= longer && Last(longer).producer.Waiting?
    ensures (Last(longer).queue, Last(longer).found) == Admit(Last(run).queue, Last(run).max, Last(run).found, item)
  {
    hide Behaviour, Duplicate;
    longer := Do(run, Receive(item));
    longer := Do(longer, ScanQueue);
    longer := Do(longer, CheckFull);
    if Last(longer).producer.Room? { longer := Do(longer, DoEnqueue); }
  }

  /** The flag outlives its heartbeat: a message that is no heartbeat is dropped by an empty queue. */
  lemma StaleFlagDrops(address: Messages.PeerAddress) returns (run: seq<State>)
    ensures Behaviour(run) && Last(run).queue == [] && Last(run).max > 0 && Last(run).producer.Waiting?
    ensures Last(run).accepted == [Item(Heartbeat, address)]
    ensures |Last(run).log| == 3 && Last(run).log[2] == Decision(Item(Exit, address), false, true, false)
  {
    hide Behaviour;
    var beat, bye := Item(Heartbeat, address), Item(Exit, address);
    run := FlagLeftUp(beat);
    run := Do(run, Receive(bye));
    run := Do(run, ScanQueue);
    run := Do(run, CheckFull);
  }

  /** A heartbeat waits and another from its address is dropped, which leaves the flag up; then the first is taken. */
  lemma FlagLeftUp(beat: Item) returns (run: seq<State>)
    requires beat.mtype.Heartbeat?
    ensures Behaviour(run) && Last(run).producer == Waiting && Last(run).found && Last(run).max == 2
    ensures Last(run).queue == [] && Last(run).accepted == [beat]
    ensures Last(run).log == [Decision(beat, false, true, true), Decision(beat, true, true, false)]
  {
    hide Behaviour, Duplicate;
    run := OneWaits(beat);
    DuplicateOf(beat);
    run := Do(run, Receive(beat));
    run := Do(run, ScanQueue);
    run := Do(run, CheckFull);
    run := Do(run, CheckEmpty);
    run := Do(run, DoDequeue);
  }

  lemma OneWaits(beat: Item) returns (run: seq<State>)
    requires beat.mtype.Heartbeat?
    ensures Behaviour(run)
    ensures Last(run) == State(2, [beat], Waiting, false, Idle, false, [beat], [], [Decision(beat, false, true, true)])
  {
    hide Behaviour, Duplicate;
    var s := State(2, [], Waiting, false, Idle, false, [], [], []);
    run := [s];
    StartIsBehaviour(s);
    DuplicateOf(beat);
    run := Do(run, Receive(beat));
    run := Do(run, ScanQueue);
    run := Do(run, CheckFull);
    run := Do(run, DoEnqueue);
  }

  lemma DuplicateOf(beat: Item)
    requires beat.mtype.Heartbeat?
    ensures !Duplicate([], beat) && Duplicate([beat], beat)
  {
    assert Matches([beat][0], beat);
  }

  lemma StartIsBehaviour(s: State)
    requires Init(s)
    ensures Behaviour([s])
  {}
}
