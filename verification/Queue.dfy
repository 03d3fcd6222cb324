/** The bounded queue shared by the two threads of the tracker. */
module Queue {
  import opened Words

  const WORD := 0x1_0000_0000_0000_0000

  // --------------------------------------------------- unsigned 64-bit indices

  /** Unsigned 64-bit subtraction. */
  function Minus(a: nat, b: nat): (r: nat)
    requires a < WORD && b < WORD
  {
    if b <= a then a - b else WORD + a - b
  }

  /** Unsigned 64-bit addition. */
  function Plus(a: nat, b: nat): (r: nat)
    requires a < WORD && b < WORD
  {
    if a + b < WORD then a + b else a + b - WORD
  }

  /** (top - back + max) % max, as the code evaluates it. */
  function Index(top: nat, back: nat, max: nat): nat
    requires 0 < max < WORD && top < WORD && back < WORD
  {
    Plus(Minus(top, back), max) % max
  }

  /** The slot that lies the given number of places behind top, going round the array. */
  function Slot(top: nat, back: nat, max: nat): (k: nat)
    requires top < max && back <= max
    ensures k < max
  {
    if back <= top then top - back else top + max - back
  }

  lemma SmallModulo(n: nat, max: nat)
    requires max > 0 && n < 2 * max
    ensures n % max == if n < max then n else n - max
  {
    if n >= max {
      assert n == max * 1 + (n - max);
    }
  }

  /** The two wrap-arounds cancel out exactly when top - back + max fits 64 bits. */
  lemma IndexIsSlot(top: nat, back: nat, max: nat)
    requires top < max < WORD && back <= max
    ensures Index(top, back, max) == Slot(top, back, max) <==> top - back + max < 0x1_0000_0000_0000_0000
  {
    if top - back + max < WORD {
      SmallModulo(top + max - back, max);
    } else {
      SmallModulo(top + max - back - WORD, max);
    }
  }

  // ------------------------------------------------------------ a bounded FIFO

  datatype Operation<T> = Enqueue(item: T) | Dequeue

  datatype Reply<T> = Stored(ok: bool) | Taken(item: Option<T>)

  /** One operation on a FIFO that holds at most max items, oldest first. */
  function Fifo<T>(s: seq<T>, max: nat, op: Operation<T>): (seq<T>, Reply<T>) {
    match op
    case Enqueue(item) => if |s| == max then (s, Stored(false)) else (s + [item], Stored(true))
    case Dequeue => if s == [] then (s, Taken(None)) else (s[1..], Taken(Some(s[0])))
  }

  function FifoRun<T>(max: nat, ops: seq<Operation<T>>): (seq<T>, seq<Reply<T>>) {
    if ops == [] then ([], [])
    else
      var before := FifoRun(max, ops[..|ops| - 1]);
      var last := Fifo(before.0, max, ops[|ops| - 1]);
      (last.0, before.1 + [last.1])
  }

  /** The items accepted in a run, in order. */
  function Accepted<T>(max: nat, ops: seq<Operation<T>>): seq<T> {
    if ops == [] then []
    else
      var before := FifoRun(max, ops[..|ops| - 1]).0;
      Accepted(max, ops[..|ops| - 1]) + AcceptedBy(max, before, ops[|ops| - 1])
  }

  function AcceptedBy<T>(max: nat, s: seq<T>, op: Operation<T>): seq<T> {
    match op
    case Enqueue(item) => if |s| == max then [] else [item]
    case Dequeue => []
  }

  function DeliveredBy<T>(r: Reply<T>): seq<T> {
    match r
    case Stored(_) => []
    case Taken(None) => []
    case Taken(Some(item)) => [item]
  }

  /** The items handed out, in order. */
  function Delivered<T>(replies: seq<Reply<T>>): seq<T> {
    if replies == [] then []
    else
      Delivered(replies[..|replies| - 1]) + DeliveredBy(replies[|replies| - 1])
  }

  /** Nothing accepted is lost, duplicated or reordered, and the bound holds. */
  lemma {:induction false} FifoConserves<T>(max: nat, ops: seq<Operation<T>>)
    ensures |FifoRun(max, ops).1| == |ops| && |FifoRun(max, ops).0| <= max
    ensures Accepted(max, ops) == Delivered(FifoRun(max, ops).1) + FifoRun(max, ops).0
  {
    if ops != [] {
      var init, op := ops[..|ops| - 1], ops[|ops| - 1];
      FifoConserves(max, init);
      var before := FifoRun(max, init);
      DeliveredSnoc(before.1, Fifo(before.0, max, op).1);
      FifoStepConserves(max, Accepted(max, init), Delivered(before.1), before.0, op);
    }
  }

  lemma DeliveredSnoc<T>(replies: seq<Reply<T>>, r: Reply<T>)
    ensures Delivered(replies + [r]) == Delivered(replies) + DeliveredBy(r)
  {
    assert (replies + [r])[..|replies|] == replies;
  }

  lemma FifoStepConserves<T>(max: nat, accepted: seq<T>, delivered: seq<T>, s: seq<T>, op: Operation<T>)
    requires accepted == delivered + s && |s| <= max
    ensures var after := Fifo(s, max, op);
      accepted + AcceptedBy(max, s, op) == delivered + DeliveredBy(after.1) + after.0 && |after.0| <= max
  {
    if op.Dequeue? && s != [] { assert s == [s[0]] + s[1..]; }
  }

  // ---------------------------------------------------------------- the queue

  /** The items held, oldest first, are the size slots behind top. */
  ghost predicate Holds<T>(s: seq<T>, data: seq<T>, top: nat, size: nat) {
    && size == |s| <= |data|
    && (if |data| == 0 then top == 0 else top < |data|)
    && forall i :: 0 <= i < |s| ==> Holding(s, data, top, i)
  }

  ghost predicate Holding<T>(s: seq<T>, data: seq<T>, top: nat, i: nat)
    requires |s| <= |data| && i < |s| && top < |data|
  {
    s[i] == data[Slot(top, |s| - i, |data|)]
  }

  lemma HoldsAfterEnqueue<T>(s: seq<T>, data: seq<T>, top: nat, item: T)
    requires Holds(s, data, top, |s|) && |s| < |data|
    ensures Holds(s + [item], data[top := item], (top + 1) % |data|, |s| + 1)
  {
    var s', data', n := s + [item], data[top := item], |data|;
    SmallModulo(top + 1, n);
    var top' := (top + 1) % n;
    forall i | 0 <= i < |s'| ensures Holding(s', data', top', i) {
      if i < |s| {
        assert Holding(s, data, top, i);
        assert Slot(top', |s'| - i, n) == Slot(top, |s| - i, n) != top;
      }
    }
  }

  lemma HoldsAfterDequeue<T>(s: seq<T>, data: seq<T>, top: nat)
    requires Holds(s, data, top, |s|) && s != []
    ensures Holds(s[1..], data, top, |s| - 1)
    ensures s[0] == data[Slot(top, |s|, |data|)]
  {
    assert Holding(s, data, top, 0);
    forall i | 0 <= i < |s| - 1 ensures Holding(s[1..], data, top, i) {
      assert Holding(s, data, top, i + 1);
    }
  }

  class QueueLock<T(0)> {
    var top: nat
    var size: nat
    const maxSize: nat
    const data: array<T>
    ghost var contents: seq<T>

    ghost predicate Valid()
      reads this, data
    {
      && data.Length == maxSize && 8 * maxSize < WORD
      && Holds(contents, data[..], top, size)
    }

    /** The array of pointers takes 8 bytes an item, so it fits the address space. */
    constructor (maxSize: nat)
      requires 8 * maxSize < 0x1_0000_0000_0000_0000
      ensures Valid() && contents == [] && this.maxSize == maxSize && fresh(data)
    {
      top := 0;
      size := 0;
      this.maxSize := maxSize;
      data := new T[maxSize];
      contents := [];
    }

    method IsFull() returns (full: bool)
      requires Valid()
      ensures full <==> |contents| == maxSize
    {
      full := size == maxSize;
    }

    method IsEmpty() returns (empty: bool)
      requires Valid()
      ensures empty <==> contents == []
    {
      empty := size == 0;
    }

    method Enqueue(item: T) returns (ok: bool)
      requires Valid()
      modifies this, data
      ensures Valid()
      ensures (contents, Stored(ok)) == Fifo(old(contents), maxSize, Operation.Enqueue(item))
    {
      hide Holds;
      ok := false;
      var full := IsFull();
      if !full {
        HoldsBounds(contents, data[..], top, size);
        HoldsAfterEnqueue(contents, data[..], top, item);
        ghost var before := data[..];
        data[top] := item;
        assert data[..] == before[top := item];
        top := (top + 1) % maxSize;
        size := size + 1;
        contents := contents + [item];
        ok := true;
      }
    }

    method Dequeue() returns (item: Option<T>)
      requires Valid()
      modifies this
      ensures Valid()
      ensures (contents, Taken(item)) == Fifo(old(contents), maxSize, Operation.Dequeue)
    {
      hide Holds;
      item := None;
      HoldsBounds(contents, data[..], top, size);
      var empty := IsEmpty();
      if !empty {
        HoldsAfterDequeue(contents, data[..], top);
        IndexIsSlot(top, size, maxSize);
        item := Some(data[Index(top, size, maxSize)]);
        size := size - 1;
        contents := contents[1..];
      }
    }
  }

  lemma HoldsBounds<T>(s: seq<T>, data: seq<T>, top: nat, size: nat)
    requires Holds(s, data, top, size)
    ensures size == |s| <= |data| && (0 < |data| ==> top < |data|)
  {}

  /** Any run of the queue is the run of a bounded FIFO. */
  method Run<T(0)>(maxSize: nat, ops: seq<Operation<T>>) returns (q: QueueLock<T>, replies: seq<Reply<T>>)
    requires 8 * maxSize < 0x1_0000_0000_0000_0000
    ensures q.Valid() && (q.contents, replies) == FifoRun(maxSize, ops)
  {
    q := new QueueLock(maxSize);
    replies := [];
    for i := 0 to |ops|
      invariant fresh(q) && fresh(q.data) && q.Valid() && q.maxSize == maxSize
      invariant (q.contents, replies) == FifoRun(maxSize, ops[..i])
    {
      match ops[i] {
        case Enqueue(item) =>
          var ok := q.Enqueue(item);
          replies := replies + [Stored(ok)];
        case Dequeue =>
          var item := q.Dequeue();
          replies := replies + [Taken(item)];
      }
      assert ops[..i + 1][..i] == ops[..i];
    }
    assert ops[..|ops|] == ops;
  }
}
