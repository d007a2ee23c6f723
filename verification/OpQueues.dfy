/** The MSG_OP_* queues of msg_thread.c: a power-of-two ring of op pointers with 32-bit counters that
    start over at zero whenever the queue runs empty. Ops are named by their index in op_q_inst. */
module OpQueues {
  import opened Options
  import opened Words
  import opened Rings

  /** struct msg_op_q; size is |slots|. */
  datatype Queue = Queue(slots: seq<nat>, read: u32, write: u32)

  function Count(q: Queue): u32 { Sub32(q.write, q.read) }

  predicate Full(q: Queue) { Count(q) >= |q.slots| }

  predicate Empty(q: Queue) { q.write == q.read }

  /** msg_evt_put_op_to_q, which returns 0 or -4. */
  function Put(q: Queue, op: nat): (Queue, int)
    requires |q.slots| > 0
  {
    if Full(q) then (q, -4)
    else (q.(slots := q.slots[Slot(q.write, |q.slots|) := op], write := Add32(q.write, 1)), 0)
  }

  /** msg_evt_get_op_from_q */
  function Get(q: Queue): (Queue, Option<nat>)
    requires |q.slots| > 0
  {
    if Empty(q) then (q, None)
    else
      var rest := q.(read := Add32(q.read, 1));
      (if Empty(rest) then rest.(read := 0, write := 0) else rest, Some(q.slots[Slot(q.read, |q.slots|)]))
  }

  ghost predicate Ok(q: Queue) { ValidSize(|q.slots|) && Count(q) <= |q.slots| }

  ghost function Contents(q: Queue): (c: seq<nat>)
    requires Ok(q)
    ensures |c| == Count(q)
  {
    Window(q.slots, q.read, Count(q))
  }

  /** Putting appends, unless the queue is full: then it is left alone and -4 comes back. */
  lemma PutAppends(q: Queue, op: nat)
    requires Ok(q)
    ensures var (r, code) := Put(q, op);
            && Ok(r) && |r.slots| == |q.slots|
            && if |Contents(q)| < |q.slots| then code == 0 && Contents(r) == Contents(q) + [op]
               else code == -4 && r == q
  {
    if !Full(q) {
      var n, pt := Count(q), Slot(q.write, |q.slots|);
      var r := Put(q, op).0;
      AddKeepsSlot(q.read, n, |q.slots|);
      assert r.slots == q.slots[..pt] + [op] + q.slots[pt + 1..];
      WindowWrite(q.slots, r.slots, q.read, n, [op]);
      assert Count(r) == n + 1;
    }
  }

  /** Getting takes the front; the counters start over when nothing is left. */
  lemma GetTakesFront(q: Queue)
    requires Ok(q)
    ensures var (r, op) := Get(q);
            && Ok(r) && |r.slots| == |q.slots|
            && if Contents(q) == [] then op == None && r == q
               else op == Some(Contents(q)[0]) && Contents(r) == Contents(q)[1..]
                    && (Contents(r) == [] ==> r.read == r.write == 0)
  {
    if !Empty(q) { ReadDrops(q.slots, q.read, q.write, 1); }
  }

  class OpQueue {
    const queue: array<nat>
    const size: u32
    var read: u32
    var write: u32

    ghost predicate Valid()
      reads this, queue
    {
      size == queue.Length && Ok(View())
    }

    ghost function View(): Queue
      reads this, queue
    {
      Queue(queue[..], read, write)
    }

    /** MSG_OP_INIT, on zeroed memory. */
    constructor (size: u32)
      requires ValidSize(size)
      ensures Valid() && fresh(queue) && View() == Queue(seq(size, _ => 0), 0, 0)
    {
      queue := new nat[size](_ => 0);
      this.size := size;
      read, write := 0, 0;
      new;
      assert queue[..] == seq(size, _ => 0);
    }

    method PutOp(op: nat) returns (code: int)
      requires Valid()
      modifies this`write, queue
      ensures Valid() && (View(), code) == Put(old(View()), op)
    {
      ghost var q := View();
      PutAppends(q, op);
      if Sub32(write, read) >= size { return -4; }
      MaskIsSlot(write, size);
      queue[BitAnd(write, size - 1)] := op;
      write := Add32(write, 1);
      assert queue[..] == q.slots[Slot(q.write, size) := op];
      code := 0;
    }

    method GetOp() returns (op: Option<nat>)
      requires Valid()
      modifies this`read, this`write
      ensures Valid() && (View(), op) == Get(old(View()))
    {
      GetTakesFront(View());
      if write == read { return None; }
      MaskIsSlot(read, size);
      op := Some(queue[BitAnd(read, size - 1)]);
      read := Add32(read, 1);
      if write == read { read, write := 0, 0; }
    }
  }

  // ---- msg_thread_init

  function Iota(n: nat): seq<nat> { seq(n, i => i) }

  /** The free queue after the first k ops were put into it. */
  function Filled(n: nat, k: nat): (q: Queue)
    requires k <= n && n > 0
    ensures |q.slots| == n
  {
    if k == 0 then Queue(seq(n, _ => 0), 0, 0) else Put(Filled(n, k - 1), k - 1).0
  }

  lemma {:induction false} FilledHolds(n: u32, k: nat)
    requires ValidSize(n) && k <= n
    ensures Ok(Filled(n, k)) && Contents(Filled(n, k)) == Iota(k)
  {
    if k > 0 {
      FilledHolds(n, k - 1);
      PutAppends(Filled(n, k - 1), k - 1);
      assert Iota(k - 1) + [k - 1] == Iota(k);
    }
  }

  /** The part of msg_thread_init that sets up the queues: every op is in the free queue, in order. */
  method InitQueues(n: u32) returns (free: OpQueue, active: OpQueue)
    requires ValidSize(n)
    ensures free.Valid() && active.Valid() && fresh(free) && fresh(active)
    ensures free.View() == Filled(n, n) && active.View() == Filled(n, 0)
    ensures Contents(free.View()) == Iota(n) && Contents(active.View()) == []
  {
    free := new OpQueue(n);
    active := new OpQueue(n);
    for i := 0 to n
      invariant free.Valid() && free.View() == Filled(n, i) && fresh(free.queue)
      invariant active.Valid() && active.View() == Filled(n, 0)
    {
      var code := free.PutOp(i);
    }
    FilledHolds(n, n);
  }
}
