/** The 1000-slot message ring of the logger, and the queue object that producers
    and the worker update under the log mutex (src/logger.c). */
module LogRing {

  const CAPACITY: nat := 1000

  datatype Level = Debug | Info | Warn | Error | Fatal {
    function Rank(): nat {
      match this
      case Debug => 0
      case Info => 1
      case Warn => 2
      case Error => 3
      case Fatal => 4
    }
  }

  /** `id` stands for everything a log call records besides the level. */
  datatype Message = Message(id: nat, level: Level)

  /** The ring as a value: what the four globals of the queue hold at one moment. */
  datatype Ring = Ring(slots: seq<Message>, head: nat, tail: nat, size: nat) {

    predicate Valid() {
      && |slots| == CAPACITY
      && head < CAPACITY && tail < CAPACITY && size <= CAPACITY
      && (tail == head + size || tail + CAPACITY == head + size)
    }

    /** The queued messages, oldest first. */
    function Contents(): (c: seq<Message>)
      requires Valid()
    {
      seq(size, i requires 0 <= i < size => slots[(head + i) % CAPACITY])
    }

    function Put(m: Message): Ring
      requires Valid() && size < CAPACITY
    {
      Ring(slots[tail := m], head, (tail + 1) % CAPACITY, size + 1)
    }

    function Take(): Ring
      requires Valid() && 0 < size
    {
      Ring(slots, (head + 1) % CAPACITY, tail, size - 1)
    }

    function Front(): Message
      requires Valid() && 0 < size
    {
      slots[head]
    }
  }

  /** Two queue positions never share a slot. */
  lemma SlotsDistinct(head: nat, i: nat, j: nat)
    requires i < j < CAPACITY
    ensures (head + i) % CAPACITY != (head + j) % CAPACITY
  {
  }

  /** Enqueueing appends, and wraps the tail without disturbing older messages. */
  lemma PutAppends(r: Ring, m: Message)
    requires r.Valid() && r.size < CAPACITY
    ensures r.Put(m).Valid()
    ensures r.Put(m).Contents() == r.Contents() + [m]
  {
    var q := r.Put(m);
    forall i | 0 <= i < r.size
      ensures q.Contents()[i] == r.Contents()[i]
    {
      SlotsDistinct(r.head, i, r.size);
    }
  }

  /** Dequeueing yields the oldest message and leaves the others in order. */
  lemma TakeRemovesFront(r: Ring)
    requires r.Valid() && 0 < r.size
    ensures r.Take().Valid()
    ensures r.Contents() == [r.Front()] + r.Take().Contents()
  {
    forall i | 1 <= i < r.size
      ensures r.Contents()[i] == r.Take().Contents()[i - 1]
    {
      assert (r.head + 1) % CAPACITY + (i - 1) == r.head + i
          || (r.head + 1) % CAPACITY + (i - 1) + CAPACITY == r.head + i;
    }
  }

  /** How often `m` is queued. */
  function Queued(r: Ring, m: Message): nat
    requires r.Valid()
  {
    multiset(r.Contents())[m]
  }

  lemma PutCounts(r: Ring, x: Message, m: Message)
    requires r.Valid() && r.size < CAPACITY
    ensures r.Put(x).Valid()
    ensures Queued(r.Put(x), m) == Queued(r, m) + if x == m then 1 else 0
  {
    PutAppends(r, x);
  }

  lemma TakeCounts(r: Ring, m: Message)
    requires r.Valid() && 0 < r.size
    ensures r.Take().Valid()
    ensures Queued(r.Take(), m) + (if r.Front() == m then 1 else 0) == Queued(r, m)
  {
    TakeRemovesFront(r);
  }

  /** The part of a queue that the worker processes before a FATAL ends the program. */
  function UpToFatal(ms: seq<Message>): (p: seq<Message>)
  {
    if ms == [] then []
    else if ms[0].level.Fatal? then [ms[0]]
    else [ms[0]] + UpToFatal(ms[1..])
  }

  lemma {:induction false} UpToFatalIsPrefix(ms: seq<Message>)
    ensures UpToFatal(ms) <= ms
    ensures forall i :: 0 <= i < |UpToFatal(ms)| - 1 ==> !ms[i].level.Fatal?
    ensures |UpToFatal(ms)| < |ms| ==> 0 < |UpToFatal(ms)| && ms[|UpToFatal(ms)| - 1].level.Fatal?
  {
    if ms != [] && !ms[0].level.Fatal? {
      UpToFatalIsPrefix(ms[1..]);
      var p := UpToFatal(ms[1..]);
      assert ms == [ms[0]] + ms[1..];
      forall i | 0 <= i < |p|
        ensures i < |p| ==> !ms[i].level.Fatal?
      {
        if 0 < i { assert ms[i] == ms[1..][i - 1]; }
      }
    }
  }

  /** A prefix without FATAL is processed in full. */
  lemma {:induction false} UpToFatalAfter(done: seq<Message>, rest: seq<Message>)
    requires forall i :: 0 <= i < |done| ==> !done[i].level.Fatal?
    ensures UpToFatal(done + rest) == done + UpToFatal(rest)
  {
    if done == [] {
      assert done + rest == rest;
    } else {
      assert done + rest == [done[0]] + (done[1..] + rest);
      UpToFatalAfter(done[1..], rest);
      assert done + UpToFatal(rest) == [done[0]] + (done[1..] + UpToFatal(rest));
    }
  }

  lemma Regroup(a: seq<Message>, b: seq<Message>, c: seq<Message>)
    ensures a + b + c == a + (b + c)
  {
  }

  predicate HasFatal(ms: seq<Message>) {
    exists i :: 0 <= i < |ms| && ms[i].level.Fatal?
  }

  /** `done` has been processed, without a FATAL, and `rest` is left. */
  predicate Progress(all: seq<Message>, done: seq<Message>, rest: seq<Message>) {
    all == done + rest && !HasFatal(done)
  }

  lemma ProgressStep(all: seq<Message>, done: seq<Message>, m: Message, rest: seq<Message>)
    requires Progress(all, done, [m] + rest) && !m.level.Fatal?
    ensures Progress(all, done + [m], rest)
  {
    assert done + ([m] + rest) == done + [m] + rest;
  }

  lemma FatalEnds(all: seq<Message>, done: seq<Message>, m: Message, rest: seq<Message>)
    requires Progress(all, done, [m] + rest) && m.level.Fatal?
    ensures UpToFatal(all) == done + [m] && all == UpToFatal(all) + rest && HasFatal(all)
  {
    UpToFatalAfter(done, [m] + rest);
    assert UpToFatal([m] + rest) == [m];
    assert all[|done|] == m;
  }

  lemma NoFatal(all: seq<Message>, done: seq<Message>)
    requires Progress(all, done, [])
    ensures UpToFatal(all) == done && all == UpToFatal(all) + [] && !HasFatal(all)
  {
    UpToFatalAfter(done, []);
    assert done + [] == done;
  }

  lemma DoneWithin(all: seq<Message>, done: seq<Message>, rest: seq<Message>)
    requires Progress(all, done, rest)
    ensures done <= UpToFatal(all)
  {
    UpToFatalAfter(done, rest);
  }

  /** The queue with the fields the source keeps as globals; `processed` is what
      process_message has output so far. */
  class LogQueue {
    const slots: array<Message>
    var head: nat
    var tail: nat
    var size: nat
    var running: bool
    var shutdown: bool
    var processed: seq<Message>

    ghost function Snapshot(): Ring
      reads this, slots
    {
      Ring(slots[..], head, tail, size)
    }

    ghost predicate Valid()
      reads this, slots
    {
      slots.Length == CAPACITY && Snapshot().Valid()
    }

    ghost function Contents(): seq<Message>
      reads this, slots
      requires Valid()
    {
      Snapshot().Contents()
    }

    constructor (fill: Message)
      ensures Valid() && fresh(slots)
      ensures Contents() == [] && processed == [] && !running && !shutdown
    {
      slots := new Message[CAPACITY](_ => fill);
      head, tail, size := 0, 0, 0;
      running, shutdown := false, false;
      processed := [];
    }

    /** enqueue_message, run without interference. */
    method EnqueueMessage(m: Message) returns (accepted: bool)
      requires Valid()
      modifies this`tail, this`size, slots
      ensures Valid()
      ensures accepted == (!shutdown && old(size) < CAPACITY)
      ensures Contents() == if accepted then old(Contents()) + [m] else old(Contents())
      ensures head == old(head)
      ensures Snapshot() == if accepted then old(Snapshot()).Put(m) else old(Snapshot())
    {
      if shutdown {
        return false;
      }
      if size >= CAPACITY {
        return false;
      }
      ghost var before := Snapshot();
      PutAppends(before, m);
      slots[tail] := m;
      tail := (tail + 1) % CAPACITY;
      size := size + 1;
      assert Snapshot() == before.Put(m);
      return true;
    }

    /** dequeue_message, run without interference. */
    method DequeueMessage() returns (m: Message, found: bool)
      requires Valid()
      modifies this`head, this`size
      ensures Valid()
      ensures found == (0 < |old(Contents())|)
      ensures found ==> old(Contents()) == [m] + Contents()
      ensures !found ==> Contents() == []
      ensures Snapshot() == if found then old(Snapshot()).Take() else old(Snapshot())
    {
      m := slots[head];
      if size == 0 {
        return m, false;
      }
      TakeRemovesFront(Snapshot());
      head := (head + 1) % CAPACITY;
      size := size - 1;
      return m, true;
    }

    /** The queue is `ms`. */
    ghost predicate Holds(ms: seq<Message>)
      reads this, slots
    {
      Valid() && ms == Contents() && |ms| == size
    }

    /** dequeue_message and, if there was one, process_message. */
    method Turn(ghost before: seq<Message>) returns (m: Message, found: bool, ghost rest: seq<Message>)
      requires Holds(before)
      modifies this`head, this`size, this`processed
      ensures Holds(rest) && found == (before != [])
      ensures found ==> before == [m] + rest && processed == old(processed) + [m]
      ensures !found ==> rest == [] && processed == old(processed)
    {
      m, found := DequeueMessage();
      if found {
        processed := processed + [m];
      }
      rest := Contents();
    }

    /** worker_thread with no producer enqueuing. While it is to run it looks for messages
        again and again, so the loop is followed for `turns` turns; `ended` says whether it
        has ended by then, `died` whether it did so at a FATAL, whose processing ends the
        program with the rest still queued. */
    method WorkerThread(turns: nat) returns (ended: bool, died: bool)
      requires Valid()
      modifies this`head, this`size, this`processed
      ensures Valid() && old(processed) <= processed
      ensures var done := processed[|old(processed)|..];
              var all := old(Contents());
              && done <= UpToFatal(all) && all == done + Contents()
              && (ended ==> done == UpToFatal(all))
      ensures died <==> ended && HasFatal(old(Contents()))
      ensures running && !shutdown && !HasFatal(old(Contents())) ==> !ended
      ensures turns > |old(Contents())| && (!running || shutdown || HasFatal(old(Contents()))) ==> ended
    {
      ghost var all := Contents();
      ghost var done: seq<Message> := [];
      ghost var rest := all;
      var n := 0;
      while n < turns && (running || size > 0)
        invariant n <= turns && Holds(rest) && Progress(all, done, rest)
        invariant processed == old(processed) + done
        invariant n > |all| ==> rest == [] && running && !shutdown
        invariant rest == [] || n == |done|
      {
        var m, found;
        m, found, rest := Turn(rest);
        if found {
          Regroup(old(processed), done, [m]);
          if m.level.Fatal? {
            FatalEnds(all, done, m, rest);
            return true, true;
          }
          ProgressStep(all, done, m, rest);
          done := done + [m];
        } else if shutdown {
          NoFatal(all, done);
          return true, false;
        }
        n := n + 1;
      }
      DoneWithin(all, done, rest);
      if rest == [] { NoFatal(all, done); }
      ended := !running && size == 0;
      died := false;
    }
  }
}
