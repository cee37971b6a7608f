/** The job queue of 11.threads/08_rwlock.c on a well-formed list between its two
    sentinels.  Each method is the body of the function it is named after, between the
    lock and the unlock. */
module JobQueue {
  type Tid = int

  class Job {
    var prev: Job?
    var next: Job?
    const tid: Tid

    constructor (tid: Tid)
      ensures this.tid == tid
    {
      this.tid := tid;
    }
  }

  /** What reading the links one after the other yields: from one job to another, along
      next or along prev. */
  ghost predicate ForwardWalk(w: seq<Job>, from: Job, to: Job)
    reads w
  {
    && w != [] && w[0] == from && w[|w| - 1] == to
    && (forall i :: 0 <= i < |w| - 1 ==> w[i] != to && w[i].next == w[i + 1])
  }

  ghost predicate BackwardWalk(w: seq<Job>, from: Job, to: Job)
    reads w
  {
    && w != [] && w[0] == from && w[|w| - 1] == to
    && (forall i :: 0 <= i < |w| - 1 ==> w[i] != to && w[i].prev == w[i + 1])
  }

  /** The position of the first job with the id, or the length if there is none. */
  function FirstWith(jobs: seq<Job>, tid: Tid): (i: nat)
    ensures i <= |jobs|
    ensures i < |jobs| ==> jobs[i].tid == tid
    ensures forall k :: 0 <= k < i ==> jobs[k].tid != tid
  {
    if jobs == [] || jobs[0].tid == tid then 0 else 1 + FirstWith(jobs[1..], tid)
  }

  function Reversed<T>(s: seq<T>): seq<T> {
    seq(|s|, i requires 0 <= i < |s| => s[|s| - 1 - i])
  }

  class Queue {
    var head: Job
    var tail: Job
    /** The jobs between the sentinels, first to last. */
    ghost var jobs: seq<Job>

    /** An empty queue: the two linked sentinels of job_queue_init, stored in the queue. */
    constructor ()
      ensures Valid() && jobs == []
    {
      var first := new Job(0);
      var last := new Job(0);
      first.prev, last.next := null, null;
      first.next, last.prev := last, first;
      head, tail, jobs := first, last, [];
    }

    ghost function Nodes(): (nodes: seq<Job>)
      reads this
      ensures |nodes| == |jobs| + 2
    {
      [head] + jobs + [tail]
    }

    ghost function Node(k: nat): Job
      requires k < |jobs| + 2
      reads this
    {
      Nodes()[k]
    }

    ghost predicate Valid()
      reads this, Nodes()
    {
      var nodes := Nodes();
      && (forall i, j :: 0 <= i < j < |nodes| ==> nodes[i] != nodes[j])
      && (forall i :: 0 <= i < |nodes| - 1 ==> nodes[i].next == nodes[i + 1])
      && (forall i :: 0 < i < |nodes| ==> nodes[i].prev == nodes[i - 1])
    }

    /** Reading next from head to tail, or prev from tail to head, yields the one list of
        jobs in the one order or the other, and nothing else. */
    lemma WalksAgree(f: seq<Job>, b: seq<Job>)
      requires Valid()
      ensures ForwardWalk(f, head, tail) <==> f == [head] + jobs + [tail]
      ensures BackwardWalk(b, tail, head) <==> b == Reversed([head] + jobs + [tail])
    {
      var nodes := Nodes();
      assert nodes[0] == head && nodes[|nodes| - 1] == tail;
      if ForwardWalk(f, head, tail) {
        ForwardPrefix(f, |f| - 1);
        assert nodes[|f| - 1] == tail;
        assert f == nodes;
      }
      if BackwardWalk(b, tail, head) {
        BackwardPrefix(b, |b| - 1);
        assert nodes[|nodes| - |b|] == head;
        assert b == Reversed(nodes);
      }
      var r := Reversed(nodes);
      assert forall i :: 0 <= i < |r| - 1 ==> r[i].prev == r[i + 1];
    }

    lemma {:induction false} ForwardPrefix(f: seq<Job>, k: nat)
      requires Valid() && ForwardWalk(f, head, tail) && k < |f|
      ensures k < |Nodes()| && forall i :: 0 <= i <= k ==> f[i] == Nodes()[i]
    {
      if k == 0 {
      } else {
        ForwardPrefix(f, k - 1);
        assert f[k - 1] != tail && f[k - 1].next == f[k];
      }
    }

    lemma {:induction false} BackwardPrefix(b: seq<Job>, k: nat)
      requires Valid() && BackwardWalk(b, tail, head) && k < |b|
      ensures k < |Nodes()| && forall i :: 0 <= i <= k ==> b[i] == Nodes()[|Nodes()| - 1 - i]
    {
      if k == 0 {
      } else {
        BackwardPrefix(b, k - 1);
        assert b[k - 1] != head && b[k - 1].prev == b[k];
      }
    }

    method InsertFront(j: Job)
      requires Valid() && j !in Nodes()
      modifies this`jobs, head`next, Node(1)`prev, j`prev, j`next
      ensures Valid() && jobs == [j] + old(jobs)
    {
      ghost var nodes := Nodes();
      j.prev := head;
      j.next := head.next;
      assert nodes[0].next == nodes[1];
      head.next.prev := j;
      head.next := j;
      jobs := [j] + jobs;
      assert Nodes() == [head, j] + nodes[1..];
    }

    method Append(j: Job)
      requires Valid() && j !in Nodes()
      modifies this`jobs, tail`prev, Node(|jobs|)`next, j`prev, j`next
      ensures Valid() && jobs == old(jobs) + [j]
    {
      ghost var nodes := Nodes();
      j.next := tail;
      j.prev := tail.prev;
      assert nodes[|nodes| - 1].prev == nodes[|nodes| - 2];
      tail.prev.next := j;
      tail.prev := j;
      jobs := jobs + [j];
      assert Nodes() == nodes[..|nodes| - 1] + [j, tail];
    }

    /** `i` is the position of the job in the queue. */
    method Remove(j: Job, ghost i: nat)
      requires Valid() && i < |jobs| && jobs[i] == j
      modifies this`jobs, Node(i)`next, Node(i + 2)`prev
      ensures Valid() && jobs == old(jobs[..i] + jobs[i + 1..])
    {
      ghost var nodes := Nodes();
      assert nodes[i + 1] == j && nodes[i + 1].prev == nodes[i] && nodes[i + 1].next == nodes[i + 2];
      j.prev.next := j.next;
      j.next.prev := j.prev;
      jobs := jobs[..i] + jobs[i + 1..];
      ghost var rest := Nodes();
      assert rest == nodes[..i + 1] + nodes[i + 2..];
      forall m | 0 <= m < |rest| - 1
        ensures rest[m].next == rest[m + 1] && rest[m + 1].prev == rest[m]
      {
        var n := if m <= i then m else m + 1;
        assert nodes[n] == rest[m] && nodes[if m < i then m + 1 else m + 2] == rest[m + 1];
      }
    }

    method Find(tid: Tid) returns (current: Job?)
      requires Valid()
      ensures var i := FirstWith(jobs, tid);
              if i < |jobs| then current == jobs[i] else current == null
    {
      ghost var nodes, k := Nodes(), 1;
      assert nodes[0].next == nodes[1];
      current := head.next;
      while current != tail
        invariant 1 <= k < |nodes| && current == nodes[k]
        invariant forall m :: 0 <= m < k - 1 ==> jobs[m].tid != tid
        decreases |nodes| - k
      {
        assert nodes[k] == jobs[k - 1] && nodes[k].next == nodes[k + 1];
        if current.tid == tid {
          assert FirstWith(jobs, tid) == k - 1;
          return;
        }
        current := current.next;
        k := k + 1;
      }
      assert nodes[|nodes| - 1] == tail;
      assert k == |nodes| - 1 && FirstWith(jobs, tid) == |jobs|;
      current := null;
    }

    /** Removing a job just inserted puts every link of the queue back. */
    method InsertFrontThenRemove(j: Job)
      requires Valid() && j !in Nodes()
      modifies this, Nodes(), j
      ensures Valid() && jobs == old(jobs) && head == old(head) && tail == old(tail)
      ensures forall n :: n in Nodes() ==> n.prev == old(n.prev) && n.next == old(n.next)
    {
      ghost var nodes := Nodes();
      assert Node(1) == nodes[1] && nodes[1] in nodes && head == nodes[0] && head in nodes;
      InsertFront(j);
      ghost var longer := Nodes();
      assert longer[0] in nodes && longer[2] == nodes[1];
      Remove(j, 0);
      assert jobs == old(jobs) && Nodes() == nodes;
      forall n | n in nodes
        ensures n.prev == old(n.prev) && n.next == old(n.next)
      {
        var m :| 0 <= m < |nodes| && nodes[m] == n;
        if m + 1 < |nodes| {
          assert n.next == nodes[m + 1] == old(nodes[m].next);
        }
        if m > 0 {
          assert n.prev == nodes[m - 1] == old(nodes[m].prev);
        }
      }
    }

    method AppendThenRemove(j: Job)
      requires Valid() && j !in Nodes()
      modifies this, Nodes(), j
      ensures Valid() && jobs == old(jobs) && head == old(head) && tail == old(tail)
      ensures forall n :: n in Nodes() ==> n.prev == old(n.prev) && n.next == old(n.next)
    {
      ghost var nodes, last := Nodes(), |jobs|;
      assert Node(last) == nodes[last] && nodes[last] in nodes && tail == nodes[last + 1] && tail in nodes;
      Append(j);
      ghost var longer := Nodes();
      assert longer[last] == nodes[last] && longer[last + 2] == nodes[last + 1];
      Remove(j, |jobs| - 1);
      assert jobs == old(jobs) && Nodes() == nodes;
      forall n | n in nodes
        ensures n.prev == old(n.prev) && n.next == old(n.next)
      {
        var m :| 0 <= m < |nodes| && nodes[m] == n;
        if m + 1 < |nodes| {
          assert n.next == nodes[m + 1] == old(nodes[m].next);
        }
        if m > 0 {
          assert n.prev == nodes[m - 1] == old(nodes[m].prev);
        }
      }
    }
  }
}
