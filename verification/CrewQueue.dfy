/**
 The linked list of WORK in siege-4.1.7/src/crew.c, which one thread at a time
 changes under the crew's lock: the sequence that stands for it in module Crew.
 */
module CrewQueue {
  import opened Crew

  class Work {
    const job: Job
    var next: Work?

    constructor (job: Job)
      ensures this.job == job && next == null
    {
      this.job, next := job, null;
    }
  }

  ghost function Nth(items: seq<Work>, i: nat): Work? {
    if i < |items| then items[i] else null
  }

  class Queue {
    var cursize: int
    var total: int
    var head: Work?
    var tail: Work?

    /** The list from `head`. */
    ghost var items: seq<Work>

    ghost predicate Valid()
      reads this, items
    {
      && cursize == |items|
      && (forall i, j :: 0 <= i < j < |items| ==> items[i] != items[j])
      && (forall i :: 0 <= i < |items| ==> items[i].next == Nth(items, i + 1))
      && head == (if items == [] then null else items[0])
      && tail == (if items == [] then null else items[|items| - 1])
    }

    ghost function Contents(): (jobs: seq<Job>)
      reads this, items
      ensures |jobs| == |items|
    {
      Jobs(items)
    }

    /** new_crew */
    constructor ()
      ensures Valid() && items == [] && Contents() == [] && total == 0
    {
      cursize, total, head, tail, items := 0, 0, null, null, [];
    }

    /** Lines 176-194, under the lock: the work goes to the end. */
    method Add(job: Job)
      requires Valid()
      modifies this, items
      ensures Valid() && Contents() == old(Contents()) + [job]
      ensures cursize == old(cursize) + 1 && total == old(total) + 1
      ensures |items| > 0 && items[..|items| - 1] == old(items) && fresh(items[|items| - 1])
    {
      var workptr := new Work(job);
      if cursize == 0 {
        tail, head := workptr, workptr;
      } else {
        tail.next := workptr;
        tail := workptr;
      }
      items := items + [workptr];
      cursize := cursize + 1;
      total := total + 1;
    }

    /** Lines 119-126, under the lock and with work there: the work at the head leaves. */
    method Take() returns (workptr: Work)
      requires Valid() && cursize != 0
      modifies this
      ensures Valid() && Contents() == old(Contents())[1..] && workptr.job == old(Contents())[0]
      ensures cursize == old(cursize) - 1 && total == old(total) && items == old(items)[1..]
    {
      workptr := head;
      cursize := cursize - 1;
      if cursize == 0 {
        head, tail := null, null;
      } else {
        head := workptr.next;
      }
      ghost var was := items;
      items := items[1..];
      forall i | 0 <= i < |items|
        ensures items[i].next == Nth(items, i + 1)
      {
        assert items[i] == was[i + 1] && Nth(items, i + 1) == Nth(was, i + 2);
      }
    }

    /** The loop of crew_destroy: every piece of work left is freed, once, from the head on. */
    method Destroy() returns (ghost freed: seq<Work>)
      requires Valid()
      modifies this
      ensures freed == old(items) && head == null
    {
      freed := [];
      ghost var i: nat := 0;
      while head != null
        invariant i <= |items| && freed == items[..i] && items == old(items)
        invariant forall j :: 0 <= j < |items| ==> items[j].next == Nth(items, j + 1)
        invariant head == Nth(items, i)
        decreases |items| - i
      {
        var workptr := head;
        head := head.next;
        freed := freed + [workptr];
        i := i + 1;
      }
    }
  }

  ghost function Jobs(items: seq<Work>): (jobs: seq<Job>)
    ensures |jobs| == |items| && forall i :: 0 <= i < |items| ==> jobs[i] == items[i].job
  {
    seq(|items|, i requires 0 <= i < |items| => items[i].job)
  }
}
