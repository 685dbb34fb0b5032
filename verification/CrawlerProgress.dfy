/**
 Which crawls end: a blank URL is never taken off the queue.
 */
module CrawlerProgress {
  import opened CrawlerModel
  import opened CrawlerProofs

  /** No URL is empty as a C string. */
  predicate NoBlank(q: seq<string>) {
    forall k :: 0 <= k < |q| ==> q[k] != "" && q[k][0] != '\0'
  }

  /** Steps a thread may still take before it is back at the queue, or done. */
  function Distance(t: Thread): nat {
    match t
    case Done => 0
    case Fetch => 1
    case Robots(_, _) => 2
    case CheckIp(_, _) => 3
    case Counting(_, _) => 4
    case Resolving(_) => 5
    case CheckHost(_) => 6
    case Parsing(_) => 7
  }

  function TotalDistance(threads: seq<Thread>): nat {
    if threads == [] then 0 else Distance(threads[0]) + TotalDistance(threads[1..])
  }

  lemma {:induction false} DistanceUpdate(threads: seq<Thread>, i: nat, t: Thread)
    requires i < |threads|
    ensures TotalDistance(threads[i := t]) == TotalDistance(threads) - Distance(threads[i]) + Distance(t)
    decreases |threads|
  {
    if i > 0 {
      assert threads[i := t][1..] == threads[1..][i - 1 := t];
      DistanceUpdate(threads[1..], i - 1, t);
    }
  }

  function Work(c: Crawl): nat {
    8 * |c.shared.q| + TotalDistance(c.threads)
  }

  /** Every step of a thread that is not done uses up work. */
  lemma StepWorks(w: World, c: Crawl, i: nat)
    requires i < |c.threads| && c.threads[i] != Done && NoBlank(c.shared.q)
    ensures Work(Step(w, c, i)) < Work(c)
    ensures NoBlank(Step(w, c, i).shared.q)
  {
    var r := Step(w, c, i);
    assert r.threads == c.threads[i := r.threads[i]];
    DistanceUpdate(c.threads, i, r.threads[i]);
  }

  /** Every step of the schedule moves a thread that is not done yet. */
  predicate Busy(w: World, c: Crawl, schedule: seq<nat>)
    decreases |schedule|
  {
    schedule == []
    || (schedule[0] < |c.threads| && c.threads[schedule[0]] != Done
        && Busy(w, Step(w, c, schedule[0]), schedule[1..]))
  }

  /** Without a blank URL every schedule ends: no busy one is longer than the work. */
  lemma {:induction false} EveryScheduleEnds(w: World, c: Crawl, schedule: seq<nat>)
    requires NoBlank(c.shared.q) && Busy(w, c, schedule)
    ensures |schedule| <= Work(c)
    decreases |schedule|
  {
    if schedule != [] {
      StepWorks(w, c, schedule[0]);
      EveryScheduleEnds(w, Step(w, c, schedule[0]), schedule[1..]);
    }
  }

  lemma {:induction false} FinishingSchedule(w: World, c: Crawl) returns (schedule: seq<nat>)
    requires NoBlank(c.shared.q)
    ensures forall k :: 0 <= k < |schedule| ==> schedule[k] < |c.threads|
    ensures Finished(Run(w, c, schedule))
    decreases Work(c)
  {
    if i: nat :| i < |c.threads| && c.threads[i] != Done {
      StepWorks(w, c, i);
      var rest := FinishingSchedule(w, Step(w, c, i));
      schedule := [i] + rest;
      assert schedule[1..] == rest;
    } else {
      schedule := [];
    }
  }

  ghost predicate CanFinish(w: World, q0: seq<string>, n: nat) {
    exists schedule: seq<nat> ::
      (forall k :: 0 <= k < |schedule| ==> schedule[k] < n) && Finished(Run(w, Start(q0, n), schedule))
  }

  /** A crawl can finish exactly when no URL of its queue is blank. */
  lemma FinishesIffNoBlank(w: World, q0: seq<string>, n: nat)
    requires 1 <= n
    ensures CanFinish(w, q0, n) <==> NoBlank(q0)
  {
    if NoBlank(q0) {
      var schedule := FinishingSchedule(w, Start(q0, n));
    } else {
      forall schedule: seq<nat> | (forall k :: 0 <= k < |schedule| ==> schedule[k] < n)
        ensures !Finished(Run(w, Start(q0, n), schedule))
      {
        NeverFinished(w, q0, n, schedule);
      }
    }
  }

  lemma NeverFinished(w: World, q0: seq<string>, n: nat, schedule: seq<nat>)
    requires 1 <= n && !NoBlank(q0)
    requires forall k :: 0 <= k < |schedule| ==> schedule[k] < n
    ensures !Finished(Run(w, Start(q0, n), schedule))
  {
    var c := Run(w, Start(q0, n), schedule);
    InvRun(w, q0, Start(q0, n), schedule);
    BlankStays(q0, c);
    assert c.threads[0] in c.threads;
  }

  lemma BlankStays(q0: seq<string>, c: Crawl)
    requires QueueInv(q0, c) && !NoBlank(q0)
    ensures c.shared.q != []
  {
    var k :| 0 <= k < |q0| && Blank(q0[k]);
    assert q0[k] in q0;
    assert c.shared.q == [] ==> c.popped == q0;
  }
}
