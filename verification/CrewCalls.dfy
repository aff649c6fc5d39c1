/**
 What the answers of crew_add and crew_join mean, over every run: a call is
 followed from the state in which the thread enters it to the state in which
 the thread is back, whatever the other threads do in between.
 */
module CrewCalls {
  import opened Options
  import opened Crew

  /** Thread t is inside one call from state i until it is back in state j. */
  ghost predicate IsCall(run: seq<State>, t: Tid, i: nat, j: nat) {
    && i < j < |run|
    && (forall k :: i <= k <= j ==> t in run[k].pc)
    && (forall k :: i <= k < j ==> !run[k].pc[t].Idle?)
    && run[j].pc[t].Idle?
  }

  /** Step k of the run is one of thread t. */
  ghost predicate StepOf(c: Config, run: seq<State>, t: Tid, k: nat)
    requires k + 1 < |run|
  {
    exists m :: Moves(c, run[k], m, run[k + 1]) && m.t == t
  }

  /** In step k thread t has the job accepted. */
  ghost predicate Accepts(c: Config, run: seq<State>, t: Tid, job: Job, k: nat)
    requires k + 1 < |run|
  {
    StepOf(c, run, t, k) && run[k + 1].sh.accepted == run[k].sh.accepted + [job]
  }

  /** In step k thread t finds the pool full and not blocking on entry, or closed or shut down behind its wait. */
  ghost predicate IsTurnedAway(c: Config, run: seq<State>, t: Tid, k: nat)
    requires k + 1 < |run|
  {
    && StepOf(c, run, t, k) && t in run[k].pc
    && var s := run[k].sh;
       if run[k].pc[t].PEntry? then s.cursize == c.maxsize && !c.block
       else run[k].pc[t].PCheck? && (s.closed || s.shutdown)
  }

  /** In how many of the steps i to k - 1 thread t has the job accepted. */
  ghost function Acceptances(c: Config, run: seq<State>, t: Tid, job: Job, i: nat, k: nat): nat
    requires k < |run|
    decreases k
  {
    if k <= i then 0
    else Acceptances(c, run, t, job, i, k - 1) + if Accepts(c, run, t, job, k - 1) then 1 else 0
  }

  /** In how many of the steps i to k - 1 thread t is turned away. */
  ghost function Refusals(c: Config, run: seq<State>, t: Tid, i: nat, k: nat): nat
    requires k < |run|
    decreases k
  {
    if k <= i then 0
    else Refusals(c, run, t, i, k - 1) + if IsTurnedAway(c, run, t, k - 1) then 1 else 0
  }

  /** How far a crew_add of `job` has come at p: how often the job was accepted and the call turned away. */
  predicate Added(p: Pc, job: Job, accepted: nat, refused: nat) {
    if p.PCount? then p.job == job && accepted == 1 && refused == 0
    else if p.PUnlock? then (if p.result then accepted == 1 && refused == 0 else accepted == 0 && refused == 1)
    else
      && (p.PLock? || p.PEntry? || p.PTest? || p.PWait? || p.PWake? || p.PCheck? || p.PInsert?)
      && p.job == job && accepted == 0 && refused == 0
  }

  ghost predicate TurnedAway(c: Config, m: Move) {
    if m.p.PEntry? then m.sh.cursize == c.maxsize && !c.block
    else m.p.PCheck? && (m.sh.closed || m.sh.shutdown)
  }

  lemma AddMoves(c: Config, pcs: map<Tid, Pc>, m: Move, job: Job, accepted: nat, refused: nat)
    requires Acts(c, pcs, m) && Added(m.p, job, accepted, refused)
    ensures var accepted' := accepted + if m.sh'.accepted == m.sh.accepted + [job] then 1 else 0;
            var refused' := refused + if TurnedAway(c, m) then 1 else 0;
            if m.p'.Idle? then m.p.PUnlock? && accepted' == accepted && refused' == refused
            else Added(m.p', job, accepted', refused')
  {
  }

  lemma OthersMove(c: Config, s: State, m: Move, s': State, t: Tid)
    requires Moves(c, s, m, s') && m.t != t && t in s.pc
    ensures t in s'.pc && s'.pc[t] == Rouse(t, s.pc[t], m.w)
  {
  }

  lemma AddWakes(t: Tid, p: Pc, w: Wake, job: Job, accepted: nat, refused: nat)
    requires Added(p, job, accepted, refused)
    ensures Added(Rouse(t, p, w), job, accepted, refused) && !Rouse(t, p, w).Idle?
  {
  }

  /** Step k of the run, from where the call of thread t has come so far. */
  lemma AddStep(c: Config, run: seq<State>, t: Tid, job: Job, i: nat, k: nat)
    requires IsRun(c, run) && i <= k && k + 1 < |run| && t in run[k].pc
    requires Added(run[k].pc[t], job, Acceptances(c, run, t, job, i, k), Refusals(c, run, t, i, k))
    ensures t in run[k + 1].pc
    ensures var a, r := Acceptances(c, run, t, job, i, k + 1), Refusals(c, run, t, i, k + 1);
            if run[k + 1].pc[t].Idle? then
              && run[k].pc[t].PUnlock?
              && a == Acceptances(c, run, t, job, i, k) && r == Refusals(c, run, t, i, k)
            else Added(run[k + 1].pc[t], job, a, r)
  {
    hide Acts, Added;
    var a, r := Acceptances(c, run, t, job, i, k), Refusals(c, run, t, i, k);
    assert Next(c, run[k], run[k + 1]);
    if StepOf(c, run, t, k) {
      var m :| Moves(c, run[k], m, run[k + 1]) && m.t == t;
      AddMoves(c, run[k].pc, m, job, a, r);
    } else {
      var m :| Moves(c, run[k], m, run[k + 1]);
      OthersMove(c, run[k], m, run[k + 1], t);
      AddWakes(t, run[k].pc[t], m.w, job, a, r);
    }
  }

  lemma {:induction false} AddHistory(c: Config, run: seq<State>, t: Tid, i: nat, j: nat, k: nat)
    requires IsRun(c, run) && IsCall(run, t, i, j) && run[i].pc[t].PLock? && i <= k < j
    ensures Added(run[k].pc[t], run[i].pc[t].job,
                  Acceptances(c, run, t, run[i].pc[t].job, i, k), Refusals(c, run, t, i, k))
    decreases k
  {
    hide IsRun, Accepts, IsTurnedAway;
    if k > i {
      AddHistory(c, run, t, i, j, k - 1);
      AddStep(c, run, t, run[i].pc[t].job, i, k - 1);
    }
  }

  /**
   The answer of crew_add. It is TRUE if and only if the call had its job
   accepted, and then it had it accepted exactly once; it is FALSE if and only
   if the call found the pool full and not blocking on entry, or closed or shut
   down behind its wait.
   */
  lemma AddAnswers(c: Config, run: seq<State>, t: Tid, i: nat, j: nat)
    requires IsRun(c, run) && IsCall(run, t, i, j) && run[i].pc[t].PLock?
    ensures run[j - 1].pc[t].PUnlock?
    ensures Acceptances(c, run, t, run[i].pc[t].job, i, j) == if run[j - 1].pc[t].result then 1 else 0
    ensures Refusals(c, run, t, i, j) == if run[j - 1].pc[t].result then 0 else 1
  {
    hide IsRun, Accepts, IsTurnedAway, Acceptances, Refusals;
    AddHistory(c, run, t, i, j, j - 1);
    AddStep(c, run, t, run[i].pc[t].job, i, j - 1);
  }

  /** Nobody goes to sleep on `not_full` once the pool is closed. */
  lemma ClosedPoolsLullNobody(c: Config, run: seq<State>, t: Tid, k: nat)
    requires IsRun(c, run) && k + 1 < |run| && t in run[k].pc && (run[k].sh.closed || run[k].sh.shutdown)
    ensures t in run[k + 1].pc && (run[k + 1].pc[t].PWait? ==> run[k].pc[t].PWait?)
  {
    hide Acts;
    assert Next(c, run[k], run[k + 1]);
    var m :| Moves(c, run[k], m, run[k + 1]);
    if m.t == t {
      ClosedMoves(c, run[k].pc, m);
    } else {
      OthersMove(c, run[k], m, run[k + 1], t);
    }
  }

  lemma ClosedMoves(c: Config, pcs: map<Tid, Pc>, m: Move)
    requires Acts(c, pcs, m) && (m.sh.closed || m.sh.shutdown)
    ensures !m.p'.PWait?
  {
  }

  // -------------------------------------------------------------------------
  // Closing and shutting down
  // -------------------------------------------------------------------------

  lemma ClosedKeeps(c: Config, pcs: map<Tid, Pc>, m: Move)
    requires Acts(c, pcs, m) && m.sh.closed && !m.p.PInsert?
    ensures m.sh'.closed && m.sh'.accepted == m.sh.accepted
  {
  }

  lemma ShutKeeps(c: Config, pcs: map<Tid, Pc>, m: Move)
    requires Acts(c, pcs, m) && m.sh.shutdown
    ensures m.sh'.shutdown && m.sh'.taken == m.sh.taken
  {
  }

  /** Once the pool is closed, no job is accepted any more. */
  lemma {:induction false} ClosedAcceptsNothing(c: Config, run: seq<State>, i: nat, j: nat)
    requires IsRun(c, run) && i <= j < |run| && run[i].sh.closed
    ensures run[j].sh.closed && run[j].sh.accepted == run[i].sh.accepted
    decreases j
  {
    hide Acts, Local, Global, Joined;
    if i < j {
      ClosedAcceptsNothing(c, run, i, j - 1);
      var s, s' := run[j - 1], run[j];
      assert Next(c, s, s');
      var m :| Moves(c, s, m, s');
      RunInv(c, run, j - 1);
      NoInsertion(c, s, m.t);
      ClosedKeeps(c, s.pc, m);
    }
  }

  lemma NoInsertion(c: Config, s: State, t: Tid)
    requires Inv(c, s) && t in s.pc && s.sh.closed
    ensures !s.pc[t].PInsert?
  {
    hide Global, Joined;
    assert Local(c, s.sh, PcOf(s.pc, s.sh.owner), PcOf(s.pc, s.sh.closer), t, s.pc[t]);
  }

  /** Once the pool is shut down, no worker takes a job any more. */
  lemma {:induction false} ShutTakesNothing(c: Config, run: seq<State>, i: nat, j: nat)
    requires IsRun(c, run) && i <= j < |run| && run[i].sh.shutdown
    ensures run[j].sh.shutdown && run[j].sh.taken == run[i].sh.taken
    decreases j
  {
    hide Acts;
    if i < j {
      ShutTakesNothing(c, run, i, j - 1);
      assert Next(c, run[j - 1], run[j]);
      var m :| Moves(c, run[j - 1], m, run[j]);
      ShutKeeps(c, run[j - 1].pc, m);
    }
  }

  // -------------------------------------------------------------------------
  // crew_join
  // -------------------------------------------------------------------------

  /** In step k thread t closes the pool. */
  ghost predicate IsClosing(c: Config, run: seq<State>, t: Tid, k: nat)
    requires k + 1 < |run|
  {
    StepOf(c, run, t, k) && !run[k].sh.closed && run[k + 1].sh.closed
  }

  /** In step k thread t finds on entry that the pool is closed or shut down already. */
  ghost predicate IsTooLate(c: Config, run: seq<State>, t: Tid, k: nat)
    requires k + 1 < |run|
  {
    && StepOf(c, run, t, k) && t in run[k].pc
    && run[k].pc[t].JEntry? && (run[k].sh.closed || run[k].sh.shutdown)
  }

  ghost function Closings(c: Config, run: seq<State>, t: Tid, i: nat, k: nat): nat
    requires k < |run|
    decreases k
  {
    if k <= i then 0 else Closings(c, run, t, i, k - 1) + if IsClosing(c, run, t, k - 1) then 1 else 0
  }

  ghost function Rejections(c: Config, run: seq<State>, t: Tid, i: nat, k: nat): nat
    requires k < |run|
    decreases k
  {
    if k <= i then 0 else Rejections(c, run, t, i, k - 1) + if IsTooLate(c, run, t, k - 1) then 1 else 0
  }

  /** How far a crew_join has come at p: how often it closed the pool and found it closed. */
  predicate Joining(p: Pc, finish: bool, closed: nat, late: nat) {
    if p.JLock? || p.JEntry? then p.finish == finish && closed == 0 && late == 0
    else if p.JRefuse? then closed == 0 && late == 1
    else Closing(p) && p.finish == finish && closed == 1 && late == 0
  }

  lemma JoinStepMoves(c: Config, pcs: map<Tid, Pc>, m: Move, finish: bool, closed: nat, late: nat)
    requires Acts(c, pcs, m) && Joining(m.p, finish, closed, late)
    ensures var closed' := closed + if !m.sh.closed && m.sh'.closed then 1 else 0;
            var late' := late + if m.p.JEntry? && (m.sh.closed || m.sh.shutdown) then 1 else 0;
            if m.p'.Idle? then (m.p.JRefuse? || m.p == JRet(finish)) && closed' == closed && late' == late
            else Joining(m.p', finish, closed', late')
  {
  }

  lemma JoinWakes(t: Tid, p: Pc, w: Wake, finish: bool, closed: nat, late: nat)
    requires Joining(p, finish, closed, late)
    ensures Joining(Rouse(t, p, w), finish, closed, late) && !Rouse(t, p, w).Idle?
  {
  }

  lemma JoinStep(c: Config, run: seq<State>, t: Tid, finish: bool, i: nat, k: nat)
    requires IsRun(c, run) && i <= k && k + 1 < |run| && t in run[k].pc
    requires Joining(run[k].pc[t], finish, Closings(c, run, t, i, k), Rejections(c, run, t, i, k))
    ensures t in run[k + 1].pc
    ensures var n, d := Closings(c, run, t, i, k + 1), Rejections(c, run, t, i, k + 1);
            if run[k + 1].pc[t].Idle? then
              && (run[k].pc[t].JRefuse? || run[k].pc[t] == JRet(finish))
              && n == Closings(c, run, t, i, k) && d == Rejections(c, run, t, i, k)
            else Joining(run[k + 1].pc[t], finish, n, d)
  {
    hide Acts, Joining;
    var n, d := Closings(c, run, t, i, k), Rejections(c, run, t, i, k);
    assert Next(c, run[k], run[k + 1]);
    if StepOf(c, run, t, k) {
      var m :| Moves(c, run[k], m, run[k + 1]) && m.t == t;
      JoinStepMoves(c, run[k].pc, m, finish, n, d);
    } else {
      var m :| Moves(c, run[k], m, run[k + 1]);
      OthersMove(c, run[k], m, run[k + 1], t);
      JoinWakes(t, run[k].pc[t], m.w, finish, n, d);
    }
  }

  lemma {:induction false} JoinHistory(c: Config, run: seq<State>, t: Tid, i: nat, j: nat, k: nat)
    requires IsRun(c, run) && IsCall(run, t, i, j) && run[i].pc[t].JLock? && i <= k < j
    ensures Joining(run[k].pc[t], run[i].pc[t].finish, Closings(c, run, t, i, k), Rejections(c, run, t, i, k))
    decreases k
  {
    hide IsRun, IsClosing, IsTooLate;
    if k > i {
      JoinHistory(c, run, t, i, j, k - 1);
      JoinStep(c, run, t, run[i].pc[t].finish, i, k - 1);
    }
  }

  /**
   The answer of crew_join, TRUE at JRet and FALSE at JRefuse. It is TRUE if and
   only if this call closed the pool, and FALSE if and only if it found the pool
   closed or shut down on entry.
   */
  lemma JoinAnswers(c: Config, run: seq<State>, t: Tid, i: nat, j: nat)
    requires IsRun(c, run) && IsCall(run, t, i, j) && run[i].pc[t].JLock?
    ensures run[j - 1].pc[t] == JRefuse || run[j - 1].pc[t] == JRet(run[i].pc[t].finish)
    ensures Closings(c, run, t, i, j) == if run[j - 1].pc[t].JRet? then 1 else 0
    ensures Rejections(c, run, t, i, j) == if run[j - 1].pc[t].JRet? then 0 else 1
  {
    hide IsRun, IsClosing, IsTooLate, Closings, Rejections;
    JoinHistory(c, run, t, i, j, j - 1);
    JoinStep(c, run, t, run[i].pc[t].finish, i, j - 1);
  }
}
