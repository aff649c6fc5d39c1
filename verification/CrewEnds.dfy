/**
 Calls of the crew return: without new calls and without spurious wake-ups every
 move of any thread lowers a measure, so that such a run ends, and it ends with
 all callers back if the pool is lively.
 */
module CrewEnds {
  import opened Crew
  import opened Options

  /** A move that neither starts a call nor wakes up for no reason. */
  ghost predicate Steady(c: Config, s: State, m: Move, s': State) {
    Moves(c, s, m, s') && !m.p.Idle? && !m.p.WWait? && !m.p.PWait? && !m.p.JWait?
  }

  ghost predicate SteadyNext(c: Config, s: State, s': State) {
    exists m :: Steady(c, s, m, s')
  }

  ghost predicate SteadyRun(c: Config, run: seq<State>) {
    run != [] && forall i :: 0 <= i < |run| - 1 ==> SteadyNext(c, run[i], run[i + 1])
  }

  /** What an unserved job can still cause among n threads. */
  function JobWeight(n: nat): nat {
    8 + 4 * n
  }

  /**
   How far a thread is from rest, counting what it may still wake. A thread that
   wakes up goes back to sleep in fewer steps than its waking was worth.
   */
  function Rank(c: Config, n: nat, p: Pc): nat {
    var offer := 4 + JobWeight(n) + 4 * n;
    var shut := c.size + 6 + 6 * n;
    match p
    case WDone => 0
    case WWait => 0
    case WQuit => 1
    case WTake => 2
    case WTest => 3
    case WWake => 4
    case WLock => 4
    case WRun(_) => 5
    case WUnlock(_) => 6
    case WEmpty(_) => 7 + 2 * n
    case WFull(_) => 8 + 4 * n
    case Idle => 0
    case PUnlock(_) => 1
    case PCount(_) => 2
    case PInsert(_) => offer - 1
    case PCheck(_) => offer
    case PWait(_) => offer
    case PTest(_) => offer + 1
    case PWake(_) => offer + 2
    case PEntry(_) => offer + 2
    case PLock(_) => offer + 3
    case JRet(_) => 1
    case JRefuse => 1
    case JJoin(_, k) => 2 + if k < c.size then c.size - k else 0
    case JNotFull(_) => c.size + 3 + 2 * n
    case JNotEmpty(_) => c.size + 4 + 6 * n
    case JUnlock(_) => c.size + 5 + 6 * n
    case JShut(_) => shut
    case JWait(_) => shut
    case JTest(_) => shut + 1
    case JWake(_) => shut + 2
    case JEntry(_) => shut + 2
    case JLock(_) => shut + 3
  }

  /** The ranks of the threads in `who`, together. */
  ghost function Ranks(c: Config, n: nat, pc: map<Tid, Pc>, who: set<Tid>): nat
    requires who <= pc.Keys
  {
    if who == {} then 0
    else
      var t :| t in who;
      Rank(c, n, pc[t]) + Ranks(c, n, pc, who - {t})
  }

  lemma {:induction false} RanksWithout(c: Config, n: nat, pc: map<Tid, Pc>, who: set<Tid>, t: Tid)
    requires who <= pc.Keys && t in who
    ensures Ranks(c, n, pc, who) == Rank(c, n, pc[t]) + Ranks(c, n, pc, who - {t})
    decreases |who|
  {
    hide Rank;
    var u :| u in who && Ranks(c, n, pc, who) == Rank(c, n, pc[u]) + Ranks(c, n, pc, who - {u});
    if u != t {
      RanksWithout(c, n, pc, who - {u}, t);
      RanksWithout(c, n, pc, who - {t}, u);
      assert who - {u} - {t} == who - {t} - {u};
    }
  }

  /** If no rank grows by more than d, the sum grows by no more than d a thread. */
  lemma {:induction false} RanksGrow(c: Config, n: nat, pc: map<Tid, Pc>, pc': map<Tid, Pc>, who: set<Tid>, d: nat)
    requires who <= pc.Keys && who <= pc'.Keys
    requires forall u :: u in who ==> Rank(c, n, pc'[u]) <= Rank(c, n, pc[u]) + d
    ensures Ranks(c, n, pc', who) <= Ranks(c, n, pc, who) + d * |who|
    decreases |who|
  {
    hide Rank, Ranks;
    if who == {} {
      NoRanks(c, n, pc);
      NoRanks(c, n, pc');
    } else {
      var t :| t in who;
      RanksWithout(c, n, pc, who, t);
      RanksWithout(c, n, pc', who, t);
      RanksGrow(c, n, pc, pc', who - {t}, d);
      assert d * |who| == d * |who - {t}| + d;
    }
  }

  lemma NoRanks(c: Config, n: nat, pc: map<Tid, Pc>)
    ensures Ranks(c, n, pc, {}) == 0
  {
  }

  /** The measure of a state: how far all threads are from rest, and the jobs that wait. */
  ghost function Measure(c: Config, s: State): nat {
    Ranks(c, |s.pc|, s.pc, s.pc.Keys) + JobWeight(|s.pc|) * |s.sh.queue|
  }

  /** By how much a wake-up raises the rank of a thread. */
  function Waking(w: Wake): nat {
    if w.who == {} then 0 else if w.on == NotEmpty then 4 else 2
  }

  lemma RouseRank(c: Config, n: nat, u: Tid, p: Pc, w: Wake)
    ensures Rank(c, n, Rouse(u, p, w)) <= Rank(c, n, p) + Waking(w)
  {
  }

  /** The mover pays for itself, for the job it queues and for all it wakes. */
  ghost predicate Pays(c: Config, n: nat, m: Move) {
    Rank(c, n, m.p') + JobWeight(n) * |m.sh'.queue| + Waking(m.w) * (n - 1)
    < Rank(c, n, m.p) + JobWeight(n) * |m.sh.queue|
  }

  lemma JobsWeigh(n: nat, q: nat, q': nat)
    ensures q' <= q ==> JobWeight(n) * q' <= JobWeight(n) * q
    ensures q' < q ==> JobWeight(n) * q' + JobWeight(n) <= JobWeight(n) * q
    ensures q' <= q + 1 ==> JobWeight(n) * q' <= JobWeight(n) * q + JobWeight(n)
  {
    hide JobWeight;
    Heavier(JobWeight(n), q', q);
    Heavier(JobWeight(n), q' + 1, q);
    Heavier(JobWeight(n), q', q + 1);
  }

  lemma Heavier(w: nat, a: nat, b: nat)
    ensures a <= b ==> w * a <= w * b
    ensures w * (a + 1) == w * a + w && w * (b + 1) == w * b + w
  {
    if a <= b {
      assert w * b == w * a + w * (b - a);
    }
  }

  lemma QuietPays(c: Config, pcs: map<Tid, Pc>, n: nat, m: Move)
    requires n >= 1 && m.w.who == {} && !m.p.Idle? && !m.p.WWait? && !m.p.PWait? && !m.p.JWait?
    requires || Fetches(m.sh, m.t, m.p, m.sh', m.p') || Serves(m.sh, m.p, m.sh', m.p')
             || Offers(c, m.sh, m.t, m.p, m.sh', m.p') || Closes(m.sh, m.t, m.p, m.sh', m.p')
             || Shuts(c, m.sh, pcs, m.p, m.sh', m.p')
    ensures Pays(c, n, m)
  {
    assert m.sh'.queue == m.sh.queue;
    assert Rank(c, n, m.p') < Rank(c, n, m.p);
  }

  lemma TakePays(c: Config, n: nat, m: Move)
    requires n >= 1 && m.w.who == {} && Takes(c, m.sh, m.p, m.sh', m.p')
    ensures Pays(c, n, m)
  {
    JobsWeigh(n, |m.sh.queue|, |m.sh'.queue|);
  }

  lemma CommitPays(c: Config, n: nat, m: Move)
    requires n >= 1 && m.w.who == {} && Commits(m.sh, m.p, m.sh', m.p')
    ensures Pays(c, n, m)
  {
    JobsWeigh(n, |m.sh.queue|, |m.sh'.queue|);
  }

  lemma BroadcastPays(c: Config, n: nat, m: Move)
    requires n >= 1 && Broadcasts(c, m.sh, m.p, m.sh', m.p', m.w.on)
    ensures Pays(c, n, m)
  {
    JobsWeigh(n, |m.sh.queue|, |m.sh'.queue|);
  }

  lemma SignalPays(c: Config, pcs: map<Tid, Pc>, n: nat, m: Move)
    requires n >= 1 && Signals(m.sh, pcs, m.p, m.sh', m.p', m.w)
    ensures Pays(c, n, m)
  {
  }

  lemma ActsPay(c: Config, pcs: map<Tid, Pc>, n: nat, m: Move)
    requires n >= 1 && Acts(c, pcs, m) && !m.p.Idle? && !m.p.WWait? && !m.p.PWait? && !m.p.JWait?
    ensures Pays(c, n, m)
  {
    hide Fetches, Takes, Serves, Offers, Commits, Closes, Shuts, Broadcasts, Signals, Pays;
    if m.w.who == pcs.Keys && Broadcasts(c, m.sh, m.p, m.sh', m.p', m.w.on) {
      BroadcastPays(c, n, m);
    } else if Signals(m.sh, pcs, m.p, m.sh', m.p', m.w) {
      SignalPays(c, pcs, n, m);
    } else if Takes(c, m.sh, m.p, m.sh', m.p') {
      TakePays(c, n, m);
    } else if Commits(m.sh, m.p, m.sh', m.p') {
      CommitPays(c, n, m);
    } else {
      QuietPays(c, pcs, n, m);
    }
  }

  /** Every steady move lowers the measure. */
  lemma SteadyLowers(c: Config, s: State, m: Move, s': State)
    requires Steady(c, s, m, s')
    ensures Measure(c, s') < Measure(c, s)
  {
    hide Acts, Rank, Ranks, Rouse;
    var n, others := |s.pc|, s.pc.Keys - {m.t};
    assert s'.pc.Keys == s.pc.Keys;
    assert |s'.pc| == |s'.pc.Keys| == |s.pc.Keys| == n && |others| == n - 1;
    ActsPay(c, s.pc, n, m);
    RanksWithout(c, n, s.pc, s.pc.Keys, m.t);
    RanksWithout(c, n, s'.pc, s.pc.Keys, m.t);
    forall u | u in others
      ensures Rank(c, n, s'.pc[u]) <= Rank(c, n, s.pc[u]) + Waking(m.w)
    {
      RouseRank(c, n, u, s.pc[u], m.w);
    }
    RanksGrow(c, n, s.pc, s'.pc, others, Waking(m.w));
  }

  /** No steady run from a state takes more steps than its measure. */
  lemma {:induction false} SteadyRunsEnd(c: Config, run: seq<State>)
    requires SteadyRun(c, run)
    ensures |run| - 1 + Measure(c, run[|run| - 1]) <= Measure(c, run[0])
  {
    hide Measure, Steady;
    var k := |run| - 1;
    if k > 0 {
      var less := run[..k];
      forall i | 0 <= i < |less| - 1
        ensures SteadyNext(c, less[i], less[i + 1])
      {
        assert SteadyNext(c, run[i], run[i + 1]);
      }
      SteadyRunsEnd(c, less);
      assert SteadyNext(c, run[k - 1], run[k - 1 + 1]);
      var m :| Steady(c, run[k - 1], m, run[k]);
      SteadyLowers(c, run[k - 1], m, run[k]);
    }
  }

  /** All callers are back. */
  ghost predicate AllBack(s: State) {
    forall t :: t in s.pc && !IsWorker(s.pc[t]) ==> s.pc[t].Idle?
  }

  /** Where no steady move is left nobody can move, and no call waits only to return. */
  lemma AtRest(c: Config, s: State)
    requires Inv(c, s) && forall s' :: !SteadyNext(c, s, s')
    ensures Stuck(c, s) && forall t :: t in s.pc ==> !s.pc[t].JRet?
  {
    hide Inv, Moves;
    forall t | t in s.pc
      ensures !CanMove(c, s, t)
    {
      if CanMove(c, s, t) {
        CanMoveSteadily(c, s, t);
      }
    }
    forall t | t in s.pc
      ensures !s.pc[t].JRet?
    {
      if s.pc[t].JRet? {
        ReturnMoves(c, s, t);
      }
    }
  }

  lemma CanMoveSteadily(c: Config, s: State, t: Tid)
    requires Inv(c, s) && t in s.pc && CanMove(c, s, t)
    ensures exists s' :: SteadyNext(c, s, s')
  {
    hide Inv, Moves;
    CanMoveExactly(c, s, t);
    var m: Move, s' :| m.t == t && Moves(c, s, m, s');
    MoverAt(c, s, m, s');
    assert Steady(c, s, m, s');
    assert SteadyNext(c, s, s');
  }

  lemma MoverAt(c: Config, s: State, m: Move, s': State)
    requires Moves(c, s, m, s')
    ensures m.t in s.pc && m.p == s.pc[m.t]
  {
    hide Acts;
  }

  lemma ReturnMoves(c: Config, s: State, t: Tid)
    requires t in s.pc && s.pc[t].JRet?
    ensures exists s' :: SteadyNext(c, s, s')
  {
    var m := Move(t, s.pc[t], s.sh, Idle, s.sh, Wake(Empty, {}));
    var s' := State(s.sh, map u | u in s.pc :: if u == t then Idle else Rouse(u, s.pc[u], m.w));
    assert Shuts(c, m.sh, s.pc, m.p, m.sh', m.p');
    assert Steady(c, s, m, s');
    assert SteadyNext(c, s, s');
  }

  /**
   Every call returns. From any reachable state of a lively pool, a run in which
   no call starts and nobody wakes up for no reason takes at most `Measure`
   steps, whatever the schedule; and when it can take no more, all callers are
   back.
   */
  lemma CallsReturn(c: Config, run: seq<State>, i: nat, rest: seq<State>)
    requires Lively(c) && IsRun(c, run) && i < |run|
    requires SteadyRun(c, rest) && rest[0] == run[i]
    ensures |rest| - 1 <= Measure(c, run[i])
    ensures var s := rest[|rest| - 1]; (forall s' :: !SteadyNext(c, s, s')) ==> AllBack(s)
  {
    hide Measure, Inv, Stuck, CallersDone;
    SteadyRunsEnd(c, rest);
    var s := rest[|rest| - 1];
    var whole := Continued(c, run, i, rest);
    if forall s' :: !SteadyNext(c, s, s') {
      RunInv(c, whole, |whole| - 1);
      AtRest(c, s);
      LivelyDone(c, whole, |whole| - 1);
      Back(s);
    }
  }

  lemma Back(s: State)
    requires CallersDone(s) && forall t :: t in s.pc ==> !s.pc[t].JRet?
    ensures AllBack(s)
  {
  }

  /** A steady run continues a run. */
  lemma {:induction false} Continued(c: Config, run: seq<State>, i: nat, rest: seq<State>)
    returns (whole: seq<State>)
    requires IsRun(c, run) && i < |run| && SteadyRun(c, rest) && rest[0] == run[i]
    ensures IsRun(c, whole) && whole[|whole| - 1] == rest[|rest| - 1]
    decreases |rest|
  {
    hide Init;
    var k := |rest| - 1;
    if k == 0 {
      whole := run[..i + 1];
      forall j | 0 <= j < |whole| - 1
        ensures Next(c, whole[j], whole[j + 1])
      {
        assert Next(c, run[j], run[j + 1]);
      }
    } else {
      var less := rest[..k];
      forall j | 0 <= j < |less| - 1
        ensures SteadyNext(c, less[j], less[j + 1])
      {
        assert SteadyNext(c, rest[j], rest[j + 1]);
      }
      whole := Continued(c, run, i, less);
      assert SteadyNext(c, rest[k - 1], rest[k - 1 + 1]);
      var m :| Steady(c, rest[k - 1], m, rest[k]);
      assert Next(c, rest[k - 1], rest[k]);
      Extend(c, whole, rest[k]);
      whole := whole + [rest[k]];
    }
  }

  lemma LivelyDone(c: Config, run: seq<State>, i: nat)
    requires Lively(c) && IsRun(c, run) && i < |run| && Stuck(c, run[i])
    ensures CallersDone(run[i])
  {
    hide IsRun, Stuck, CallersDone;
    NoDeadlockExactly(c);
  }
}
