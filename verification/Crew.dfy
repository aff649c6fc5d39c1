/**
 The thread pool of siege-4.1.7/src/crew.c as a transition system.

 One step is one action between two scheduling points: taking the mutex, one
 test of a wait loop, entering a wait set (which releases the mutex in the same
 action), leaving it, one signal or broadcast, releasing the mutex, one call of
 a work routine, or one pthread_join. Wait sets are not stored: a thread sleeps
 on a condition variable when its program counter says so.
 */
module Crew {

  import opened Options

  type Tid = nat
  type Job = nat

  datatype Config = Config(size: nat, maxsize: nat, block: bool)

  datatype Pc =
    // crew_thread
    | WLock | WTest | WWait | WWake | WTake | WQuit | WDone
    | WFull(job: Job) | WEmpty(job: Job) | WUnlock(job: Job) | WRun(job: Job)
    // a thread of the program outside the pool, between calls
    | Idle
    // crew_add
    | PLock(job: Job) | PEntry(job: Job) | PTest(job: Job) | PWait(job: Job) | PWake(job: Job)
    | PCheck(job: Job) | PInsert(job: Job) | PCount(job: Job) | PUnlock(result: bool)
    // crew_join
    | JLock(finish: bool) | JEntry(finish: bool) | JRefuse
    | JTest(finish: bool) | JWait(finish: bool) | JWake(finish: bool) | JShut(finish: bool)
    | JUnlock(finish: bool) | JNotEmpty(finish: bool) | JNotFull(finish: bool)
    | JJoin(finish: bool, next: nat) | JRet(finish: bool)

  /**
   The fields of CREW_T, the owner of the mutex, and history variables:
   `accepted` (jobs linked by crew_add), `taken` (jobs unlinked by workers),
   `ran` (jobs whose routine was called), `closer` (the thread whose crew_join
   set `closed`) and `drain` (that call's `finish`).
   */
  datatype Shared = Shared(
    cursize: int, total: int, queue: seq<Job>, closed: bool, shutdown: bool, owner: Option<Tid>,
    accepted: seq<Job>, taken: seq<Job>, ran: seq<Job>, closer: Option<Tid>, drain: bool)

  datatype State = State(sh: Shared, pc: map<Tid, Pc>)

  datatype Condition = NotEmpty | NotFull | Empty

  /** The threads named in `who` leave the wait set of `on`. */
  datatype Wake = Wake(on: Condition, who: set<Tid>)

  predicate IsWorker(p: Pc) {
    p.WLock? || p.WTest? || p.WWait? || p.WWake? || p.WTake? || p.WQuit? || p.WDone?
    || p.WFull? || p.WEmpty? || p.WUnlock? || p.WRun?
  }

  predicate Holding(p: Pc) {
    p.WTest? || p.WTake? || p.WQuit? || p.WFull? || p.WEmpty? || p.WUnlock?
    || p.PEntry? || p.PTest? || p.PCheck? || p.PInsert? || p.PCount? || p.PUnlock?
    || p.JEntry? || p.JRefuse? || p.JTest? || p.JShut? || p.JUnlock?
  }

  predicate Sleeping(p: Pc, on: Condition) {
    match on
    case NotEmpty => p.WWait?
    case NotFull => p.PWait?
    case Empty => p.JWait?
  }

  /** The crew_join that closed the crew, from there to its return. */
  predicate Closing(p: Pc) {
    p.JTest? || p.JWait? || p.JWake? || p.JShut? || Shutting(p)
  }

  /** Past the assignment to `shutdown`. */
  predicate Shutting(p: Pc) {
    p.JUnlock? || p.JNotEmpty? || p.JNotFull? || p.JJoin? || p.JRet?
  }

  function Rouse(u: Tid, p: Pc, w: Wake): Pc {
    if u !in w.who || !Sleeping(p, w.on) then p
    else if p.WWait? then WWake
    else if p.PWait? then PWake(p.job)
    else JWake(p.finish)
  }

  // -------------------------------------------------------------------------
  // The three functions, one action at a time
  // -------------------------------------------------------------------------

  /** crew_thread around its wait loop. */
  ghost predicate Fetches(sh: Shared, t: Tid, p: Pc, sh': Shared, p': Pc) {
    match p
    case WLock => sh.owner == None && sh' == sh.(owner := Some(t)) && p' == WTest
    case WTest =>
      if sh.cursize == 0 && !sh.shutdown then sh' == sh.(owner := None) && p' == WWait
      else sh' == sh && p' == WTake
    case WWait => sh' == sh && p' == WWake  // a spurious wake-up
    case WWake => sh.owner == None && sh' == sh.(owner := Some(t)) && p' == WTest
    case WQuit => sh' == sh.(owner := None) && p' == WDone
    case _ => false
  }

  /** crew_thread unlinking a job. */
  ghost predicate Takes(c: Config, sh: Shared, p: Pc, sh': Shared, p': Pc) {
    match p
    case WTake =>
      if sh.shutdown then sh' == sh && p' == WQuit
      else
        sh.queue != [] && p' == WFull(sh.queue[0]) &&
        sh' == sh.(cursize := sh.cursize - 1,
                   queue := if sh.cursize - 1 == 0 then [] else sh.queue[1..],
                   taken := sh.taken + [sh.queue[0]])
    case WFull(job) => !(c.block && sh.cursize == c.maxsize - 1) && sh' == sh && p' == WEmpty(job)
    case _ => false
  }

  /** crew_thread leaving the critical section and running the job. */
  ghost predicate Serves(sh: Shared, p: Pc, sh': Shared, p': Pc) {
    match p
    case WEmpty(job) => sh.cursize != 0 && sh' == sh && p' == WUnlock(job)
    case WUnlock(job) => sh' == sh.(owner := None) && p' == WRun(job)
    case WRun(job) => sh' == sh.(ran := sh.ran + [job]) && p' == WLock
    case _ => false
  }

  /** crew_add up to its decision. */
  ghost predicate Offers(c: Config, sh: Shared, t: Tid, p: Pc, sh': Shared, p': Pc) {
    match p
    case Idle => sh' == sh && (p'.PLock? || p'.JLock?)
    case PLock(job) => sh.owner == None && sh' == sh.(owner := Some(t)) && p' == PEntry(job)
    case PEntry(job) => sh' == sh && p' == if sh.cursize == c.maxsize && !c.block then PUnlock(false) else PTest(job)
    case PTest(job) =>
      if sh.cursize == c.maxsize && !(sh.shutdown || sh.closed) then sh' == sh.(owner := None) && p' == PWait(job)
      else sh' == sh && p' == PCheck(job)
    case PWait(job) => sh' == sh && p' == PWake(job)  // a spurious wake-up
    case PWake(job) => sh.owner == None && sh' == sh.(owner := Some(t)) && p' == PTest(job)
    case _ => false
  }

  /** crew_add committing or refusing. */
  ghost predicate Commits(sh: Shared, p: Pc, sh': Shared, p': Pc) {
    match p
    case PCheck(job) => sh' == sh && p' == if sh.shutdown || sh.closed then PUnlock(false) else PInsert(job)
    case PInsert(job) =>
      sh.cursize != 0 && p' == PCount(job) && sh' == sh.(queue := sh.queue + [job], accepted := sh.accepted + [job])
    case PCount(job) => p' == PUnlock(true) && sh' == sh.(cursize := sh.cursize + 1, total := sh.total + 1)
    case PUnlock(_) => sh' == sh.(owner := None) && p' == Idle
    case _ => false
  }

  /** crew_join up to the end of its wait. */
  ghost predicate Closes(sh: Shared, t: Tid, p: Pc, sh': Shared, p': Pc) {
    match p
    case JLock(finish) => sh.owner == None && sh' == sh.(owner := Some(t)) && p' == JEntry(finish)
    case JEntry(finish) =>
      if sh.closed || sh.shutdown then sh' == sh && p' == JRefuse
      else
        sh' == sh.(closed := true, closer := Some(t), drain := finish) &&
        p' == if finish then JTest(finish) else JShut(finish)
    case JRefuse => sh' == sh.(owner := None) && p' == Idle
    case JTest(finish) =>
      if sh.cursize != 0 && !sh.shutdown then sh' == sh.(owner := None) && p' == JWait(finish)
      else sh' == sh && p' == JShut(finish)
    case JWait(finish) => sh' == sh && p' == JWake(finish)  // a spurious wake-up
    case JWake(finish) => sh.owner == None && sh' == sh.(owner := Some(t)) && p' == JTest(finish)
    case _ => false
  }

  /** crew_join from the assignment to `shutdown`. */
  ghost predicate Shuts(c: Config, sh: Shared, pcs: map<Tid, Pc>, p: Pc, sh': Shared, p': Pc) {
    match p
    case JShut(finish) => sh' == sh.(shutdown := true) && p' == JUnlock(finish)
    case JUnlock(finish) => sh' == sh.(owner := None) && p' == JNotEmpty(finish)
    case JJoin(finish, k) =>
      sh' == sh &&
      if k < c.size then k in pcs && pcs[k].WDone? && p' == JJoin(finish, k + 1)
      else p' == JRet(finish)
    case JRet(_) => sh' == sh && p' == Idle
    case _ => false
  }

  /** Moves of a thread that broadcast a condition. */
  ghost predicate Broadcasts(c: Config, sh: Shared, p: Pc, sh': Shared, p': Pc, on: Condition) {
    match p
    case WFull(job) =>
      c.block && sh.cursize == c.maxsize - 1 && sh' == sh && p' == WEmpty(job) && on == NotFull
    case PInsert(job) =>
      sh.cursize == 0 && p' == PCount(job) && on == NotEmpty &&
      sh' == sh.(queue := [job], accepted := sh.accepted + [job])
    case JNotEmpty(finish) => sh' == sh && p' == JNotFull(finish) && on == NotEmpty
    case JNotFull(finish) => sh' == sh && p' == JJoin(finish, 0) && on == NotFull
    case _ => false
  }

  /** The one signal: the worker that empties the queue wakes at least one thread asleep on `empty`. */
  ghost predicate Signals(sh: Shared, pcs: map<Tid, Pc>, p: Pc, sh': Shared, p': Pc, w: Wake) {
    && p.WEmpty? && sh.cursize == 0 && sh' == sh && p' == WUnlock(p.job) && w.on == Empty
    && ((exists u :: u in pcs && pcs[u].JWait?) ==> exists u :: u in pcs && pcs[u].JWait? && u in w.who)
  }

  /**
   One action: thread `t` at `p` moves to `p'`, the shared fields go from `sh`
   to `sh'`, and the threads of `w` wake up.
   */
  datatype Move = Move(t: Tid, p: Pc, sh: Shared, p': Pc, sh': Shared, w: Wake)

  ghost predicate Acts(c: Config, pcs: map<Tid, Pc>, m: Move) {
    || (m.w.who == {} && (|| Fetches(m.sh, m.t, m.p, m.sh', m.p')
                          || Takes(c, m.sh, m.p, m.sh', m.p')
                          || Serves(m.sh, m.p, m.sh', m.p')
                          || Offers(c, m.sh, m.t, m.p, m.sh', m.p')
                          || Commits(m.sh, m.p, m.sh', m.p')
                          || Closes(m.sh, m.t, m.p, m.sh', m.p')
                          || Shuts(c, m.sh, pcs, m.p, m.sh', m.p')))
    || (m.w.who == pcs.Keys && Broadcasts(c, m.sh, m.p, m.sh', m.p', m.w.on))
    || Signals(m.sh, pcs, m.p, m.sh', m.p', m.w)
  }

  ghost predicate Moves(c: Config, s: State, m: Move, s': State) {
    && m.t in s.pc && m.p == s.pc[m.t] && m.sh == s.sh && m.sh' == s'.sh
    && Acts(c, s.pc, m)
    && s'.pc == map u | u in s.pc :: if u == m.t then m.p' else Rouse(u, s.pc[u], m.w)
  }

  ghost predicate Next(c: Config, s: State, s': State) {
    exists m :: Moves(c, s, m, s')
  }

  ghost predicate Init(c: Config, s: State) {
    && (forall w: Tid :: w < c.size ==> w in s.pc)
    && (forall t :: t in s.pc ==> s.pc[t] == if t < c.size then WLock else Idle)
    && s.sh == Shared(0, 0, [], false, false, None, [], [], [], None, false)
  }

  /** A run: any interleaving of the pool's workers and any number of callers. */
  ghost predicate IsRun(c: Config, run: seq<State>) {
    && run != [] && Init(c, run[0])
    && forall i :: 0 <= i < |run| - 1 ==> Next(c, run[i], run[i + 1])
  }

  // -------------------------------------------------------------------------
  // The invariant
  // -------------------------------------------------------------------------

  /** The program counter of a designated thread (the mutex owner, or the closer). */
  function PcOf(pc: map<Tid, Pc>, t: Option<Tid>): (p: Option<Pc>) {
    if t.Some? && t.value in pc then Some(pc[t.value]) else None
  }

  /** What the shared fields satisfy, given the counters of the mutex owner and of the closer. */
  ghost predicate Global(c: Config, sh: Shared, o: Option<Pc>, q: Option<Pc>) {
    && (sh.owner.Some? <==> o.Some?)
    && (o.Some? ==> Holding(o.value))
    && sh.cursize == |sh.queue| - (if o.Some? && o.value.PCount? then 1 else 0)
    && sh.total == |sh.accepted| - (if o.Some? && o.value.PCount? then 1 else 0)
    && sh.accepted == sh.taken + sh.queue
    && 0 <= sh.cursize <= c.maxsize
    && (sh.closed <==> sh.closer.Some?)
    && (sh.shutdown ==> sh.closed)
    && (sh.closed && !sh.shutdown ==> q.Some? && Closing(q.value))
    && (sh.shutdown && sh.drain ==> sh.queue == [])
  }

  /** What thread `u` at `p` knows; in particular, why it sleeps. */
  ghost predicate Local(c: Config, sh: Shared, o: Option<Pc>, q: Option<Pc>, u: Tid, p: Pc) {
    && (IsWorker(p) <==> u < c.size)
    && (Holding(p) <==> sh.owner == Some(u))
    && (Closing(p) ==> sh.closer == Some(u) && sh.drain == p.finish && (sh.shutdown <==> Shutting(p)))
    && match p
       case WTake => sh.queue != [] || sh.shutdown
       case WQuit => sh.shutdown
       case WDone => sh.shutdown
       case PWake(_) => c.block
       case PTest(_) => c.block || sh.cursize < c.maxsize
       case PCheck(_) => sh.cursize < c.maxsize || sh.closed
       case PInsert(_) => sh.cursize < c.maxsize && !sh.closed
       case PCount(_) => sh.cursize < c.maxsize && !sh.closed
       case JTest(finish) => finish
       case JWake(finish) => finish
       case JShut(finish) => finish ==> sh.queue == []
       // the three wait sets
       case WWait => sh.queue == [] && (sh.shutdown ==> OwesNotEmpty(q))
       case PWait(_) =>
         c.block && if sh.shutdown then OwesNotFull(q) else sh.cursize == c.maxsize || OwesRoom(c, sh, o)
       case JWait(finish) => finish && (sh.queue != [] || OwesEmpty(o))
       case _ => true
  }

  /** The closer still owes the broadcast on `not_empty`. */
  predicate OwesNotEmpty(q: Option<Pc>) {
    q.Some? && (q.value.JUnlock? || q.value.JNotEmpty?)
  }

  /** The closer still owes the broadcast on `not_full`. */
  predicate OwesNotFull(q: Option<Pc>) {
    q.Some? && (q.value.JUnlock? || q.value.JNotEmpty? || q.value.JNotFull?)
  }

  /** The worker inside the critical section still owes the broadcast on `not_full`. */
  predicate OwesRoom(c: Config, sh: Shared, o: Option<Pc>) {
    o.Some? && o.value.WFull? && sh.cursize == c.maxsize - 1
  }

  /** The worker inside the critical section still owes the signal on `empty`. */
  predicate OwesEmpty(o: Option<Pc>) {
    o.Some? && (o.value.WFull? || o.value.WEmpty?)
  }


  function AfterOwner(m: Move, o: Option<Pc>): Option<Pc> {
    if m.sh'.owner == Some(m.t) then Some(m.p') else if m.sh'.owner == None then None else o
  }

  function AfterCloser(m: Move, q: Option<Pc>): Option<Pc> {
    if m.sh'.closer == Some(m.t) then Some(m.p')
    else if m.sh'.closer.Some? && q.Some? then Some(Rouse(m.sh'.closer.value, q.value, m.w))
    else q
  }

  /** The invariant as the moving thread finds it; `o` and `q` are the counters of the mutex owner and of the closer. */
  ghost predicate Before(c: Config, m: Move, o: Option<Pc>, q: Option<Pc>) {
    && Global(c, m.sh, o, q) && Local(c, m.sh, o, q, m.t, m.p)
    && (m.sh.owner == Some(m.t) ==> o == Some(m.p))
    && (m.sh.closer == Some(m.t) ==> q == Some(m.p))
  }

  ghost predicate After(c: Config, m: Move, o: Option<Pc>, q: Option<Pc>) {
    && Global(c, m.sh', AfterOwner(m, o), AfterCloser(m, q))
    && Local(c, m.sh', AfterOwner(m, o), AfterCloser(m, q), m.t, m.p')
  }

  /** Another thread, before and after the move. */
  ghost predicate Bystander(c: Config, pcs: map<Tid, Pc>, m: Move, o: Option<Pc>, q: Option<Pc>, u: Tid) {
    && u != m.t && u in pcs && Local(c, m.sh, o, q, u, pcs[u])
    && (m.sh.closer == Some(u) ==> q == Some(pcs[u]))
    && forall v :: v in pcs && pcs[v].JWait? ==> m.sh.closer == Some(v)
  }

  ghost predicate StillFine(c: Config, pcs: map<Tid, Pc>, m: Move, o: Option<Pc>, q: Option<Pc>, u: Tid) {
    u in pcs && Local(c, m.sh', AfterOwner(m, o), AfterCloser(m, q), u, Rouse(u, pcs[u], m.w))
  }

  /** Waking up changes none of the roles a thread has. */
  lemma RouseKeeps(u: Tid, p: Pc, w: Wake)
    ensures var p' := Rouse(u, p, w);
            && (IsWorker(p') <==> IsWorker(p)) && (Holding(p') <==> Holding(p))
            && (Closing(p') <==> Closing(p)) && (Shutting(p') <==> Shutting(p))
  {
  }

  lemma FetchSelf(c: Config, pcs: map<Tid, Pc>, m: Move, o: Option<Pc>, q: Option<Pc>)
    requires Before(c, m, o, q)
    requires m.w.who == {} && Fetches(m.sh, m.t, m.p, m.sh', m.p')
    ensures After(c, m, o, q)
  {
  }

  lemma FetchOthers(c: Config, pcs: map<Tid, Pc>, m: Move, o: Option<Pc>, q: Option<Pc>, u: Tid)
    requires Before(c, m, o, q) && Bystander(c, pcs, m, o, q, u)
    requires m.w.who == {} && Fetches(m.sh, m.t, m.p, m.sh', m.p')
    ensures StillFine(c, pcs, m, o, q, u)
  {
    RouseKeeps(u, pcs[u], m.w);
  }

  lemma TakeSelf(c: Config, pcs: map<Tid, Pc>, m: Move, o: Option<Pc>, q: Option<Pc>)
    requires Before(c, m, o, q)
    requires m.w.who == {} && Takes(c, m.sh, m.p, m.sh', m.p')
    ensures After(c, m, o, q)
  {
  }

  lemma TakeOthers(c: Config, pcs: map<Tid, Pc>, m: Move, o: Option<Pc>, q: Option<Pc>, u: Tid)
    requires Before(c, m, o, q) && Bystander(c, pcs, m, o, q, u)
    requires m.w.who == {} && Takes(c, m.sh, m.p, m.sh', m.p')
    ensures StillFine(c, pcs, m, o, q, u)
  {
    RouseKeeps(u, pcs[u], m.w);
  }

  lemma ServeSelf(c: Config, pcs: map<Tid, Pc>, m: Move, o: Option<Pc>, q: Option<Pc>)
    requires Before(c, m, o, q)
    requires m.w.who == {} && (Serves(m.sh, m.p, m.sh', m.p') || Shuts(c, m.sh, pcs, m.p, m.sh', m.p'))
    ensures After(c, m, o, q)
  {
  }

  lemma ServeOthers(c: Config, pcs: map<Tid, Pc>, m: Move, o: Option<Pc>, q: Option<Pc>, u: Tid)
    requires Before(c, m, o, q) && Bystander(c, pcs, m, o, q, u)
    requires m.w.who == {} && (Serves(m.sh, m.p, m.sh', m.p') || Shuts(c, m.sh, pcs, m.p, m.sh', m.p'))
    ensures StillFine(c, pcs, m, o, q, u)
  {
    RouseKeeps(u, pcs[u], m.w);
  }

  lemma OfferEntrySelf(c: Config, pcs: map<Tid, Pc>, m: Move, o: Option<Pc>, q: Option<Pc>)
    requires Before(c, m, o, q) && (m.p.Idle? || m.p.PLock? || m.p.PEntry?)
    requires m.w.who == {} && Offers(c, m.sh, m.t, m.p, m.sh', m.p')
    ensures After(c, m, o, q)
  {
  }

  lemma OfferWaitSelf(c: Config, pcs: map<Tid, Pc>, m: Move, o: Option<Pc>, q: Option<Pc>)
    requires Before(c, m, o, q) && (m.p.PTest? || m.p.PWait? || m.p.PWake?)
    requires m.w.who == {} && Offers(c, m.sh, m.t, m.p, m.sh', m.p')
    ensures After(c, m, o, q)
  {
  }

  lemma OfferSelf(c: Config, pcs: map<Tid, Pc>, m: Move, o: Option<Pc>, q: Option<Pc>)
    requires Before(c, m, o, q)
    requires m.w.who == {} && Offers(c, m.sh, m.t, m.p, m.sh', m.p')
    ensures After(c, m, o, q)
  {
    hide Before, After;
    if m.p.Idle? || m.p.PLock? || m.p.PEntry? {
      OfferEntrySelf(c, pcs, m, o, q);
    } else {
      OfferWaitSelf(c, pcs, m, o, q);
    }
  }

  lemma OfferOthers(c: Config, pcs: map<Tid, Pc>, m: Move, o: Option<Pc>, q: Option<Pc>, u: Tid)
    requires Before(c, m, o, q) && Bystander(c, pcs, m, o, q, u)
    requires m.w.who == {} && Offers(c, m.sh, m.t, m.p, m.sh', m.p')
    ensures StillFine(c, pcs, m, o, q, u)
  {
    RouseKeeps(u, pcs[u], m.w);
  }

  lemma CommitSelf(c: Config, pcs: map<Tid, Pc>, m: Move, o: Option<Pc>, q: Option<Pc>)
    requires Before(c, m, o, q)
    requires m.w.who == {} && Commits(m.sh, m.p, m.sh', m.p')
    ensures After(c, m, o, q)
  {
  }

  lemma CommitOthers(c: Config, pcs: map<Tid, Pc>, m: Move, o: Option<Pc>, q: Option<Pc>, u: Tid)
    requires Before(c, m, o, q) && Bystander(c, pcs, m, o, q, u)
    requires m.w.who == {} && Commits(m.sh, m.p, m.sh', m.p')
    ensures StillFine(c, pcs, m, o, q, u)
  {
    RouseKeeps(u, pcs[u], m.w);
  }

  lemma EnterSelf(c: Config, pcs: map<Tid, Pc>, m: Move, o: Option<Pc>, q: Option<Pc>)
    requires Before(c, m, o, q) && (m.p.JLock? || m.p.JEntry? || m.p.JRefuse?)
    requires m.w.who == {} && Closes(m.sh, m.t, m.p, m.sh', m.p')
    ensures After(c, m, o, q)
  {
  }

  lemma AwaitSelf(c: Config, pcs: map<Tid, Pc>, m: Move, o: Option<Pc>, q: Option<Pc>)
    requires Before(c, m, o, q) && (m.p.JTest? || m.p.JWait? || m.p.JWake?)
    requires m.w.who == {} && Closes(m.sh, m.t, m.p, m.sh', m.p')
    ensures After(c, m, o, q)
  {
  }

  lemma CloseSelf(c: Config, pcs: map<Tid, Pc>, m: Move, o: Option<Pc>, q: Option<Pc>)
    requires Before(c, m, o, q)
    requires m.w.who == {} && Closes(m.sh, m.t, m.p, m.sh', m.p')
    ensures After(c, m, o, q)
  {
    hide Before, After;
    if m.p.JLock? || m.p.JEntry? || m.p.JRefuse? {
      EnterSelf(c, pcs, m, o, q);
    } else {
      AwaitSelf(c, pcs, m, o, q);
    }
  }

  lemma CloseOthers(c: Config, pcs: map<Tid, Pc>, m: Move, o: Option<Pc>, q: Option<Pc>, u: Tid)
    requires Before(c, m, o, q) && Bystander(c, pcs, m, o, q, u)
    requires m.w.who == {} && Closes(m.sh, m.t, m.p, m.sh', m.p')
    ensures StillFine(c, pcs, m, o, q, u)
  {
    RouseKeeps(u, pcs[u], m.w);
  }

  lemma SignalSelf(c: Config, pcs: map<Tid, Pc>, m: Move, o: Option<Pc>, q: Option<Pc>)
    requires Before(c, m, o, q)
    requires Signals(m.sh, pcs, m.p, m.sh', m.p', m.w)
    ensures After(c, m, o, q)
  {
  }

  lemma SignalOthers(c: Config, pcs: map<Tid, Pc>, m: Move, o: Option<Pc>, q: Option<Pc>, u: Tid)
    requires Before(c, m, o, q) && Bystander(c, pcs, m, o, q, u)
    requires Signals(m.sh, pcs, m.p, m.sh', m.p', m.w)
    ensures StillFine(c, pcs, m, o, q, u)
  {
    RouseKeeps(u, pcs[u], m.w);
  }

  lemma BroadcastSelf(c: Config, pcs: map<Tid, Pc>, m: Move, o: Option<Pc>, q: Option<Pc>)
    requires Before(c, m, o, q)
    requires m.w.who == pcs.Keys && Broadcasts(c, m.sh, m.p, m.sh', m.p', m.w.on)
    ensures After(c, m, o, q)
  {
  }

  lemma BroadcastOthers(c: Config, pcs: map<Tid, Pc>, m: Move, o: Option<Pc>, q: Option<Pc>, u: Tid)
    requires Before(c, m, o, q) && Bystander(c, pcs, m, o, q, u)
    requires m.w.who == pcs.Keys && Broadcasts(c, m.sh, m.p, m.sh', m.p', m.w.on)
    ensures StillFine(c, pcs, m, o, q, u)
  {
    RouseKeeps(u, pcs[u], m.w);
  }

  lemma ActsSelf(c: Config, pcs: map<Tid, Pc>, m: Move, o: Option<Pc>, q: Option<Pc>)
    requires Before(c, m, o, q) && Acts(c, pcs, m)
    ensures After(c, m, o, q)
  {
    if m.w.who == {} {
      if Fetches(m.sh, m.t, m.p, m.sh', m.p') { FetchSelf(c, pcs, m, o, q); }
      else if Takes(c, m.sh, m.p, m.sh', m.p') { TakeSelf(c, pcs, m, o, q); }
      else if Offers(c, m.sh, m.t, m.p, m.sh', m.p') { OfferSelf(c, pcs, m, o, q); }
      else if Commits(m.sh, m.p, m.sh', m.p') { CommitSelf(c, pcs, m, o, q); }
      else if Closes(m.sh, m.t, m.p, m.sh', m.p') { CloseSelf(c, pcs, m, o, q); }
      else if Serves(m.sh, m.p, m.sh', m.p') { ServeSelf(c, pcs, m, o, q); }
      else if Shuts(c, m.sh, pcs, m.p, m.sh', m.p') { ServeSelf(c, pcs, m, o, q); }
      else if Signals(m.sh, pcs, m.p, m.sh', m.p', m.w) { SignalSelf(c, pcs, m, o, q); }
      else { BroadcastSelf(c, pcs, m, o, q); }
    } else if Signals(m.sh, pcs, m.p, m.sh', m.p', m.w) {
      SignalSelf(c, pcs, m, o, q);
    } else {
      BroadcastSelf(c, pcs, m, o, q);
    }
  }

  lemma ActsOthers(c: Config, pcs: map<Tid, Pc>, m: Move, o: Option<Pc>, q: Option<Pc>, u: Tid)
    requires Before(c, m, o, q) && Acts(c, pcs, m) && Bystander(c, pcs, m, o, q, u)
    ensures StillFine(c, pcs, m, o, q, u)
  {
    if m.w.who == {} {
      if Fetches(m.sh, m.t, m.p, m.sh', m.p') { FetchOthers(c, pcs, m, o, q, u); }
      else if Takes(c, m.sh, m.p, m.sh', m.p') { TakeOthers(c, pcs, m, o, q, u); }
      else if Offers(c, m.sh, m.t, m.p, m.sh', m.p') { OfferOthers(c, pcs, m, o, q, u); }
      else if Commits(m.sh, m.p, m.sh', m.p') { CommitOthers(c, pcs, m, o, q, u); }
      else if Closes(m.sh, m.t, m.p, m.sh', m.p') { CloseOthers(c, pcs, m, o, q, u); }
      else if Serves(m.sh, m.p, m.sh', m.p') { ServeOthers(c, pcs, m, o, q, u); }
      else if Shuts(c, m.sh, pcs, m.p, m.sh', m.p') { ServeOthers(c, pcs, m, o, q, u); }
      else if Signals(m.sh, pcs, m.p, m.sh', m.p', m.w) { SignalOthers(c, pcs, m, o, q, u); }
      else { BroadcastOthers(c, pcs, m, o, q, u); }
    } else if Signals(m.sh, pcs, m.p, m.sh', m.p', m.w) {
      SignalOthers(c, pcs, m, o, q, u);
    } else {
      BroadcastOthers(c, pcs, m, o, q, u);
    }
  }

  // -------------------------------------------------------------------------
  // Conservation of jobs
  // -------------------------------------------------------------------------

  /** How often `x` is the job a worker has unlinked and not yet run. */
  function Hand(p: Pc, x: Job): nat {
    if (p.WFull? || p.WEmpty? || p.WUnlock? || p.WRun?) && p.job == x then 1 else 0
  }

  /** How often `x` is in the hands of workers 0..n-1. */
  ghost function InHand(pc: map<Tid, Pc>, n: nat, x: Job): nat
    requires forall w: Tid :: w < n ==> w in pc
  {
    if n == 0 then 0 else InHand(pc, n - 1, x) + Hand(pc[n - 1], x)
  }

  lemma {:induction false} InHandUpdate(pc: map<Tid, Pc>, pc': map<Tid, Pc>, t: Tid, n: nat, x: Job)
    requires forall w: Tid :: w < n ==> w in pc && w in pc'
    requires forall w: Tid :: w < n && w != t ==> Hand(pc[w], x) == Hand(pc'[w], x)
    ensures t < n ==> InHand(pc, n, x) + Hand(pc'[t], x) == InHand(pc', n, x) + Hand(pc[t], x)
    ensures t >= n ==> InHand(pc, n, x) == InHand(pc', n, x)
  {
    if n > 0 {
      InHandUpdate(pc, pc', t, n - 1, x);
    }
  }

  lemma {:induction false} NothingInHand(pc: map<Tid, Pc>, n: nat, x: Job)
    requires forall w: Tid :: w < n ==> w in pc && Hand(pc[w], x) == 0
    ensures InHand(pc, n, x) == 0
  {
    if n > 0 {
      NothingInHand(pc, n - 1, x);
    }
  }

  /** Unlinking a job puts it into one pair of hands; running it takes it out. */
  ghost predicate JobsBalance(m: Move, x: Job) {
    multiset(m.sh'.taken)[x] + multiset(m.sh.ran)[x] + Hand(m.p, x)
    == multiset(m.sh.taken)[x] + multiset(m.sh'.ran)[x] + Hand(m.p', x)
  }

  lemma TakeBalances(c: Config, m: Move, x: Job)
    requires Takes(c, m.sh, m.p, m.sh', m.p')
    ensures JobsBalance(m, x)
  {
  }

  lemma ServeBalances(m: Move, x: Job)
    requires Serves(m.sh, m.p, m.sh', m.p')
    ensures JobsBalance(m, x)
  {
  }

  lemma QuietBalances(c: Config, m: Move, x: Job)
    requires Fetches(m.sh, m.t, m.p, m.sh', m.p') || Offers(c, m.sh, m.t, m.p, m.sh', m.p')
    ensures JobsBalance(m, x)
  {
    assert m.sh'.taken == m.sh.taken && m.sh'.ran == m.sh.ran;
  }

  lemma CommitBalances(c: Config, m: Move, x: Job)
    requires Commits(m.sh, m.p, m.sh', m.p') || Broadcasts(c, m.sh, m.p, m.sh', m.p', m.w.on)
    ensures JobsBalance(m, x)
  {
    assert m.sh'.taken == m.sh.taken && m.sh'.ran == m.sh.ran;
  }

  lemma JoinBalances(c: Config, pcs: map<Tid, Pc>, m: Move, x: Job)
    requires || Closes(m.sh, m.t, m.p, m.sh', m.p') || Shuts(c, m.sh, pcs, m.p, m.sh', m.p')
             || Signals(m.sh, pcs, m.p, m.sh', m.p', m.w)
    ensures JobsBalance(m, x)
  {
    assert m.sh'.taken == m.sh.taken && m.sh'.ran == m.sh.ran;
  }

  lemma ActsBalance(c: Config, pcs: map<Tid, Pc>, m: Move, x: Job)
    requires Acts(c, pcs, m)
    ensures JobsBalance(m, x)
  {
    hide Fetches, Takes, Serves, Offers, Commits, Closes, Shuts, Broadcasts, Signals, JobsBalance;
    if Takes(c, m.sh, m.p, m.sh', m.p') {
      TakeBalances(c, m, x);
    } else if Serves(m.sh, m.p, m.sh', m.p') {
      ServeBalances(m, x);
    } else if Fetches(m.sh, m.t, m.p, m.sh', m.p') || Offers(c, m.sh, m.t, m.p, m.sh', m.p') {
      QuietBalances(c, m, x);
    } else if Commits(m.sh, m.p, m.sh', m.p') || Broadcasts(c, m.sh, m.p, m.sh', m.p', m.w.on) {
      CommitBalances(c, m, x);
    } else {
      JoinBalances(c, pcs, m, x);
    }
  }

  // -------------------------------------------------------------------------
  // What no action does
  // -------------------------------------------------------------------------

  lemma DesignationsMove(c: Config, pcs: map<Tid, Pc>, m: Move)
    requires Acts(c, pcs, m)
    ensures m.sh'.owner == m.sh.owner || m.sh'.owner == None || m.sh'.owner == Some(m.t)
    ensures m.sh'.closer == m.sh.closer || m.sh'.closer == Some(m.t)
  {
  }

  lemma JoinMoves(c: Config, pcs: map<Tid, Pc>, m: Move)
    requires Acts(c, pcs, m)
    ensures !m.p.WDone?
    ensures IsWorker(m.p) <==> IsWorker(m.p')
    ensures m.p'.JJoin? && m.p'.next > 0 ==>
              m.p.JJoin? && m.p'.next == m.p.next + 1 && m.p.next in pcs && pcs[m.p.next].WDone?
    ensures m.p'.JRet? ==> m.p.JJoin? && m.p.next >= c.size
  {
  }

  // -------------------------------------------------------------------------
  // Every reachable state
  // -------------------------------------------------------------------------

  /** A crew_join that counts `next` joined threads has seen them exit. */
  ghost predicate Joined(c: Config, pc: map<Tid, Pc>, p: Pc) {
    && (p.JJoin? ==> forall w: Tid :: w < p.next && w < c.size ==> w in pc && pc[w].WDone?)
    && (p.JRet? ==> forall w: Tid :: w < c.size ==> w in pc && pc[w].WDone?)
  }

  ghost predicate Inv(c: Config, s: State) {
    && (forall w: Tid :: w < c.size ==> w in s.pc)
    && (s.sh.owner.Some? ==> s.sh.owner.value in s.pc)
    && (s.sh.closer.Some? ==> s.sh.closer.value in s.pc)
    && Global(c, s.sh, PcOf(s.pc, s.sh.owner), PcOf(s.pc, s.sh.closer))
    && (forall t :: t in s.pc ==> Local(c, s.sh, PcOf(s.pc, s.sh.owner), PcOf(s.pc, s.sh.closer), t, s.pc[t]))
    && (forall t :: t in s.pc ==> Joined(c, s.pc, s.pc[t]))
    && (forall x :: multiset(s.sh.taken)[x] == multiset(s.sh.ran)[x] + InHand(s.pc, c.size, x))
  }

  lemma InitInv(c: Config, s: State)
    requires Init(c, s)
    ensures Inv(c, s)
  {
    hide Global, Local, Joined;
    InitGlobal(c, s);
    forall t | t in s.pc
      ensures Local(c, s.sh, None, None, t, s.pc[t]) && Joined(c, s.pc, s.pc[t])
    {
      InitLocal(c, s, t);
    }
    forall x ensures InHand(s.pc, c.size, x) == 0 { NothingInHand(s.pc, c.size, x); }
  }

  lemma InitGlobal(c: Config, s: State)
    requires Init(c, s)
    ensures Global(c, s.sh, None, None)
  {
  }

  lemma InitLocal(c: Config, s: State, t: Tid)
    requires Init(c, s) && t in s.pc
    ensures Local(c, s.sh, None, None, t, s.pc[t]) && Joined(c, s.pc, s.pc[t])
  {
  }

  lemma MoveTracks(c: Config, s: State, m: Move, s': State)
    requires Inv(c, s) && Moves(c, s, m, s')
    ensures s'.sh.owner.Some? ==> s'.sh.owner.value in s'.pc
    ensures s'.sh.closer.Some? ==> s'.sh.closer.value in s'.pc
    ensures PcOf(s'.pc, s'.sh.owner) == AfterOwner(m, PcOf(s.pc, s.sh.owner))
    ensures PcOf(s'.pc, s'.sh.closer) == AfterCloser(m, PcOf(s.pc, s.sh.closer))
  {
    DesignationsMove(c, s.pc, m);
  }

  lemma MoveKeepsLocal(c: Config, s: State, m: Move, s': State)
    requires Inv(c, s) && Moves(c, s, m, s')
    ensures Global(c, s'.sh, PcOf(s'.pc, s'.sh.owner), PcOf(s'.pc, s'.sh.closer))
    ensures forall t :: t in s'.pc ==> Local(c, s'.sh, PcOf(s'.pc, s'.sh.owner), PcOf(s'.pc, s'.sh.closer), t, s'.pc[t])
  {
    var o, q := PcOf(s.pc, s.sh.owner), PcOf(s.pc, s.sh.closer);
    MoveTracks(c, s, m, s');
    assert Local(c, s.sh, o, q, m.t, m.p);
    ActsSelf(c, s.pc, m, o, q);
    forall u | u in s'.pc && u != m.t
      ensures Local(c, s'.sh, AfterOwner(m, o), AfterCloser(m, q), u, s'.pc[u])
    {
      assert Local(c, s.sh, o, q, u, s.pc[u]);
      ActsOthers(c, s.pc, m, o, q, u);
    }
  }

  lemma MoveKeepsJoined(c: Config, s: State, m: Move, s': State)
    requires Inv(c, s) && Moves(c, s, m, s')
    ensures forall t :: t in s'.pc ==> Joined(c, s'.pc, s'.pc[t])
  {
    hide Acts, Global, Local, InHand;
    JoinMoves(c, s.pc, m);
    forall t | t in s'.pc
      ensures Joined(c, s'.pc, s'.pc[t])
    {
      assert Joined(c, s.pc, s.pc[t]);
    }
  }

  lemma MoveKeepsOtherHands(c: Config, s: State, m: Move, s': State, x: Job)
    requires Moves(c, s, m, s') && (forall w: Tid :: w < c.size ==> w in s.pc)
    requires IsWorker(m.p) <==> m.t < c.size
    ensures InHand(s.pc, c.size, x) + Hand(m.p', x) == InHand(s'.pc, c.size, x) + Hand(m.p, x)
  {
    JoinMoves(c, s.pc, m);
    InHandUpdate(s.pc, s'.pc, m.t, c.size, x);
  }

  lemma MoveKeepsJobs(c: Config, s: State, m: Move, s': State, x: Job)
    requires Inv(c, s) && Moves(c, s, m, s')
    ensures multiset(s'.sh.taken)[x] == multiset(s'.sh.ran)[x] + InHand(s'.pc, c.size, x)
  {
    assert Local(c, s.sh, PcOf(s.pc, s.sh.owner), PcOf(s.pc, s.sh.closer), m.t, m.p);
    MoveKeepsOtherHands(c, s, m, s', x);
    ActsBalance(c, s.pc, m, x);
  }

  lemma NextInv(c: Config, s: State, s': State)
    requires Inv(c, s) && Next(c, s, s')
    ensures Inv(c, s')
  {
    var m :| Moves(c, s, m, s');
    MoveTracks(c, s, m, s');
    MoveKeepsLocal(c, s, m, s');
    MoveKeepsJoined(c, s, m, s');
    forall x ensures multiset(s'.sh.taken)[x] == multiset(s'.sh.ran)[x] + InHand(s'.pc, c.size, x) {
      MoveKeepsJobs(c, s, m, s', x);
    }
  }

  lemma {:induction false} RunInv(c: Config, run: seq<State>, i: nat)
    requires IsRun(c, run) && i < |run|
    ensures Inv(c, run[i])
  {
    if i == 0 {
      InitInv(c, run[0]);
    } else {
      RunInv(c, run, i - 1);
      NextInv(c, run[i - 1], run[i]);
    }
  }

  // -------------------------------------------------------------------------
  // What the pool promises
  // -------------------------------------------------------------------------

  /**
   No lost wake-ups. A thread asleep on `not_empty` faces an empty queue, and if
   shutdown has begun the joiner has still to broadcast. One asleep on `not_full`
   faces a full queue, or the worker inside the critical section (or, after
   shutdown, the joiner) has still to broadcast. The joiner asleep on `empty`
   faces a non-empty queue, or the worker that emptied it has still to signal.
   */
  lemma NoLostWakeups(c: Config, run: seq<State>, i: nat, t: Tid)
    requires IsRun(c, run) && i < |run| && t in run[i].pc
    ensures var s, o, q := run[i], PcOf(run[i].pc, run[i].sh.owner), PcOf(run[i].pc, run[i].sh.closer);
            && (s.pc[t].WWait? ==> s.sh.queue == [] && (s.sh.shutdown ==> OwesNotEmpty(q)))
            && (s.pc[t].PWait? && !s.sh.shutdown ==> c.block && (s.sh.cursize == c.maxsize || OwesRoom(c, s.sh, o)))
            && (s.pc[t].PWait? && s.sh.shutdown ==> c.block && OwesNotFull(q))
            && (s.pc[t].JWait? ==> !s.sh.shutdown && (s.sh.queue != [] || OwesEmpty(o)))
  {
    RunInv(c, run, i);
    assert Local(c, run[i].sh, PcOf(run[i].pc, run[i].sh.owner), PcOf(run[i].pc, run[i].sh.closer), t, run[i].pc[t]);
  }

  /** Jobs leave in the order they were accepted; the counters describe the list and never exceed the bound. */
  lemma QueueAccounts(c: Config, run: seq<State>, i: nat)
    requires IsRun(c, run) && i < |run|
    ensures var s := run[i].sh;
            && s.accepted == s.taken + s.queue
            && 0 <= s.cursize <= c.maxsize
            && (s.owner == None ==> s.cursize == |s.queue| && s.total == |s.accepted|)
  {
    RunInv(c, run, i);
  }

  /**
   When crew_join returns TRUE every worker has exited, every unlinked job has
   run exactly once, and nothing is left running. If it was asked to finish,
   the jobs that ran are exactly the jobs that were accepted.
   */
  lemma JoinDrains(c: Config, run: seq<State>, i: nat, j: Tid)
    requires IsRun(c, run) && i < |run|
    requires j in run[i].pc && run[i].pc[j].JRet?
    ensures forall w: Tid :: w < c.size ==> w in run[i].pc && run[i].pc[w].WDone?
    ensures multiset(run[i].sh.ran) == multiset(run[i].sh.taken)
    ensures run[i].pc[j].finish ==> run[i].sh.queue == [] && multiset(run[i].sh.ran) == multiset(run[i].sh.accepted)
  {
    RunInv(c, run, i);
    var s := run[i];
    assert Joined(c, s.pc, s.pc[j]);
    assert Local(c, s.sh, PcOf(s.pc, s.sh.owner), PcOf(s.pc, s.sh.closer), j, s.pc[j]);
    forall x ensures multiset(s.sh.ran)[x] == multiset(s.sh.taken)[x] { NothingInHand(s.pc, c.size, x); }
  }

  /** A thread that can move by itself: not asleep, not between calls, not blocked on the mutex or in pthread_join. */
  ghost predicate CanMove(c: Config, s: State, t: Tid)
    requires t in s.pc
  {
    match s.pc[t]
    case WLock => s.sh.owner == None
    case WWake => s.sh.owner == None
    case PLock(_) => s.sh.owner == None
    case PWake(_) => s.sh.owner == None
    case JLock(_) => s.sh.owner == None
    case JWake(_) => s.sh.owner == None
    case JJoin(_, k) => k >= c.size || (k in s.pc && s.pc[k].WDone?)
    case p =>
      !Sleeping(p, NotEmpty) && !Sleeping(p, NotFull) && !Sleeping(p, Empty) && !p.Idle? && !p.JRet? && !p.WDone?
  }

  /** The quiet or broadcasting move of a thread that can move; a worker about to signal is handled apart. */
  function MoveOf(c: Config, s: State, t: Tid): Move
    requires t in s.pc
  {
    var sh, p := s.sh, s.pc[t];
    var quiet := Wake(Empty, {});
    match p
    case WLock => Move(t, p, sh, WTest, sh.(owner := Some(t)), quiet)
    case WWake => Move(t, p, sh, WTest, sh.(owner := Some(t)), quiet)
    case WTest =>
      if sh.cursize == 0 && !sh.shutdown then Move(t, p, sh, WWait, sh.(owner := None), quiet)
      else Move(t, p, sh, WTake, sh, quiet)
    case WTake =>
      if sh.shutdown || sh.queue == [] then Move(t, p, sh, WQuit, sh, quiet)
      else Move(t, p, sh, WFull(sh.queue[0]),
                sh.(cursize := sh.cursize - 1,
                    queue := if sh.cursize - 1 == 0 then [] else sh.queue[1..],
                    taken := sh.taken + [sh.queue[0]]), quiet)
    case WFull(job) =>
      Move(t, p, sh, WEmpty(job), sh,
           if c.block && sh.cursize == c.maxsize - 1 then Wake(NotFull, s.pc.Keys) else quiet)
    case WEmpty(job) => Move(t, p, sh, WUnlock(job), sh, if sh.cursize == 0 then Wake(Empty, s.pc.Keys) else quiet)
    case WUnlock(job) => Move(t, p, sh, WRun(job), sh.(owner := None), quiet)
    case WRun(job) => Move(t, p, sh, WLock, sh.(ran := sh.ran + [job]), quiet)
    case WQuit => Move(t, p, sh, WDone, sh.(owner := None), quiet)
    case PLock(job) => Move(t, p, sh, PEntry(job), sh.(owner := Some(t)), quiet)
    case PEntry(job) =>
      Move(t, p, sh, if sh.cursize == c.maxsize && !c.block then PUnlock(false) else PTest(job), sh, quiet)
    case PTest(job) =>
      if sh.cursize == c.maxsize && !(sh.shutdown || sh.closed) then
        Move(t, p, sh, PWait(job), sh.(owner := None), quiet)
      else Move(t, p, sh, PCheck(job), sh, quiet)
    case PWake(job) => Move(t, p, sh, PTest(job), sh.(owner := Some(t)), quiet)
    case PCheck(job) => Move(t, p, sh, if sh.shutdown || sh.closed then PUnlock(false) else PInsert(job), sh, quiet)
    case PInsert(job) =>
      var queue := if sh.cursize == 0 then [job] else sh.queue + [job];
      Move(t, p, sh, PCount(job), sh.(queue := queue, accepted := sh.accepted + [job]),
           if sh.cursize == 0 then Wake(NotEmpty, s.pc.Keys) else quiet)
    case PCount(job) => Move(t, p, sh, PUnlock(true), sh.(cursize := sh.cursize + 1, total := sh.total + 1), quiet)
    case PUnlock(_) => Move(t, p, sh, Idle, sh.(owner := None), quiet)
    case JLock(finish) => Move(t, p, sh, JEntry(finish), sh.(owner := Some(t)), quiet)
    case JEntry(finish) =>
      if sh.closed || sh.shutdown then Move(t, p, sh, JRefuse, sh, quiet)
      else Move(t, p, sh, if finish then JTest(finish) else JShut(finish),
                sh.(closed := true, closer := Some(t), drain := finish), quiet)
    case JRefuse => Move(t, p, sh, Idle, sh.(owner := None), quiet)
    case JTest(finish) =>
      if sh.cursize != 0 && !sh.shutdown then Move(t, p, sh, JWait(finish), sh.(owner := None), quiet)
      else Move(t, p, sh, JShut(finish), sh, quiet)
    case JWake(finish) => Move(t, p, sh, JTest(finish), sh.(owner := Some(t)), quiet)
    case JShut(finish) => Move(t, p, sh, JUnlock(finish), sh.(shutdown := true), quiet)
    case JUnlock(finish) => Move(t, p, sh, JNotEmpty(finish), sh.(owner := None), quiet)
    case JNotEmpty(finish) => Move(t, p, sh, JNotFull(finish), sh, Wake(NotEmpty, s.pc.Keys))
    case JNotFull(finish) => Move(t, p, sh, JJoin(finish, 0), sh, Wake(NotFull, s.pc.Keys))
    case JJoin(finish, k) => Move(t, p, sh, if k < c.size then JJoin(finish, k + 1) else JRet(finish), sh, quiet)
    case _ => Move(t, p, sh, p, sh, quiet)
  }

  lemma WorkerCanMove(c: Config, s: State, t: Tid)
    requires Inv(c, s) && t in s.pc && CanMove(c, s, t) && IsWorker(s.pc[t])
    ensures Acts(c, s.pc, MoveOf(c, s, t))
  {
    assert Local(c, s.sh, PcOf(s.pc, s.sh.owner), PcOf(s.pc, s.sh.closer), t, s.pc[t]);
  }

  lemma CallerCanMove(c: Config, s: State, t: Tid)
    requires t in s.pc && CanMove(c, s, t) && !IsWorker(s.pc[t])
    ensures Acts(c, s.pc, MoveOf(c, s, t))
  {
  }

  lemma CanMoveMoves(c: Config, s: State, t: Tid)
    requires Inv(c, s) && t in s.pc && CanMove(c, s, t)
    ensures exists m: Move, s' :: m.t == t && Moves(c, s, m, s')
  {
    if IsWorker(s.pc[t]) { WorkerCanMove(c, s, t); } else { CallerCanMove(c, s, t); }
    var m := MoveOf(c, s, t);
    var s' := State(m.sh', map u | u in s.pc :: if u == m.t then m.p' else Rouse(u, s.pc[u], m.w));
    assert Moves(c, s, m, s');
  }

  lemma ActsCanMove(c: Config, s: State, m: Move)
    requires m.t in s.pc && m.p == s.pc[m.t] && m.sh == s.sh && Acts(c, s.pc, m)
    ensures CanMove(c, s, m.t) || m.p.Idle? || m.p.JRet? || m.p.WWait? || m.p.PWait? || m.p.JWait?
  {
  }

  /** A thread has a move other than starting a call or waking up for no reason exactly when `CanMove` says so. */
  lemma CanMoveExactly(c: Config, s: State, t: Tid)
    requires Inv(c, s) && t in s.pc
    ensures CanMove(c, s, t) <==>
            && !s.pc[t].Idle? && !s.pc[t].JRet? && !s.pc[t].WWait? && !s.pc[t].PWait? && !s.pc[t].JWait?
            && exists m: Move, s' :: m.t == t && Moves(c, s, m, s')
  {
    if CanMove(c, s, t) {
      CanMoveMoves(c, s, t);
    } else {
      hide Acts, CanMove, Inv;
      forall m: Move | m.t == t && m.p == s.pc[t] && m.sh == s.sh && Acts(c, s.pc, m)
        ensures s.pc[t].Idle? || s.pc[t].JRet? || s.pc[t].WWait? || s.pc[t].PWait? || s.pc[t].JWait?
      {
        ActsCanMove(c, s, m);
      }
    }
  }

  ghost predicate Stuck(c: Config, s: State) {
    forall t :: t in s.pc ==> !CanMove(c, s, t)
  }

  lemma StuckUnlocked(c: Config, s: State)
    requires Inv(c, s) && Stuck(c, s)
    ensures s.sh.owner == None && !OwesNotEmpty(PcOf(s.pc, s.sh.closer))
  {
    assert s.sh.owner == None;
  }

  lemma StuckWorkers(c: Config, s: State)
    requires Inv(c, s) && Stuck(c, s) && c.size >= 1
    ensures s.sh.owner == None
    ensures if s.sh.shutdown then forall w: Tid :: w < c.size ==> s.pc[w].WDone?
            else s.sh.queue == [] && forall w: Tid :: w < c.size ==> s.pc[w].WWait?
  {
    StuckUnlocked(c, s);
    forall w: Tid | w < c.size
      ensures if s.sh.shutdown then s.pc[w].WDone? else s.sh.queue == [] && s.pc[w].WWait?
    {
      StuckWorker(c, s, w);
    }
    assert 0 in s.pc;
  }

  lemma StuckWorker(c: Config, s: State, w: Tid)
    requires Inv(c, s) && Stuck(c, s) && w < c.size && s.sh.owner == None && !OwesNotEmpty(PcOf(s.pc, s.sh.closer))
    ensures if s.sh.shutdown then s.pc[w].WDone? else s.sh.queue == [] && s.pc[w].WWait?
  {
    assert w in s.pc && !CanMove(c, s, w);
    assert Local(c, s.sh, None, PcOf(s.pc, s.sh.closer), w, s.pc[w]);
  }

  /**
   No deadlock. With at least one worker and room for at least one job (or no
   blocking), a state in which nobody can move is one where nobody should: all
   callers are between calls, and either the pool is idle (empty queue, every
   worker asleep, no shutdown) or it has shut down and every worker has exited.
   */
  lemma NoDeadlock(c: Config, run: seq<State>, i: nat)
    requires IsRun(c, run) && i < |run|
    requires c.size >= 1 && (c.maxsize >= 1 || !c.block)
    requires Stuck(c, run[i])
    ensures forall t :: t in run[i].pc && !IsWorker(run[i].pc[t]) ==> run[i].pc[t].Idle? || run[i].pc[t].JRet?
    ensures if run[i].sh.shutdown then forall w: Tid :: w < c.size ==> w in run[i].pc && run[i].pc[w].WDone?
            else run[i].sh.queue == [] && forall w: Tid :: w < c.size ==> w in run[i].pc && run[i].pc[w].WWait?
  {
    RunInv(c, run, i);
    var s, o, q := run[i], PcOf(run[i].pc, run[i].sh.owner), PcOf(run[i].pc, run[i].sh.closer);
    StuckWorkers(c, s);
    assert !OwesNotFull(q);
    forall t | t in s.pc && !IsWorker(s.pc[t])
      ensures s.pc[t].Idle? || s.pc[t].JRet?
    {
      assert Local(c, s.sh, o, q, t, s.pc[t]);
    }
  }

  /** Every caller is between calls or has its answer. */
  ghost predicate CallersDone(s: State) {
    forall t :: t in s.pc && !IsWorker(s.pc[t]) ==> s.pc[t].Idle? || s.pc[t].JRet?
  }

  /** A pool that cannot hold a caller up for ever: it has a worker and room, or a full queue is refused. */
  predicate Lively(c: Config) {
    if c.size >= 1 then c.maxsize >= 1 || !c.block else c.maxsize == 0 && !c.block
  }

  /** Without workers and without room, nothing is accepted and nothing is waited for. */
  lemma NoPoolNoDeadlock(c: Config, run: seq<State>, i: nat)
    requires IsRun(c, run) && i < |run| && Stuck(c, run[i])
    requires c.size == 0 && c.maxsize == 0 && !c.block
    ensures CallersDone(run[i])
  {
    RunInv(c, run, i);
    var s, o, q := run[i], PcOf(run[i].pc, run[i].sh.owner), PcOf(run[i].pc, run[i].sh.closer);
    forall t | t in s.pc && !IsWorker(s.pc[t])
      ensures s.pc[t].Idle? || s.pc[t].JRet?
    {
      assert Local(c, s.sh, o, q, t, s.pc[t]);
    }
  }

  lemma Extend(c: Config, run: seq<State>, s': State)
    requires IsRun(c, run) && Next(c, run[|run| - 1], s')
    ensures IsRun(c, run + [s'])
  {
    var run' := run + [s'];
    forall i | 0 <= i < |run'| - 1
      ensures Next(c, run'[i], run'[i + 1])
    {
      if i < |run| - 1 {
        assert Next(c, run[i], run[i + 1]);
      }
    }
  }

  function UpTo(n: nat): (s: set<Tid>)
    ensures forall t: Tid :: t in s <==> t <= n
  {
    if n == 0 then {0} else UpTo(n - 1) + {n}
  }

  /** A pool with nothing to do: workers below k asleep, worker k at p, the others about to start; and one caller. */
  function Idling(n: nat, k: nat, owner: Option<Tid>, p: Pc, caller: Pc): State {
    State(Shared(0, 0, [], false, false, owner, [], [], [], None, false),
          map t: Tid | t in UpTo(n) :: if t == n then caller else if t < k then WWait else if t == k then p else WLock)
  }

  lemma WorkerNext(c: Config, k: nat, o: Option<Tid>, p: Pc, o': Option<Tid>, p': Pc)
    requires k < c.size
    requires Fetches(Idling(c.size, k, o, p, Idle).sh, k, p, Idling(c.size, k, o', p', Idle).sh, p')
    ensures Next(c, Idling(c.size, k, o, p, Idle), Idling(c.size, k, o', p', Idle))
  {
    var s, s' := Idling(c.size, k, o, p, Idle), Idling(c.size, k, o', p', Idle);
    var m := Move(k, p, s.sh, p', s'.sh, Wake(Empty, {}));
    assert Moves(c, s, m, s');
  }

  lemma CallerNext(c: Config, o: Option<Tid>, p: Pc, o': Option<Tid>, p': Pc)
    requires Offers(c, Idling(c.size, c.size, o, WLock, p).sh, c.size, p, Idling(c.size, c.size, o', WLock, p').sh, p')
    ensures Next(c, Idling(c.size, c.size, o, WLock, p), Idling(c.size, c.size, o', WLock, p'))
  {
    var s, s' := Idling(c.size, c.size, o, WLock, p), Idling(c.size, c.size, o', WLock, p');
    var m := Move(c.size, p, s.sh, p', s'.sh, Wake(Empty, {}));
    assert Moves(c, s, m, s');
  }

  /** The first k workers find an empty queue and go to sleep. */
  lemma {:induction false} FallAsleep(c: Config, k: nat) returns (run: seq<State>)
    requires k <= c.size
    ensures IsRun(c, run) && run != [] && run[|run| - 1] == Idling(c.size, k, None, WLock, Idle)
  {
    hide Next;
    if k == 0 {
      run := [Idling(c.size, 0, None, WLock, Idle)];
    } else {
      run := FallAsleep(c, k - 1);
      WorkerNext(c, k - 1, None, WLock, Some(k - 1), WTest);
      WorkerNext(c, k - 1, Some(k - 1), WTest, None, WWait);
      Extend(c, run, Idling(c.size, k - 1, Some(k - 1), WTest, Idle));
      run := run + [Idling(c.size, k - 1, Some(k - 1), WTest, Idle)];
      Extend(c, run, Idling(c.size, k - 1, None, WWait, Idle));
      run := run + [Idling(c.size, k - 1, None, WWait, Idle)];
      assert Idling(c.size, k - 1, None, WWait, Idle).pc == Idling(c.size, k, None, WLock, Idle).pc;
    }
  }

  lemma CallerSteps(c: Config)
    requires c.maxsize == 0 && c.block
    ensures var n := c.size;
            && Next(c, Idling(n, n, None, WLock, Idle), Idling(n, n, None, WLock, PLock(7)))
            && Next(c, Idling(n, n, None, WLock, PLock(7)), Idling(n, n, Some(n), WLock, PEntry(7)))
            && Next(c, Idling(n, n, Some(n), WLock, PEntry(7)), Idling(n, n, Some(n), WLock, PTest(7)))
            && Next(c, Idling(n, n, Some(n), WLock, PTest(7)), Idling(n, n, None, WLock, PWait(7)))
  {
    hide Next;
    var n := c.size;
    CallerNext(c, None, Idle, None, PLock(7));
    CallerNext(c, None, PLock(7), Some(n), PEntry(7));
    CallerNext(c, Some(n), PEntry(7), Some(n), PTest(7));
    CallerNext(c, Some(n), PTest(7), None, PWait(7));
  }

  lemma IdlingAsleep(c: Config)
    ensures var s := Idling(c.size, c.size, None, WLock, PWait(7)); Stuck(c, s) && !CallersDone(s)
  {
    var s := Idling(c.size, c.size, None, WLock, PWait(7));
    assert c.size in s.pc && s.pc[c.size] == PWait(7);
  }

  /** In a blocking pool without room the first crew_add sleeps for ever, beside however many idle workers. */
  lemma NoRoomDeadlocks(c: Config) returns (run: seq<State>)
    requires c.maxsize == 0 && c.block
    ensures IsRun(c, run) && run != [] && Stuck(c, run[|run| - 1]) && !CallersDone(run[|run| - 1])
  {
    hide Next, IsRun, Idling, Stuck, CallersDone;
    var n := c.size;
    run := FallAsleep(c, n);
    CallerSteps(c);
    IdlingAsleep(c);
    Extend(c, run, Idling(n, n, None, WLock, PLock(7)));
    run := run + [Idling(n, n, None, WLock, PLock(7))];
    Extend(c, run, Idling(n, n, Some(n), WLock, PEntry(7)));
    run := run + [Idling(n, n, Some(n), WLock, PEntry(7))];
    Extend(c, run, Idling(n, n, Some(n), WLock, PTest(7)));
    run := run + [Idling(n, n, Some(n), WLock, PTest(7))];
    Extend(c, run, Idling(n, n, None, WLock, PWait(7)));
    run := run + [Idling(n, n, None, WLock, PWait(7))];
  }

  /** One caller and no worker. */
  function Alone(sh: Shared, p: Pc): State {
    State(sh, map[0 := p])
  }

  ghost predicate AloneStep(c: Config, sh: Shared, p: Pc, sh': Shared, p': Pc) {
    || Offers(c, sh, 0, p, sh', p') || Commits(sh, p, sh', p') || Closes(sh, 0, p, sh', p')
    || Broadcasts(c, sh, p, sh', p', NotEmpty)
  }

  lemma AloneNext(c: Config, run: seq<State>, sh: Shared, p: Pc, sh': Shared, p': Pc) returns (run': seq<State>)
    requires IsRun(c, run) && run != [] && run[|run| - 1] == Alone(sh, p) && AloneStep(c, sh, p, sh', p')
    requires !p'.WWait? && !p'.PWait?
    ensures IsRun(c, run') && run' != [] && run'[|run'| - 1] == Alone(sh', p')
  {
    hide Offers, Commits, Closes, Broadcasts, Fetches, Takes, Serves, Shuts, Signals, IsRun;
    var s := Alone(sh, p);
    var m := Move(0, p, sh, p', sh', Wake(NotEmpty, if Broadcasts(c, sh, p, sh', p', NotEmpty) then {0} else {}));
    assert s.pc.Keys == {0};
    assert Moves(c, s, m, Alone(sh', p'));
    Extend(c, run, Alone(sh', p'));
    run' := run + [Alone(sh', p')];
  }

  /** A job accepted and not run. */
  function Unserved(owner: Option<Tid>, queue: seq<Job>, n: int): Shared {
    Shared(n, n, queue, false, false, owner, queue, [], [], None, false)
  }

  lemma AloneOffers(c: Config)
    requires c.maxsize >= 1
    ensures var s0, held := Unserved(None, [], 0), Unserved(Some(0), [], 0);
            && Offers(c, s0, 0, Idle, s0, PLock(7)) && Offers(c, s0, 0, PLock(7), held, PEntry(7))
            && Offers(c, held, 0, PEntry(7), held, PTest(7)) && Offers(c, held, 0, PTest(7), held, PCheck(7))
            && Offers(c, Unserved(None, [7], 1), 0, Idle, Unserved(None, [7], 1), JLock(true))
  {
  }

  lemma AloneCommits(c: Config)
    ensures var held, queued, counted := Unserved(Some(0), [], 0), Unserved(Some(0), [7], 0), Unserved(Some(0), [7], 1);
            && Commits(held, PCheck(7), held, PInsert(7))
            && Broadcasts(c, held, PInsert(7), queued, PCount(7), NotEmpty)
            && Commits(queued, PCount(7), counted, PUnlock(true))
            && Commits(counted, PUnlock(true), Unserved(None, [7], 1), Idle)
  {
  }

  lemma AloneCloses()
    ensures var free, counted := Unserved(None, [7], 1), Unserved(Some(0), [7], 1);
            var closed := counted.(closed := true, closer := Some(0), drain := true);
            && Closes(free, 0, JLock(true), counted, JEntry(true))
            && Closes(counted, 0, JEntry(true), closed, JTest(true))
            && Closes(closed, 0, JTest(true), closed.(owner := None), JWait(true))
  {
  }

  lemma AloneAsleep(c: Config, sh: Shared)
    ensures Stuck(c, Alone(sh, JWait(true))) && !CallersDone(Alone(sh, JWait(true)))
  {
    assert 0 in Alone(sh, JWait(true)).pc;
  }

  /**
   Without workers a job that was accepted is never run, and a crew_join that is
   to finish the work sleeps for ever.
   */
  lemma NoWorkerDeadlocks(c: Config) returns (run: seq<State>)
    requires c.size == 0 && c.maxsize >= 1
    ensures IsRun(c, run) && run != [] && Stuck(c, run[|run| - 1]) && !CallersDone(run[|run| - 1])
  {
    hide IsRun, Offers, Commits, Closes, Broadcasts, Stuck, CallersDone, Unserved, Alone;
    var s0, held := Unserved(None, [], 0), Unserved(Some(0), [], 0);
    var queued, counted := Unserved(Some(0), [7], 0), Unserved(Some(0), [7], 1);
    var free, closed := Unserved(None, [7], 1), counted.(closed := true, closer := Some(0), drain := true);
    AloneOffers(c);
    AloneCommits(c);
    AloneCloses();
    AloneAsleep(c, closed.(owner := None));
    run := FirstAlone(c);
    run := AloneNext(c, run, s0, Idle, s0, PLock(7));
    run := AloneNext(c, run, s0, PLock(7), held, PEntry(7));
    run := AloneNext(c, run, held, PEntry(7), held, PTest(7));
    run := AloneNext(c, run, held, PTest(7), held, PCheck(7));
    run := AloneNext(c, run, held, PCheck(7), held, PInsert(7));
    run := AloneNext(c, run, held, PInsert(7), queued, PCount(7));
    run := AloneNext(c, run, queued, PCount(7), counted, PUnlock(true));
    run := AloneNext(c, run, counted, PUnlock(true), free, Idle);
    run := AloneNext(c, run, free, Idle, free, JLock(true));
    run := AloneNext(c, run, free, JLock(true), counted, JEntry(true));
    run := AloneNext(c, run, counted, JEntry(true), closed, JTest(true));
    run := AloneNext(c, run, closed, JTest(true), closed.(owner := None), JWait(true));
  }

  lemma FirstAlone(c: Config) returns (run: seq<State>)
    requires c.size == 0
    ensures IsRun(c, run) && |run| == 1 && run[0] == Alone(Unserved(None, [], 0), Idle)
  {
    run := [Alone(Unserved(None, [], 0), Idle)];
  }

  /** When crew_add and crew_join can be relied on to return: exactly for the lively pools. */
  lemma NoDeadlockExactly(c: Config)
    ensures Lively(c) <==>
              forall run: seq<State>, i :: IsRun(c, run) && 0 <= i < |run| && Stuck(c, run[i]) ==> CallersDone(run[i])
  {
    hide IsRun, Stuck, CallersDone;
    if Lively(c) {
      forall run: seq<State>, i | IsRun(c, run) && 0 <= i < |run| && Stuck(c, run[i])
        ensures CallersDone(run[i])
      {
        if c.size >= 1 {
          DoneWhenStuck(c, run, i);
        } else {
          NoPoolNoDeadlock(c, run, i);
        }
      }
    } else {
      var run;
      if c.maxsize == 0 {
        run := NoRoomDeadlocks(c);
      } else {
        run := NoWorkerDeadlocks(c);
      }
      var i := |run| - 1;
      assert IsRun(c, run) && Stuck(c, run[i]) && !CallersDone(run[i]);
    }
  }

  lemma DoneWhenStuck(c: Config, run: seq<State>, i: nat)
    requires IsRun(c, run) && i < |run| && Stuck(c, run[i]) && c.size >= 1 && (c.maxsize >= 1 || !c.block)
    ensures CallersDone(run[i])
  {
    hide IsRun, Stuck;
    NoDeadlock(c, run, i);
  }
}
