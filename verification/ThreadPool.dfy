/** The thread pool: submitters, workers and the destructor share a queue and a stop flag
    under one mutex, and a condition variable whose notifications come after unlocking. */
module ThreadPool {

  type Job = nat

  /** Where a worker is: about to lock and test its condition, blocked on the condition
      variable, running a job outside the lock, or gone. */
  datatype Phase = Ready | Waiting | Running(job: Job) | Exited

  /** `owed` counts submitters between unlocking and notifying, and `owedAll` is the
      destructor between the two; the last three fields are history. */
  datatype Pool = Pool(
    jobs: seq<Job>, stop: bool, workers: seq<Phase>, owed: nat, owedAll: bool,
    accepted: seq<Job>, started: seq<Job>, finished: multiset<Job>)

  datatype Op =
    | Submit(job: Job)
    | NotifyOne(w: nat)
    | Stop
    | NotifyAll
    | Test(w: nat)
    | Spurious(w: nat)
    | Finish(w: nat)

  predicate Is(p: Pool, w: nat, phase: Phase) { w < |p.workers| && p.workers[w] == phase }

  predicate NobodyWaits(p: Pool) { forall w | 0 <= w < |p.workers| :: p.workers[w] != Waiting }

  predicate Allowed(p: Pool, op: Op) {
    match op
    case Submit(_) => true
    case NotifyOne(w) => p.owed > 0 && (Is(p, w, Waiting) || NobodyWaits(p))
    case Stop => !p.stop
    case NotifyAll => p.owedAll
    case Test(w) => Is(p, w, Ready)
    case Spurious(w) => Is(p, w, Waiting)
    case Finish(w) => w < |p.workers| && p.workers[w].Running?
  }

  function Woken(phase: Phase): Phase { if phase == Waiting then Ready else phase }

  function Move(p: Pool, w: nat, phase: Phase): Pool
    requires w < |p.workers|
  {
    p.(workers := p.workers[w := phase])
  }

  /** What a worker does while it holds the lock. */
  datatype Verdict = Block | Leave | Take

  function Tested(jobs: seq<Job>, stop: bool): Verdict {
    if !stop && jobs == [] then Block else if stop && jobs == [] then Leave else Take
  }

  function Apply(p: Pool, op: Op): Pool
    requires Allowed(p, op)
  {
    match op
    case Submit(job) =>
      if p.stop then p else p.(jobs := p.jobs + [job], accepted := p.accepted + [job], owed := p.owed + 1)
    case NotifyOne(w) =>
      var q := p.(owed := p.owed - 1);
      if NobodyWaits(p) then q else Move(q, w, Ready)
    case Stop => p.(stop := true, owedAll := true)
    case NotifyAll =>
      p.(owedAll := false, workers := seq(|p.workers|, i requires 0 <= i < |p.workers| => Woken(p.workers[i])))
    case Test(w) =>
      (match Tested(p.jobs, p.stop)
       case Block => Move(p, w, Waiting)
       case Leave => Move(p, w, Exited)
       case Take => Move(p, w, Running(p.jobs[0])).(jobs := p.jobs[1..], started := p.started + [p.jobs[0]]))
    case Spurious(w) => Move(p, w, Ready)
    case Finish(w) => Move(p, w, Ready).(finished := p.finished + multiset{p.workers[w].job})
  }

  // ---- sums over the workers

  function Total(f: Phase -> nat, ws: seq<Phase>): nat {
    if ws == [] then 0 else f(ws[0]) + Total(f, ws[1..])
  }

  lemma {:induction false} TotalAfterMove(f: Phase -> nat, ws: seq<Phase>, w: nat, phase: Phase)
    requires w < |ws|
    ensures Total(f, ws[w := phase]) + f(ws[w]) == Total(f, ws) + f(phase)
  {
    if w == 0 {
      assert ws[w := phase][1..] == ws[1..];
    } else {
      TotalAfterMove(f, ws[1..], w - 1, phase);
      assert ws[w := phase][1..] == ws[1..][w - 1 := phase];
    }
  }

  lemma {:induction false} TotalAfterWake(f: Phase -> nat, ws: seq<Phase>, woken: seq<Phase>)
    requires |woken| == |ws| && (forall i | 0 <= i < |ws| :: woken[i] == Woken(ws[i])) && f(Ready) <= f(Waiting)
    ensures Total(f, woken) <= Total(f, ws) && (f(Ready) == f(Waiting) ==> Total(f, woken) == Total(f, ws))
  {
    if ws != [] { TotalAfterWake(f, ws[1..], woken[1..]); }
  }

  function IsReady(phase: Phase): nat { if phase == Ready then 1 else 0 }

  function Runs(job: Job): Phase -> nat { (phase: Phase) => if phase == Running(job) then 1 else 0 }

  // ---- what every step keeps

  /** Accepted jobs are the started ones followed by the queue, and every started job is
      running in one worker or finished, once. */
  ghost predicate Conserved(p: Pool) {
    && p.accepted == p.started + p.jobs
    && (forall job :: multiset(p.started)[job] == p.finished[job] + Total(Runs(job), p.workers))
  }

  /** A worker leaves only when the pool is stopped and drained. */
  ghost predicate Drained(p: Pool) {
    forall w | 0 <= w < |p.workers| && p.workers[w] == Exited :: p.stop && p.jobs == []
  }

  /** No notification is lost: while somebody is blocked, each queued job is matched by a
      notification still to come or a worker about to test; and a stopped pool blocks
      nobody once the destructor has notified. */
  ghost predicate Awake(p: Pool) {
    && (p.owedAll ==> p.stop)
    && (NobodyWaits(p) || |p.jobs| <= p.owed + Total(IsReady, p.workers) || p.owedAll)
    && (p.stop && !p.owedAll ==> NobodyWaits(p))
  }

  ghost predicate Sound(p: Pool) { Conserved(p) && Drained(p) && Awake(p) }

  lemma KeepsOrder(p: Pool, op: Op)
    requires p.accepted == p.started + p.jobs && Allowed(p, op)
    ensures Apply(p, op).accepted == Apply(p, op).started + Apply(p, op).jobs
  {
    if op.Submit? {
      assert p.started + (p.jobs + [op.job]) == (p.started + p.jobs) + [op.job];
    } else if op.Test? && Tested(p.jobs, p.stop).Take? {
      assert p.jobs == [p.jobs[0]] + p.jobs[1..];
      assert (p.started + [p.jobs[0]]) + p.jobs[1..] == p.started + p.jobs;
    }
  }

  lemma KeepsCount(p: Pool, op: Op, job: Job)
    requires multiset(p.started)[job] == p.finished[job] + Total(Runs(job), p.workers) && Allowed(p, op)
    ensures var q := Apply(p, op); multiset(q.started)[job] == q.finished[job] + Total(Runs(job), q.workers)
  {
    var q, f := Apply(p, op), Runs(job);
    match op {
      case Submit(_) =>
      case NotifyOne(w) => if !NobodyWaits(p) { TotalAfterMove(f, p.workers, w, Ready); }
      case Stop =>
      case NotifyAll => TotalAfterWake(f, p.workers, q.workers);
      case Test(w) => TestKeepsCount(p, w, job);
      case Spurious(w) => TotalAfterMove(f, p.workers, w, Ready);
      case Finish(w) => TotalAfterMove(f, p.workers, w, Ready);
    }
  }

  lemma TestKeepsCount(p: Pool, w: nat, job: Job)
    requires multiset(p.started)[job] == p.finished[job] + Total(Runs(job), p.workers) && Allowed(p, Test(w))
    ensures var q := Apply(p, Test(w)); multiset(q.started)[job] == q.finished[job] + Total(Runs(job), q.workers)
  {
    var q := Apply(p, Test(w));
    TotalAfterMove(Runs(job), p.workers, w, q.workers[w]);
    if Tested(p.jobs, p.stop).Take? {
      assert multiset(p.started + [p.jobs[0]]) == multiset(p.started) + multiset{p.jobs[0]};
    }
  }

  lemma KeepsConserved(p: Pool, op: Op)
    requires Conserved(p) && Allowed(p, op)
    ensures Conserved(Apply(p, op))
  {
    hide Apply, Allowed;
    KeepsOrder(p, op);
    forall job
      ensures var q := Apply(p, op); multiset(q.started)[job] == q.finished[job] + Total(Runs(job), q.workers)
    {
      KeepsCount(p, op, job);
    }
  }

  lemma KeepsAwake(p: Pool, op: Op)
    requires Awake(p) && Allowed(p, op)
    ensures Awake(Apply(p, op))
  {
    var q := Apply(p, op);
    match op {
      case Submit(_) =>
      case NotifyOne(w) =>
        if !NobodyWaits(p) {
          TotalAfterMove(IsReady, p.workers, w, Ready);
          FewerWait(p, q);
        }
      case Stop =>
      case NotifyAll =>
      case Test(w) =>
        TotalAfterMove(IsReady, p.workers, w, q.workers[w]); if Tested(p.jobs, p.stop).Take? { FewerWait(p, q); }
      case Spurious(w) => TotalAfterMove(IsReady, p.workers, w, Ready); FewerWait(p, q);
      case Finish(w) => TotalAfterMove(IsReady, p.workers, w, Ready); FewerWait(p, q);
    }
  }

  lemma FewerWait(p: Pool, q: Pool)
    requires |p.workers| == |q.workers|
    requires forall w | 0 <= w < |q.workers| && q.workers[w] == Waiting :: p.workers[w] == Waiting
    ensures NobodyWaits(p) ==> NobodyWaits(q)
  {}

  lemma StepKeepsSound(p: Pool, op: Op)
    requires Sound(p) && Allowed(p, op)
    ensures Sound(Apply(p, op)) && |Apply(p, op).workers| == |p.workers|
    ensures p.stop ==> Apply(p, op).stop && Apply(p, op).accepted == p.accepted
    ensures p.accepted <= Apply(p, op).accepted && p.started <= Apply(p, op).started
  {
    hide Conserved, Awake;
    KeepsConserved(p, op);
    KeepsAwake(p, op);
  }

  // ---- every run

  function Start(n: nat): Pool {
    Pool([], false, seq(n, _ => Ready), 0, false, [], [], multiset{})
  }

  lemma {:induction false} NoneCounted(f: Phase -> nat, ws: seq<Phase>)
    requires forall w | 0 <= w < |ws| :: f(ws[w]) == 0
    ensures Total(f, ws) == 0
  {
    if ws != [] { NoneCounted(f, ws[1..]); }
  }

  lemma StartIsSound(n: nat)
    ensures Sound(Start(n))
  {
    forall job ensures Total(Runs(job), Start(n).workers) == 0 { NoneCounted(Runs(job), Start(n).workers); }
  }

  ghost predicate IsRun(states: seq<Pool>, ops: seq<Op>) {
    && |states| == |ops| + 1
    && forall i | 0 <= i < |ops| :: Allowed(states[i], ops[i]) && states[i + 1] == Apply(states[i], ops[i])
  }

  lemma {:induction false} RunIsSound(n: nat, states: seq<Pool>, ops: seq<Op>, k: nat)
    requires IsRun(states, ops) && states[0] == Start(n) && k < |states|
    ensures Sound(states[k]) && |states[k].workers| == n
  {
    hide Allowed, Apply, Sound;
    if k == 0 {
      StartIsSound(n);
    } else {
      RunIsSound(n, states, ops, k - 1);
      StepKeepsSound(states[k - 1], ops[k - 1]);
    }
  }

  /** Nothing accepted or started is forgotten, and nothing is accepted after a stop. */
  lemma {:induction false} LaterStates(n: nat, states: seq<Pool>, ops: seq<Op>, i: nat, k: nat)
    requires IsRun(states, ops) && states[0] == Start(n) && i <= k < |states|
    ensures states[i].started <= states[k].started && states[i].accepted <= states[k].accepted
    ensures states[i].stop ==> states[k].stop && states[k].accepted == states[i].accepted
  {
    hide Allowed, Apply, Sound;
    if i < k {
      LaterStates(n, states, ops, i, k - 1);
      RunIsSound(n, states, ops, k - 1);
      StepKeepsSound(states[k - 1], ops[k - 1]);
    }
  }

  /** In every interleaving: jobs start in submission order, each accepted job is queued,
      running or finished exactly once, nothing is accepted after stop, and when all
      workers of a non-empty pool have left, every accepted job has run. */
  lemma EveryRun(n: nat, states: seq<Pool>, ops: seq<Op>, i: nat, k: nat)
    requires IsRun(states, ops) && states[0] == Start(n) && i <= k < |states|
    ensures Sound(states[k])
    ensures states[i].started <= states[k].started && states[i].accepted <= states[k].accepted
    ensures states[i].stop ==> states[k].accepted == states[i].accepted
    ensures n > 0 && (forall w | 0 <= w < |states[k].workers| :: states[k].workers[w] == Exited) ==>
      states[k].jobs == [] && states[k].finished == multiset(states[k].accepted)
  {
    hide Sound;
    RunIsSound(n, states, ops, k);
    LaterStates(n, states, ops, i, k);
    if n > 0 && forall w | 0 <= w < |states[k].workers| :: states[k].workers[w] == Exited { AllLeft(states[k]); }
  }

  lemma AllFinished(p: Pool)
    requires Sound(p) && p.jobs == [] && forall w | 0 <= w < |p.workers| :: !p.workers[w].Running?
    ensures p.finished == multiset(p.accepted)
  {
    forall job ensures Total(Runs(job), p.workers) == 0 { NoneCounted(Runs(job), p.workers); }
    assert p.accepted == p.started;
    assert forall job :: multiset(p.started)[job] == p.finished[job];
  }

  lemma AllLeft(p: Pool)
    requires Sound(p) && |p.workers| > 0 && forall w | 0 <= w < |p.workers| :: p.workers[w] == Exited
    ensures p.jobs == [] && p.finished == multiset(p.accepted)
  {
    assert p.workers[0] == Exited;
    AllFinished(p);
  }

  // ---- progress

  function Cost(stop: bool): Phase -> nat {
    (phase: Phase) =>
      match phase
      case Ready => 1
      case Waiting => if stop then 2 else 0
      case Running(_) => 2
      case Exited => 0
  }

  function Measure(p: Pool): nat {
    4 * |p.jobs| + 3 * p.owed + (if p.owedAll then 1 else 0) + Total(Cost(p.stop), p.workers)
  }

  /** A step the pool takes by itself: not a new submission, not a stop, and not a wake-up
      without cause while the pool still runs. */
  predicate Internal(p: Pool, op: Op) { !op.Submit? && !op.Stop? && (op.Spurious? ==> p.stop) }

  /** Every step of its own brings the pool closer to rest. After a stop that is every step
      there is. */
  lemma StepDecreases(p: Pool, op: Op)
    requires Sound(p) && Allowed(p, op) && Internal(p, op)
    ensures Measure(Apply(p, op)) < Measure(p)
  {
    hide Sound;
    var q, f := Apply(p, op), Cost(p.stop);
    match op {
      case NotifyOne(w) => if !NobodyWaits(p) { TotalAfterMove(f, p.workers, w, Ready); }
      case NotifyAll =>
        assert p.stop by { StopOwed(p); }
        TotalAfterWake(f, p.workers, q.workers);
      case Test(w) => TotalAfterMove(f, p.workers, w, q.workers[w]);
      case Spurious(w) => TotalAfterMove(f, p.workers, w, Ready);
      case Finish(w) => TotalAfterMove(f, p.workers, w, Ready);
    }
  }

  lemma StopOwed(p: Pool)
    requires Sound(p) && p.owedAll
    ensures p.stop
  {}

  /** A pool that still has work, or that is stopped with workers inside, can always take a
      step of its own. */
  lemma NeverStuck(p: Pool) returns (op: Op)
    requires Sound(p) && |p.workers| > 0
    requires p.jobs != [] || (p.stop && exists w | 0 <= w < |p.workers| :: p.workers[w] != Exited)
    ensures Allowed(p, op) && Internal(p, op)
  {
    assert p.jobs != [] ==> p.workers[0] != Exited;
    var v :| 0 <= v < |p.workers| && p.workers[v] != Exited;
    if w :| 0 <= w < |p.workers| && p.workers[w] == Ready {
      op := Test(w);
    } else if p.workers[v].Running? {
      op := Finish(v);
    } else if p.owedAll {
      op := NotifyAll;
    } else {
      NoneCounted(IsReady, p.workers);
      op := NotifyOne(v);
    }
  }

  /** So a pool left to itself comes to rest within a number of steps known beforehand. */
  lemma {:induction false} RunsAreBounded(states: seq<Pool>, ops: seq<Op>, k: nat)
    requires IsRun(states, ops) && Sound(states[0]) && k < |states|
    requires forall i | 0 <= i < |ops| :: Internal(states[i], ops[i])
    ensures Sound(states[k]) && k + Measure(states[k]) <= Measure(states[0])
  {
    hide Allowed, Apply, Sound, Measure, Internal;
    if k > 0 {
      RunsAreBounded(states, ops, k - 1);
      StepKeepsSound(states[k - 1], ops[k - 1]);
      StepDecreases(states[k - 1], ops[k - 1]);
    }
  }

  /** A pool at rest has run every accepted job, and a stopped one has let every worker go. */
  lemma RestMeansDone(p: Pool)
    requires Sound(p) && |p.workers| > 0 && forall op | Allowed(p, op) :: !Internal(p, op)
    ensures p.jobs == [] && p.finished == multiset(p.accepted)
    ensures p.stop ==> forall w | 0 <= w < |p.workers| :: p.workers[w] == Exited
  {
    if p.jobs != [] || (p.stop && exists w | 0 <= w < |p.workers| :: p.workers[w] != Exited) {
      var op := NeverStuck(p);
    }
    forall w | 0 <= w < |p.workers| ensures !p.workers[w].Running? {
      assert Internal(p, Finish(w));
    }
    AllFinished(p);
  }

  // ---- the critical sections

  class Shared {
    var jobs: seq<Job>
    var stop: bool

    constructor ()
      ensures jobs == [] && !stop
    {
      jobs, stop := [], false;
    }

    method Push(job: Job, ghost p: Pool) returns (accepted: bool)
      requires p.jobs == jobs && p.stop == stop
      modifies this`jobs
      ensures jobs == Apply(p, Submit(job)).jobs && (accepted <==> Apply(p, Submit(job)).accepted == p.accepted + [job])
    {
      if stop {
        assert |p.accepted| != |p.accepted + [job]|;
        return false;
      }
      jobs := jobs + [job];
      accepted := true;
    }

    method Pop(w: nat, ghost p: Pool) returns (phase: Phase)
      requires p.jobs == jobs && p.stop == stop && Allowed(p, Test(w))
      modifies this`jobs
      ensures jobs == Apply(p, Test(w)).jobs && Apply(p, Test(w)).workers[w] == phase
    {
      if !(stop || jobs != []) { return Waiting; }
      if stop && jobs == [] { return Exited; }
      phase := Running(jobs[0]);
      jobs := jobs[1..];
    }
  }
}
