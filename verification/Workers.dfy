/** Counting upload workers: the thread that launches and waits, and the workers that complete, as
    steps of a state machine. One lock protects the counters. */
module Workers {
  import opened Sets

  /** Where the launching thread is. While it launches it holds the lock, from before the job is
      handed to the pool until after it is counted. */
  datatype Main = Outside | Launching(handedOver: bool) | AtWait | Awake

  datatype Option<T> = None | Some(value: T)

  /** The counters, the semaphore, the workers that have not completed, those among them that have
      seen no error yet, those that have completed but not posted, the results of the completed ones,
      and what the last wait returned. */
  datatype State = State(instruct_count: int, completed_count: int, last_result: int, permits: nat, main: Main,
                         active: set<nat>, checked: set<nat>, unposted: set<nat>, results: map<nat, int>, next: nat, returned: Option<int>)

  predicate Init(s: State) {
    s == State(0, 0, 0, 0, Outside, {}, {}, {}, map[], 0, None)
  }

  predicate LockFree(s: State) {
    !s.main.Launching?
  }

  // ---- the launching thread ----

  predicate BeginLaunch(s: State, t: State) {
    s.main == Outside && t == s.(main := Launching(false))
  }

  /** Hands a job to the pool, which may start it at once. */
  predicate Instruct(s: State, t: State) {
    s.main == Launching(false) && t == s.(main := Launching(true), active := s.active + {s.next}, next := s.next + 1)
  }

  predicate Count(s: State, t: State) {
    s.main == Launching(true) && t == s.(main := Launching(false), instruct_count := s.instruct_count + 1)
  }

  predicate EndLaunch(s: State, t: State) {
    s.main == Launching(false) && t == s.(main := Outside)
  }

  /** Forgets the counters, as between two multipart uploads, when no worker is outstanding. */
  predicate Reset(s: State, t: State) {
    && s.main == Outside && s.active == {} && s.unposted == {} && s.permits == 0
    && t == s.(instruct_count := 0, completed_count := 0, last_result := 0, results := map[], returned := None)
  }

  function Decided(s: State): State {
    if s.instruct_count == 0 && s.completed_count == 0 then s.(main := Outside, returned := Some(s.last_result)) else s.(main := AtWait)
  }

  predicate BeginWait(s: State, t: State) {
    s.main == Outside && t == Decided(s)
  }

  predicate Wait(s: State, t: State) {
    s.main == AtWait && s.permits > 0 && t == s.(main := Awake, permits := s.permits - 1)
  }

  predicate Settle(s: State, t: State) {
    s.main == Awake && t == Decided(if 0 < s.completed_count then s.(completed_count := s.completed_count - 1) else s)
  }

  // ---- the workers ----

  /** Bookkeeping of a worker that is about to end; it fails on an underflow of the counter. */
  function CompleteInstruction(s: State, id: nat, result: int): State {
    var s1 := if result != 0 then s.(last_result := result) else s;
    var s2 := if 0 >= s.instruct_count then s1
              else s1.(instruct_count := s.instruct_count - 1, completed_count := s.completed_count + 1);
    s2.(active := s.active - {id}, checked := s.checked - {id}, unposted := s.unposted + {id}, results := s.results[id := result])
  }

  /** A worker looks for an earlier error first, and gives up with it. */
  predicate Check(s: State, t: State, id: nat) {
    && id in s.active - s.checked && LockFree(s)
    && t == if s.last_result != 0 then CompleteInstruction(s, id, s.last_result) else s.(checked := s.checked + {id})
  }

  predicate Finish(s: State, t: State, id: nat, result: int) {
    id in s.checked && LockFree(s) && t == CompleteInstruction(s, id, result)
  }

  /** The pool posts the semaphore after the worker has returned. */
  predicate Post(s: State, t: State, id: nat) {
    id in s.unposted && t == s.(unposted := s.unposted - {id}, permits := s.permits + 1)
  }

  datatype Step = BeginLaunchStep | InstructStep | CountStep | EndLaunchStep | ResetStep | BeginWaitStep | WaitStep | SettleStep
    | CheckStep(id: nat) | FinishStep(id: nat, result: int) | PostStep(id: nat)

  predicate Next(s: State, t: State, step: Step) {
    match step
    case BeginLaunchStep => BeginLaunch(s, t)
    case InstructStep => Instruct(s, t)
    case CountStep => Count(s, t)
    case EndLaunchStep => EndLaunch(s, t)
    case ResetStep => Reset(s, t)
    case BeginWaitStep => BeginWait(s, t)
    case WaitStep => Wait(s, t)
    case SettleStep => Settle(s, t)
    case CheckStep(id) => Check(s, t, id)
    case FinishStep(id, result) => Finish(s, t, id, result)
    case PostStep(id) => Post(s, t, id)
  }

  // ---- the accounting ----

  function Held(s: State): nat {
    if s.main == Awake then 1 else 0
  }

  function Uncounted(s: State): nat {
    if s.main == Launching(true) then 1 else 0
  }

  /** Some worker that has completed since the last reset failed. */
  ghost predicate SomeFailed(s: State) {
    exists id :: id in s.results && s.results[id] != 0
  }

  ghost predicate Inv(s: State) {
    && s.permits + |s.unposted| + Held(s) == s.completed_count
    && s.instruct_count + Uncounted(s) == |s.active|
    && s.checked <= s.active
    && (forall id :: id in s.active || id in s.unposted ==> id < s.next)
    && (forall id :: id in s.results ==> id < s.next && id !in s.active)
    && (forall id :: id in s.unposted ==> id !in s.active)
    && (s.main.AtWait? || s.main.Awake? ==> 0 < s.instruct_count + s.completed_count)
    && (s.last_result != 0 <==> SomeFailed(s))
  }

  lemma CompleteInv(s: State, id: nat, result: int)
    requires Inv(s) && id in s.active && LockFree(s)
    ensures 0 < s.instruct_count && Inv(CompleteInstruction(s, id, result))
  {
    var t := CompleteInstruction(s, id, result);
    assert |s.active - {id}| == |s.active| - 1;
    assert |s.unposted + {id}| == |s.unposted| + 1;
    assert id !in s.results;
    assert forall j :: j in s.results ==> j in t.results && t.results[j] == s.results[j];
    assert t.results[id] == result;
  }

  lemma PostInv(s: State, t: State, id: nat)
    requires Inv(s) && Post(s, t, id)
    ensures Inv(t)
  {
    assert |s.unposted - {id}| == |s.unposted| - 1;
    SameResults(s, t);
  }

  lemma InstructInv(s: State, t: State)
    requires Inv(s) && Instruct(s, t)
    ensures Inv(t)
  {
    assert |s.active + {s.next}| == |s.active| + 1;
    SameResults(s, t);
  }

  lemma SameResults(s: State, t: State)
    requires t.results == s.results
    ensures SomeFailed(s) <==> SomeFailed(t)
  {
  }

  lemma MainInv(s: State, t: State, step: Step)
    requires Inv(s) && Next(s, t, step) && !step.CheckStep? && !step.FinishStep? && !step.PostStep? && !step.InstructStep?
    ensures Inv(t)
  {
    if !step.ResetStep? { SameResults(s, t); }
  }

  lemma CheckInv(s: State, t: State, id: nat)
    requires Inv(s) && Check(s, t, id)
    ensures Inv(t)
  {
    if s.last_result != 0 { CompleteInv(s, id, s.last_result); } else { SameResults(s, t); }
  }

  /** In every interleaving the permits that are available, still to be posted or held by the waiter
      are as many as the completions not yet taken, and the workers not completed are as many as the
      instructions counted. The counter never underflows. */
  lemma NextInv(s: State, t: State, step: Step)
    requires Inv(s) && Next(s, t, step)
    ensures Inv(t)
  {
    hide Inv;
    match step
    case CheckStep(id) => CheckInv(s, t, id);
    case FinishStep(id, result) => FinishInv(s, t, id, result);
    case PostStep(id) => PostInv(s, t, id);
    case InstructStep => InstructInv(s, t);
    case _ => MainInv(s, t, step);
  }

  lemma FinishInv(s: State, t: State, id: nat, result: int)
    requires Inv(s) && Finish(s, t, id, result)
    ensures Inv(t)
  {
    CompleteInv(s, id, result);
  }

  ghost predicate IsRun(run: seq<State>, steps: seq<Step>) {
    && |run| == |steps| + 1 && Init(run[0])
    && forall k :: 0 <= k < |steps| ==> Next(run[k], run[k + 1], steps[k])
  }

  lemma {:induction false} RunInv(run: seq<State>, steps: seq<Step>, k: nat)
    requires IsRun(run, steps) && k < |run|
    ensures Inv(run[k])
  {
    if k > 0 {
      RunInv(run, steps, k - 1);
      assert Next(run[k - 1], run[k - 1 + 1], steps[k - 1]);
      NextInv(run[k - 1], run[k], steps[k - 1]);
    }
  }

  /** A worker's bookkeeping always finds its instruction counted. */
  lemma NeverUnderflows(run: seq<State>, steps: seq<Step>, k: nat)
    requires IsRun(run, steps) && k < |steps|
    requires steps[k].FinishStep? || steps[k].CheckStep?
    ensures 0 < run[k].instruct_count
  {
    RunInv(run, steps, k);
    assert Next(run[k], run[k + 1], steps[k]);
    CompleteInv(run[k], steps[k].id, 0);
  }

  // ---- what a wait returns, by the steps taken ----

  /** A worker has ended with an error since the counters were last forgotten. */
  ghost predicate FailedSince(steps: seq<Step>, k: nat)
    requires k <= |steps|
  {
    exists m :: 0 <= m < k && FailsAt(steps, m) && NoReset(steps, m, k)
  }

  ghost predicate FailsAt(steps: seq<Step>, m: nat)
    requires m < |steps|
  {
    steps[m].FinishStep? && steps[m].result != 0
  }

  ghost predicate NoReset(steps: seq<Step>, m: nat, k: nat)
    requires m <= k <= |steps|
  {
    forall j :: m <= j < k ==> steps[j] != ResetStep
  }

  lemma {:induction false} ErrorIsFailure(run: seq<State>, steps: seq<Step>, k: nat)
    requires IsRun(run, steps) && k < |run|
    ensures run[k].last_result != 0 <==> FailedSince(steps, k)
  {
    hide Inv;
    if k > 0 {
      ErrorIsFailure(run, steps, k - 1);
      assert Next(run[k - 1], run[k - 1 + 1], steps[k - 1]);
      ErrorStep(run[k - 1], run[k], steps[k - 1]);
      FailedNext(steps, k - 1);
    }
  }

  lemma ErrorStep(s: State, t: State, step: Step)
    requires Next(s, t, step)
    ensures t.last_result != 0 <==> (step.FinishStep? && step.result != 0) || (step != ResetStep && s.last_result != 0)
  {
  }

  lemma FailedNext(steps: seq<Step>, k: nat)
    requires k < |steps|
    ensures FailedSince(steps, k + 1) <==> FailsAt(steps, k) || (steps[k] != ResetStep && FailedSince(steps, k))
  {
    if FailsAt(steps, k) { assert NoReset(steps, k, k + 1); }
    if m :| 0 <= m < k && FailsAt(steps, m) && NoReset(steps, m, k) {
      assert NoReset(steps, m, k + 1) <==> steps[k] != ResetStep;
    }
    if m :| 0 <= m < k + 1 && FailsAt(steps, m) && NoReset(steps, m, k + 1) {
      if m < k { assert NoReset(steps, m, k); }
    }
  }

  /** The semaphore was posted for a worker. */
  ghost predicate Posted(steps: seq<Step>, id: nat, j: nat, k: nat)
    requires j <= k <= |steps|
  {
    exists m :: j <= m < k && steps[m] == PostStep(id)
  }

  /** A worker that was launched is at work, about to be posted, or was posted. */
  lemma {:induction false} LaunchedWorker(run: seq<State>, steps: seq<Step>, j: nat, k: nat)
    requires IsRun(run, steps) && j < k < |run| && steps[j] == InstructStep
    ensures var id := run[j].next; id in run[k].active || id in run[k].unposted || Posted(steps, id, j, k)
    decreases k
  {
    hide Inv;
    var id := run[j].next;
    assert Next(run[k - 1], run[k - 1 + 1], steps[k - 1]);
    if j < k - 1 {
      LaunchedWorker(run, steps, j, k - 1);
      if steps[k - 1] == PostStep(id) { assert Posted(steps, id, j, k); }
      if m :| j <= m < k - 1 && steps[m] == PostStep(id) { assert Posted(steps, id, j, k); }
    }
  }

  /** Waiting returns only when every worker launched so far has completed and been posted, and it
      reports an error exactly when a worker ended with one since the counters were last forgotten. */
  lemma ReturnsWhenDone(run: seq<State>, steps: seq<Step>, k: nat)
    requires IsRun(run, steps) && k < |steps|
    requires (steps[k].BeginWaitStep? || steps[k].SettleStep?) && run[k + 1].main == Outside
    ensures forall j :: 0 <= j < k && steps[j] == InstructStep ==> Posted(steps, run[j].next, j, k)
    ensures run[k + 1].active == {} && run[k + 1].unposted == {} && run[k + 1].permits == 0
    ensures run[k + 1].returned.Some? && (run[k + 1].returned.value != 0 <==> FailedSince(steps, k))
  {
    RunInv(run, steps, k + 1);
    assert Next(run[k], run[k + 1], steps[k]);
    NobodyLeft(run[k], run[k + 1], steps[k]);
    ErrorIsFailure(run, steps, k);
    forall j | 0 <= j < k && steps[j] == InstructStep ensures Posted(steps, run[j].next, j, k) {
      LaunchedWorker(run, steps, j, k);
    }
  }

  lemma NobodyLeft(s: State, t: State, step: Step)
    requires Inv(t) && Next(s, t, step) && (step.BeginWaitStep? || step.SettleStep?) && t.main == Outside
    ensures t.active == s.active == {} && t.unposted == s.unposted == {} && t.permits == 0
    ensures t.returned == Some(s.last_result)
  {
  }

  /** The steps that can happen while the waiter waits. */
  predicate WaitingStep(step: Step) {
    step.WaitStep? || step.SettleStep? || step.CheckStep? || step.FinishStep? || step.PostStep?
  }

  /** No wake-up is lost: a waiter always can go on, or some worker can, and a waiter without a permit
      always has a worker that still has to post. */
  lemma NeverStuck(run: seq<State>, steps: seq<Step>, k: nat) returns (step: Step, t: State)
    requires IsRun(run, steps) && k < |run| && (run[k].main.AtWait? || run[k].main.Awake?)
    ensures WaitingStep(step) && Next(run[k], t, step)
    ensures run[k].main.AtWait? && run[k].permits == 0 ==> run[k].active != {} || run[k].unposted != {}
  {
    RunInv(run, steps, k);
    var s := run[k];
    if s.main.Awake? {
      step, t := SettleStep, Decided(if 0 < s.completed_count then s.(completed_count := s.completed_count - 1) else s);
    } else if s.permits > 0 {
      step, t := WaitStep, s.(main := Awake, permits := s.permits - 1);
    } else if s.unposted != {} {
      var id :| id in s.unposted;
      step, t := PostStep(id), s.(unposted := s.unposted - {id}, permits := s.permits + 1);
    } else {
      assert |s.active| > 0;
      var id :| id in s.active;
      if id in s.checked {
        step, t := FinishStep(id, 0), CompleteInstruction(s, id, 0);
      } else {
        step, t := CheckStep(id), if s.last_result != 0 then CompleteInstruction(s, id, s.last_result) else s.(checked := s.checked + {id});
      }
    }
  }

  /** Work left before a wait ends. */
  function Work(s: State): int {
    5 * |s.active| - |s.checked| + 3 * |s.unposted| + 2 * s.permits + Held(s)
  }

  /** While the waiter waits every step of anyone brings the end nearer, so the wait ends. */
  lemma WaitEnds(s: State, t: State, step: Step)
    requires Inv(s) && Next(s, t, step) && (s.main.AtWait? || s.main.Awake?)
    ensures WaitingStep(step) && 0 <= Work(t) < Work(s)
  {
    hide Inv, CompleteInstruction, Check, Finish, Post;
    NextInv(s, t, step);
    WorkLeft(t);
    match step
    case CheckStep(id) => CheckWork(s, t, id);
    case FinishStep(id, result) => FinishWork(s, t, id, result);
    case PostStep(id) => PostWork(s, t, id);
    case _ =>
  }

  lemma CheckWork(s: State, t: State, id: nat)
    requires Inv(s) && Check(s, t, id)
    ensures Work(t) < Work(s)
  {
    hide Inv, CompleteInstruction;
    if s.last_result != 0 { CompletingWork(s, id, s.last_result); } else { assert |s.checked + {id}| == |s.checked| + 1; }
  }

  lemma PostWork(s: State, t: State, id: nat)
    requires Post(s, t, id)
    ensures Work(t) < Work(s)
  {
    assert |s.unposted - {id}| == |s.unposted| - 1;
  }

  lemma FinishWork(s: State, t: State, id: nat, result: int)
    requires Inv(s) && Finish(s, t, id, result)
    ensures Work(t) < Work(s)
  {
    CompletingWork(s, id, result);
  }

  lemma WorkLeft(s: State)
    requires Inv(s)
    ensures 0 <= Work(s)
  {
    SubsetSize(s.checked, s.active);
  }

  lemma CompletingWork(s: State, id: nat, result: int)
    requires Inv(s) && id in s.active
    ensures Work(CompleteInstruction(s, id, result)) < Work(s)
  {
    hide SomeFailed;
    Moved(s, id);
    assert id in s.checked ==> |s.checked - {id}| == |s.checked| - 1;
  }

  lemma Moved(s: State, id: nat)
    requires Inv(s) && id in s.active
    ensures |s.active - {id}| == |s.active| - 1 && |s.unposted + {id}| == |s.unposted| + 1
    ensures id !in s.checked ==> s.checked - {id} == s.checked
  {
  }
}
