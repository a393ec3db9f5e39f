/** The allocation lock of the page cache in safe mode and the accounting of resident pages, as steps
    of concurrent threads. */
module PageLocks {
  import opened Sets

  /** Where a thread is: creating a page (shared lock) or removing one (exclusive lock). */
  datatype Phase =
    | WantShared(key: string, seen: int)
    | Shared(key: string)
    | Allocated(key: string)
    | Inserted(key: string)
    | Counted(key: string)
    | WantExclusive(key: string)
    | Exclusive(key: string)
    | Removed(key: string)
    | Released(key: string)
    | Discounted(key: string)

  datatype Kind = HoldsShared | HoldsExclusive | HoldsTaken | ToCount | ToDiscount | NoKind

  /** What the lock and the page count have to know about a phase. A page that was removed is still to
      be discounted, first while the lock is held and then without it. */
  function KindOf(p: Phase): Kind {
    match p
    case Shared(_) => HoldsShared
    case Exclusive(_) => HoldsExclusive
    case Removed(_) => HoldsTaken
    case Inserted(_) => ToCount
    case Released(_) => ToDiscount
    case _ => NoKind
  }

  datatype State = State(lock: int, threads: map<nat, Phase>, resident: set<string>, pageNum: int, pagesList: set<string>)

  predicate Init(s: State) {
    s == State(0, map[], {}, 0, {})
  }

  // ---- steps ----

  datatype Step =
    | LoadLock(t: nat, key: string)
    | TryShared(t: nat)
    | LeaveShared(t: nat)
    | Insert(t: nat)
    | CountUp(t: nat)
    | ListAdd(t: nat)
    | BeginRemove(t: nat, key: string)
    | TryExclusive(t: nat)
    | RemovePage(t: nat)
    | LeaveExclusive(t: nat)
    | CountDown(t: nat)
    | ListErase(t: nat)

  function Set(s: State, t: nat, p: Phase): State {
    s.(threads := s.threads[t := p])
  }

  function End(s: State, t: nat): State {
    s.(threads := s.threads - {t})
  }

  predicate Enabled(s: State, step: Step) {
    match step
    case LoadLock(t, _) => t !in s.threads
    case TryShared(t) => t in s.threads && s.threads[t].WantShared?
    case LeaveShared(t) => t in s.threads && s.threads[t].Shared?
    case Insert(t) => t in s.threads && s.threads[t].Allocated?
    case CountUp(t) => t in s.threads && s.threads[t].Inserted?
    case ListAdd(t) => t in s.threads && s.threads[t].Counted?
    case BeginRemove(t, _) => t !in s.threads
    case TryExclusive(t) => t in s.threads && s.threads[t].WantExclusive?
    case RemovePage(t) => t in s.threads && s.threads[t].Exclusive?
    case LeaveExclusive(t) => t in s.threads && (s.threads[t].Removed? || s.threads[t].Exclusive?)
    case CountDown(t) => t in s.threads && s.threads[t].Released?
    case ListErase(t) => t in s.threads && s.threads[t].Discounted?
  }

  /** The compare-and-exchange of the shared lock may fail; the thread then loads the lock again. A
      page that another thread has inserted is not inserted twice. */
  function Apply(s: State, step: Step): State
    requires Enabled(s, step)
  {
    match step
    case LoadLock(t, key) => Set(s, t, WantShared(key, s.lock))
    case TryShared(t) =>
      var p := s.threads[t];
      if p.seen >= 0 && s.lock == p.seen then Set(s, t, Shared(p.key)).(lock := s.lock + 1) else Set(s, t, WantShared(p.key, s.lock))
    case LeaveShared(t) => Set(s, t, Allocated(s.threads[t].key)).(lock := s.lock - 1)
    case Insert(t) =>
      var key := s.threads[t].key;
      if key in s.resident then End(s, t) else Set(s, t, Inserted(key)).(resident := s.resident + {key})
    case CountUp(t) => Set(s, t, Counted(s.threads[t].key)).(pageNum := s.pageNum + 1)
    case ListAdd(t) => End(s, t).(pagesList := s.pagesList + {s.threads[t].key})
    case BeginRemove(t, key) => Set(s, t, WantExclusive(key))
    case TryExclusive(t) => if s.lock == 0 then Set(s, t, Exclusive(s.threads[t].key)).(lock := -1) else s
    case RemovePage(t) =>
      var key := s.threads[t].key;
      if key in s.resident then Set(s, t, Removed(key)).(resident := s.resident - {key}) else s
    case LeaveExclusive(t) =>
      var p := s.threads[t];
      if p.Removed? then Set(s, t, Released(p.key)).(lock := 0) else End(s, t).(lock := 0)
    case CountDown(t) => Set(s, t, Discounted(s.threads[t].key)).(pageNum := s.pageNum - 1)
    case ListErase(t) => End(s, t).(pagesList := s.pagesList - {s.threads[t].key})
  }

  // ---- the invariant ----

  predicate At(threads: map<nat, Phase>, t: nat, kind: Kind) {
    t in threads && KindOf(threads[t]) == kind
  }

  ghost function In(threads: map<nat, Phase>, kind: Kind): set<nat> {
    set t | t in threads && At(threads, t, kind)
  }

  /** How many threads are in phases of a kind. */
  ghost function Num(threads: map<nat, Phase>, kind: Kind): nat {
    |In(threads, kind)|
  }

  /** A step of thread t changes the numbers by what t was and is. */
  lemma NumStep(before: map<nat, Phase>, after: map<nat, Phase>, t: nat, kind: Kind)
    requires after - {t} == before - {t}
    ensures Num(after, kind) == Num(before, kind) - (if At(before, t, kind) then 1 else 0) + (if At(after, t, kind) then 1 else 0)
  {
    forall x | x != t ensures At(after, x, kind) <==> At(before, x, kind) {
      SameElsewhere(before, after, t, x);
    }
    hide At;
    OneMember(In(before, kind), In(after, kind), t);
  }

  lemma SameElsewhere(before: map<nat, Phase>, after: map<nat, Phase>, t: nat, x: nat)
    requires after - {t} == before - {t} && x != t
    ensures x in after <==> x in before
    ensures x in after ==> after[x] == before[x]
  {
    assert x in after <==> x in after - {t};
    assert x in before <==> x in before - {t};
    assert x in after ==> after[x] == (after - {t})[x];
    assert x in before ==> before[x] == (before - {t})[x];
  }

  lemma OneMember(a: set<nat>, b: set<nat>, t: nat)
    requires forall x :: x != t ==> (x in a <==> x in b)
    ensures |b| == |a| - (if t in a then 1 else 0) + (if t in b then 1 else 0)
  {
    assert a - {t} == b - {t};
    Without(a, t);
    Without(b, t);
  }

  lemma NumPositive(threads: map<nat, Phase>, t: nat, kind: Kind)
    requires At(threads, t, kind)
    ensures 0 < Num(threads, kind)
  {
    assert t in In(threads, kind);
  }

  ghost predicate LockOk(s: State) {
    var exclusive, shared := Num(s.threads, HoldsExclusive) + Num(s.threads, HoldsTaken), Num(s.threads, HoldsShared);
    if exclusive == 0 then s.lock == shared else s.lock == -1 && exclusive == 1 && shared == 0
  }

  ghost predicate CountOk(s: State) {
    s.pageNum + Num(s.threads, ToCount) == |s.resident| + Num(s.threads, HoldsTaken) + Num(s.threads, ToDiscount)
  }

  lemma OneThread(s: State, step: Step)
    requires Enabled(s, step)
    ensures Apply(s, step).threads - {step.t} == s.threads - {step.t}
  {
  }

  lemma LockStep(s: State, step: Step)
    requires LockOk(s) && Enabled(s, step)
    ensures LockOk(Apply(s, step))
  {
    hide Num;
    var t, u := step.t, Apply(s, step);
    OneThread(s, step);
    NumStep(s.threads, u.threads, t, HoldsShared);
    NumStep(s.threads, u.threads, t, HoldsExclusive);
    NumStep(s.threads, u.threads, t, HoldsTaken);
    if t in s.threads { NumPositive(s.threads, t, KindOf(s.threads[t])); }
  }

  /** What a step of thread t does to the numbers that the page count depends on. */
  lemma CountNums(s: State, step: Step)
    requires Enabled(s, step)
    ensures var t, u := step.t, Apply(s, step);
      && Num(u.threads, ToCount) == Num(s.threads, ToCount) - (if step.CountUp? then 1 else 0) + (if step.Insert? && t in u.threads then 1 else 0)
      && Num(u.threads, HoldsTaken) + Num(u.threads, ToDiscount) == Num(s.threads, HoldsTaken) + Num(s.threads, ToDiscount)
           + (if step.RemovePage? && u.threads[t].Removed? then 1 else 0) - (if step.CountDown? then 1 else 0)
  {
    hide Num;
    var t, u := step.t, Apply(s, step);
    OneThread(s, step);
    NumStep(s.threads, u.threads, t, ToCount);
    NumStep(s.threads, u.threads, t, HoldsTaken);
    NumStep(s.threads, u.threads, t, ToDiscount);
  }

  lemma CountStep(s: State, step: Step)
    requires CountOk(s) && Enabled(s, step)
    ensures CountOk(Apply(s, step))
  {
    hide Num;
    CountNums(s, step);
    if step.RemovePage? { Without(s.resident, s.threads[step.t].key); }
  }

  // ---- runs ----

  ghost predicate Legal(s: State, steps: seq<Step>)
    decreases |steps|
  {
    steps == [] || (Enabled(s, steps[0]) && Legal(Apply(s, steps[0]), steps[1..]))
  }

  ghost function Run(s: State, steps: seq<Step>): State
    requires Legal(s, steps)
    decreases |steps|
  {
    if steps == [] then s else Run(Apply(s, steps[0]), steps[1..])
  }

  lemma {:induction false} RunOk(s: State, steps: seq<Step>)
    requires Legal(s, steps) && LockOk(s) && CountOk(s)
    ensures LockOk(Run(s, steps)) && CountOk(Run(s, steps))
    decreases |steps|
  {
    hide LockOk, CountOk, Enabled, Apply;
    if steps != [] {
      LockStep(s, steps[0]);
      CountStep(s, steps[0]);
      RunOk(Apply(s, steps[0]), steps[1..]);
    }
  }

  lemma Nobody(kind: Kind)
    ensures Num(map[], kind) == 0
  {
    assert In(map[], kind) == {};
  }

  lemma InitOk(s: State)
    requires Init(s)
    ensures LockOk(s) && CountOk(s)
  {
    forall kind ensures Num(map[], kind) == 0 { Nobody(kind); }
  }

  /** A thread that holds the lock exclusively. */
  predicate Exclusively(s: State, t: nat) {
    t in s.threads && (s.threads[t].Exclusive? || s.threads[t].Removed?)
  }

  /** In every interleaving the lock is -1 exactly while a thread holds it exclusively, and otherwise
      counts its shared holders; so a page is never created while another one is removed. */
  lemma AllocateAndRemoveExclude(init: State, steps: seq<Step>, a: nat, b: nat)
    requires Init(init) && Legal(init, steps)
    ensures var s := Run(init, steps);
      && (s.lock == -1 <==> exists t :: Exclusively(s, t))
      && (Exclusively(s, a) ==> !(b in s.threads && s.threads[b].Shared?) && (Exclusively(s, b) ==> a == b))
      && (s.lock != -1 ==> s.lock == |set t | t in s.threads && s.threads[t].Shared?|)
  {
    hide Run, Legal, Init, Num, At;
    InitOk(init);
    RunOk(init, steps);
    var s := Run(init, steps);
    if Exclusively(s, a) {
      AlonePhase(s, a, b);
    }
    if t :| Exclusively(s, t) { AlonePhase(s, t, t); }
    if s.lock == -1 { var t := SomeHolder(s); }
    SharedHolders(s);
  }

  lemma SomeHolder(s: State) returns (t: nat)
    requires LockOk(s) && s.lock == -1
    ensures Exclusively(s, t)
  {
    if In(s.threads, HoldsExclusive) != {} {
      t :| t in In(s.threads, HoldsExclusive);
    } else {
      t :| t in In(s.threads, HoldsTaken);
    }
  }

  lemma SharedHolders(s: State)
    ensures |set t | t in s.threads && s.threads[t].Shared?| == Num(s.threads, HoldsShared)
  {
    assert (set t | t in s.threads && s.threads[t].Shared?) == In(s.threads, HoldsShared);
  }

  lemma AlonePhase(s: State, a: nat, b: nat)
    requires LockOk(s) && Exclusively(s, a)
    ensures s.lock == -1 && !(b in s.threads && s.threads[b].Shared?) && (Exclusively(s, b) ==> a == b)
  {
    NumPositive(s.threads, a, KindOf(s.threads[a]));
    if b in s.threads { NumPositive(s.threads, b, KindOf(s.threads[b])); }
    if Exclusively(s, b) && KindOf(s.threads[a]) == KindOf(s.threads[b]) {
      var all := In(s.threads, KindOf(s.threads[a]));
      assert |all| == 1 && a in all && b in all;
      assert |all - {a}| == 0;
    }
  }

  /** Whenever no thread is under way the page count is the number of resident pages. */
  lemma QuietCount(init: State, steps: seq<Step>)
    requires Init(init) && Legal(init, steps) && Run(init, steps).threads == map[]
    ensures Run(init, steps).pageNum == |Run(init, steps).resident|
  {
    hide Run, Legal, Init, Num;
    InitOk(init);
    RunOk(init, steps);
    forall kind ensures Num(map[], kind) == 0 { Nobody(kind); }
  }

  // ---- the page list ----

  predicate AddPending(p: Phase) {
    p.Inserted? || p.Counted?
  }

  /** Thread t has made a page resident or removed it, and has not changed the page list yet. */
  predicate Pending(s: State, t: nat, key: string) {
    t in s.threads && s.threads[t].key == key && (AddPending(s.threads[t]) || KindOf(s.threads[t]) == HoldsTaken || KindOf(s.threads[t]) == ToDiscount || s.threads[t].Discounted?)
  }

  datatype Op = Added | Erased | Neither

  /** What a step does to the residency of a page. */
  function ChangeOf(s: State, step: Step, key: string): Op
    requires Enabled(s, step)
  {
    if step.Insert? && s.threads[step.t].key == key && key !in s.resident then Added
    else if step.RemovePage? && s.threads[step.t].key == key && key in s.resident then Erased
    else Neither
  }

  function ListOpOf(s: State, step: Step, key: string): Op
    requires Enabled(s, step)
  {
    if step.ListAdd? && s.threads[step.t].key == key then Added
    else if step.ListErase? && s.threads[step.t].key == key then Erased
    else Neither
  }

  /** A page becomes resident or is removed only when no other thread still has to list or unlist it. */
  ghost predicate Undisturbed(s: State, step: Step)
    requires Enabled(s, step)
  {
    forall key, t :: ChangeOf(s, step, key) != Neither ==> !Pending(s, t, key)
  }

  ghost predicate AllUndisturbed(s: State, steps: seq<Step>)
    requires Legal(s, steps)
    decreases |steps|
  {
    steps == [] || (Undisturbed(s, steps[0]) && AllUndisturbed(Apply(s, steps[0]), steps[1..]))
  }

  /** At most one thread is to list or unlist a page, and it is about to make the list right. */
  ghost predicate KeyOk(s: State, key: string) {
    && (forall t :: Pending(s, t, key) ==> (key in s.resident <==> AddPending(s.threads[t])) && (key in s.pagesList <==> !AddPending(s.threads[t])))
    && (forall t, u :: Pending(s, t, key) && Pending(s, u, key) ==> t == u)
    && ((forall t :: !Pending(s, t, key)) ==> (key in s.resident <==> key in s.pagesList))
  }

  /** A step of one thread leaves what the others have to do. */
  lemma OthersPending(s: State, step: Step, key: string, x: nat)
    requires Enabled(s, step) && x != step.t
    ensures Pending(Apply(s, step), x, key) <==> Pending(s, x, key)
    ensures Pending(s, x, key) ==> Apply(s, step).threads[x] == s.threads[x]
  {
    OneThread(s, step);
    SameElsewhere(s.threads, Apply(s, step).threads, step.t, x);
  }

  lemma KeyStep(s: State, step: Step, key: string)
    requires KeyOk(s, key) && Enabled(s, step) && Undisturbed(s, step)
    ensures KeyOk(Apply(s, step), key)
  {
    var t, u := step.t, Apply(s, step);
    forall x | x != t ensures (Pending(u, x, key) <==> Pending(s, x, key)) && (Pending(s, x, key) ==> u.threads[x] == s.threads[x]) {
      OthersPending(s, step, key, x);
    }
    OwnPending(s, step, key);
    assert ChangeOf(s, step, key) != Neither ==> forall x :: !Pending(s, x, key);
    hide Pending, Apply, Enabled, Undisturbed;
    assert Pending(s, t, key) || Pending(u, t, key) || forall x :: Pending(u, x, key) <==> Pending(s, x, key);
  }

  /** What a step means for the thread that takes it and for the page. */
  lemma OwnPending(s: State, step: Step, key: string)
    requires Enabled(s, step)
    ensures var t, u, change, op := step.t, Apply(s, step), ChangeOf(s, step, key), ListOpOf(s, step, key);
      && (change != Neither || op != Neither || (Pending(u, t, key) <==> Pending(s, t, key)))
      && (Pending(s, t, key) && Pending(u, t, key) ==> (AddPending(u.threads[t]) <==> AddPending(s.threads[t])))
      && (change != Neither ==> Pending(u, t, key) && (AddPending(u.threads[t]) <==> change == Added) && op == Neither)
      && (change == Added ==> key !in s.resident) && (change == Erased ==> key in s.resident)
      && (op != Neither ==> Pending(s, t, key) && !Pending(u, t, key) && (AddPending(s.threads[t]) <==> op == Added))
      && (key in u.resident <==> if change == Neither then key in s.resident else change == Added)
      && (key in u.pagesList <==> if op == Neither then key in s.pagesList else op == Added)
  {
  }

  lemma {:induction false} RunKeyOk(s: State, steps: seq<Step>, key: string)
    requires Legal(s, steps) && AllUndisturbed(s, steps) && KeyOk(s, key)
    ensures KeyOk(Run(s, steps), key)
    decreases |steps|
  {
    hide KeyOk, Enabled, Apply, Undisturbed;
    if steps != [] {
      KeyStep(s, steps[0], key);
      RunKeyOk(Apply(s, steps[0]), steps[1..], key);
    }
  }

  /** If no thread changes the residency of a page while another one still has to list or unlist it,
      then the page list is right whenever no thread is under way. */
  lemma QuietList(init: State, steps: seq<Step>)
    requires Init(init) && Legal(init, steps) && AllUndisturbed(init, steps) && Run(init, steps).threads == map[]
    ensures Run(init, steps).pagesList == Run(init, steps).resident
  {
    hide Run, Legal, AllUndisturbed;
    var s := Run(init, steps);
    forall key ensures key in s.pagesList <==> key in s.resident {
      RunKeyOk(init, steps, key);
    }
  }

  /** The last change of a page's residency in a run. */
  ghost function LastChange(s: State, steps: seq<Step>, key: string): Op
    requires Legal(s, steps)
    decreases |steps|
  {
    if steps == [] then Neither
    else
      var later := LastChange(Apply(s, steps[0]), steps[1..], key);
      if later != Neither then later else ChangeOf(s, steps[0], key)
  }

  /** The last change of the page list for a page in a run. */
  ghost function LastListOp(s: State, steps: seq<Step>, key: string): Op
    requires Legal(s, steps)
    decreases |steps|
  {
    if steps == [] then Neither
    else
      var later := LastListOp(Apply(s, steps[0]), steps[1..], key);
      if later != Neither then later else ListOpOf(s, steps[0], key)
  }

  lemma {:induction false} LastDecides(s: State, steps: seq<Step>, key: string)
    requires Legal(s, steps)
    ensures key in Run(s, steps).resident <==> if LastChange(s, steps, key) == Neither then key in s.resident else LastChange(s, steps, key) == Added
    ensures key in Run(s, steps).pagesList <==> if LastListOp(s, steps, key) == Neither then key in s.pagesList else LastListOp(s, steps, key) == Added
    decreases |steps|
  {
    hide Enabled, Apply, ChangeOf, ListOpOf;
    if steps != [] {
      OwnPending(s, steps[0], key);
      LastDecides(Apply(s, steps[0]), steps[1..], key);
    }
  }

  /** The last addition of a page to the list or erasure from it is of the same kind as its last
      insertion or removal. */
  ghost predicate LastAgrees(s: State, steps: seq<Step>, key: string)
    requires Legal(s, steps)
  {
    LastListOp(s, steps, key) == Added <==> LastChange(s, steps, key) == Added
  }

  /** In every run, whoever is under way: the page list is right exactly if for every page its last
      addition to the list or erasure from it agrees with its last insertion or removal. */
  lemma ListExactly(init: State, steps: seq<Step>)
    requires Init(init) && Legal(init, steps)
    ensures Run(init, steps).pagesList == Run(init, steps).resident <==>
      forall key :: LastAgrees(init, steps, key)
  {
    hide Run, Legal, LastChange, LastListOp;
    var s := Run(init, steps);
    forall key ensures (key in s.resident <==> LastChange(init, steps, key) == Added) && (key in s.pagesList <==> LastListOp(init, steps, key) == Added) {
      LastDecides(init, steps, key);
    }
    if s.pagesList == s.resident {
      assert forall key :: key in s.pagesList <==> key in s.resident;
    } else {
      var key :| key in s.pagesList <==> key !in s.resident;
      assert !LastAgrees(init, steps, key);
    }
  }

  /** A page removed between its insertion and its listing stays on the list for good, although the
      count is right again. */
  lemma ListRace()
    ensures var s := State(0, map[], {}, 0, {});
      var steps := [LoadLock(0, "k"), TryShared(0), LeaveShared(0), Insert(0), CountUp(0), BeginRemove(1, "k"), TryExclusive(1),
                    RemovePage(1), LeaveExclusive(1), CountDown(1), ListErase(1), ListAdd(0)];
      Init(s) && Legal(s, steps) && Run(s, steps) == State(0, map[], {}, 0, {"k"}) && !AllUndisturbed(s, steps)
  {
    hide Legal, Run, Apply, Enabled, AllUndisturbed;
    var last := State(0, map[], {}, 0, {"k"});
    var tail := EndOfRace(last);
    tail := RemovalInRace(tail, last);
    tail := StartOfRace(tail, last);
    assert tail == [LoadLock(0, "k"), TryShared(0), LeaveShared(0), Insert(0), CountUp(0), BeginRemove(1, "k"), TryExclusive(1),
                    RemovePage(1), LeaveExclusive(1), CountDown(1), ListErase(1), ListAdd(0)];
    if AllUndisturbed(State(0, map[], {}, 0, {}), tail) { QuietList(State(0, map[], {}, 0, {}), tail); }
  }

  const COUNTED := State(0, map[0 := Counted("k")], {"k"}, 1, {})

  const REMOVED := State(-1, map[0 := Counted("k"), 1 := Removed("k")], {}, 1, {})

  lemma StartOfRace(tail0: seq<Step>, last: State) returns (tail: seq<Step>)
    requires Legal(COUNTED, tail0) && Run(COUNTED, tail0) == last
    ensures tail == [LoadLock(0, "k"), TryShared(0), LeaveShared(0), Insert(0), CountUp(0)] + tail0
    ensures Legal(State(0, map[], {}, 0, {}), tail) && Run(State(0, map[], {}, 0, {}), tail) == last
  {
    hide Legal, Run;
    var s1, s2 := State(0, map[0 := WantShared("k", 0)], {}, 0, {}), State(1, map[0 := Shared("k")], {}, 0, {});
    tail := InsertionInRace(tail0, last);
    tail := Prepend(s2, LeaveShared(0), ALLOCATED, tail, last);
    tail := Prepend(s1, TryShared(0), s2, tail, last);
    tail := Prepend(State(0, map[], {}, 0, {}), LoadLock(0, "k"), s1, tail, last);
  }

  const ALLOCATED := State(0, map[0 := Allocated("k")], {}, 0, {})

  lemma InsertionInRace(tail0: seq<Step>, last: State) returns (tail: seq<Step>)
    requires Legal(COUNTED, tail0) && Run(COUNTED, tail0) == last
    ensures tail == [Insert(0), CountUp(0)] + tail0 && Legal(ALLOCATED, tail) && Run(ALLOCATED, tail) == last
  {
    hide Legal, Run;
    var s4 := State(0, map[0 := Inserted("k")], {"k"}, 0, {});
    tail := Prepend(s4, CountUp(0), COUNTED, tail0, last);
    tail := Prepend(ALLOCATED, Insert(0), s4, tail, last);
  }

  lemma RemovalInRace(tail0: seq<Step>, last: State) returns (tail: seq<Step>)
    requires Legal(REMOVED, tail0) && Run(REMOVED, tail0) == last
    ensures tail == [BeginRemove(1, "k"), TryExclusive(1), RemovePage(1)] + tail0
    ensures Legal(COUNTED, tail) && Run(COUNTED, tail) == last
  {
    hide Legal, Run;
    var s1, s2 := COUNTED.(threads := map[0 := Counted("k"), 1 := WantExclusive("k")]), State(-1, map[0 := Counted("k"), 1 := Exclusive("k")], {"k"}, 1, {});
    tail := Prepend(s2, RemovePage(1), REMOVED, tail0, last);
    tail := Prepend(s1, TryExclusive(1), s2, tail, last);
    tail := Prepend(COUNTED, BeginRemove(1, "k"), s1, tail, last);
  }

  lemma EndOfRace(last: State) returns (tail: seq<Step>)
    requires last == State(0, map[], {}, 0, {"k"})
    ensures tail == [LeaveExclusive(1), CountDown(1), ListErase(1), ListAdd(0)] && Legal(REMOVED, tail) && Run(REMOVED, tail) == last
  {
    hide Legal, Run;
    var s4, s5 := State(0, map[0 := Counted("k"), 1 := Released("k")], {}, 1, {}), State(0, map[0 := Counted("k"), 1 := Discounted("k")], {}, 0, {});
    var s6 := State(0, map[0 := Counted("k")], {}, 0, {});
    Nothing(last);
    tail := Prepend(s6, ListAdd(0), last, [], last);
    tail := Prepend(s5, ListErase(1), s6, tail, last);
    tail := Prepend(s4, CountDown(1), s5, tail, last);
    tail := Prepend(REMOVED, LeaveExclusive(1), s4, tail, last);
  }

  lemma Nothing(s: State)
    ensures Legal(s, []) && Run(s, []) == s
  {
  }

  lemma Prepend(s: State, step: Step, t: State, steps: seq<Step>, last: State) returns (more: seq<Step>)
    requires Enabled(s, step) && Apply(s, step) == t && Legal(t, steps) && Run(t, steps) == last
    ensures more == [step] + steps && Legal(s, more) && Run(s, more) == last
  {
    more := [step] + steps;
    assert more[1..] == steps;
  }
}
