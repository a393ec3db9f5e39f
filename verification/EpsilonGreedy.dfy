/** The arms of the epsilon-greedy scheduler: all allocations, and the allocations near a given one. */
module EpsilonGreedy {
  import opened Vectors

  function Abs(x: int): nat {
    if x < 0 then -x else x
  }

  /** Each element once. */
  ghost predicate Once<T>(list: seq<T>) {
    forall j, k :: 0 <= j < k < |list| ==> list[j] != list[k]
  }

  // ---- all allocations ----

  /** A way to share out the resources among k apps. */
  ghost predicate Allocation(v: seq<int>, k: nat, total: int) {
    |v| == k && NonNegative(v) && Sum(v) == total
  }

  /** Lists every way to share out the resources, each once. */
  method GenAllConfig(num_apps: nat, num_resources: nat) returns (all_config: seq<seq<int>>)
    requires 1 <= num_apps
    ensures Once(all_config)
    ensures forall v :: v in all_config <==> Allocation(v, num_apps, num_resources)
    decreases num_apps
  {
    if num_apps == 1 {
      OnlyOne(num_resources);
      return [[num_resources]];
    }
    all_config := [];
    for i := 0 to num_resources + 1
      invariant Once(all_config)
      invariant forall v :: v in all_config ==> Allocation(v, num_apps, num_resources) && v[0] < i
      invariant forall v :: Allocation(v, num_apps, num_resources) && v[0] < i ==> v in all_config
    {
      var subs := GenAllConfig(num_apps - 1, num_resources - i);
      ghost var before := all_config;
      for j := 0 to |subs|
        invariant Once(all_config)
        invariant forall v :: v in all_config <==> v in before || Prefixed(v, i, subs[..j])
      {
        NextPrefixed(before, all_config, i, subs, j);
        all_config := all_config + [[i] + subs[j]];
      }
      assert subs[..|subs|] == subs;
      forall v ensures Prefixed(v, i, subs) <==> Allocation(v, num_apps, num_resources) && v[0] == i {
        PrefixedIs(v, i, subs, num_apps, num_resources);
      }
    }
    forall v | Allocation(v, num_apps, num_resources) ensures v[0] < num_resources + 1 {
      SumBounds(v);
    }
  }

  ghost predicate Prefixed(v: seq<int>, i: int, subs: seq<seq<int>>) {
    |v| > 0 && v[0] == i && v[1..] in subs
  }

  lemma OnlyOne(total: nat)
    ensures forall v :: Allocation(v, 1, total) <==> v == [total]
  {
    forall v: seq<int> | |v| == 1 ensures Sum(v) == v[0] {
      assert v[..0] == [];
    }
  }

  lemma NextPrefixed(before: seq<seq<int>>, list: seq<seq<int>>, i: nat, subs: seq<seq<int>>, j: nat)
    requires j < |subs| && Once(subs) && Once(list)
    requires forall v :: v in before ==> |v| > 0 && v[0] < i
    requires forall v :: v in list <==> v in before || Prefixed(v, i, subs[..j])
    ensures Once(list + [[i] + subs[j]])
    ensures forall v :: Prefixed(v, i, subs[..j + 1]) <==> Prefixed(v, i, subs[..j]) || v == [i] + subs[j]
  {
    var w := [i] + subs[j];
    assert w[1..] == subs[j] && subs[..j + 1] == subs[..j] + [subs[j]];
    assert subs[j] !in subs[..j];
    assert w !in list;
    forall v ensures Prefixed(v, i, subs[..j + 1]) <==> Prefixed(v, i, subs[..j]) || v == w {
      if Prefixed(v, i, subs[..j + 1]) && v[1..] == subs[j] { assert v == [v[0]] + v[1..]; }
    }
  }

  lemma PrefixedIs(v: seq<int>, i: nat, subs: seq<seq<int>>, k: nat, total: int)
    requires 2 <= k && forall u :: u in subs <==> Allocation(u, k - 1, total - i)
    ensures Prefixed(v, i, subs) <==> Allocation(v, k, total) && v[0] == i
  {
    if |v| > 0 {
      assert v == [v[0]] + v[1..];
      SumFront(v[0], v[1..]);
      assert NonNegative(v) <==> 0 <= v[0] && NonNegative(v[1..]) by {
        assert forall j :: 0 < j < |v| ==> v[j] == v[1..][j - 1];
      }
    }
  }

  // ---- the allocations near a given one ----

  /** Manhattan distance of two vectors from position `at` on. */
  function Distance(v: seq<int>, w: seq<int>, at: nat): nat
    requires |v| == |w| && at <= |v|
    decreases |v| - at
  {
    if at == |v| then 0 else (if v[at] < w[at] then w[at] - v[at] else v[at] - w[at]) + Distance(v, w, at + 1)
  }

  /** What the search may still find once the positions before `index` are settled at a cost of
      `spent`. */
  ghost predicate Reachable(v: seq<int>, current: seq<int>, index: nat, spent: nat, d_max: int, s: int)
    requires index <= |current|
  {
    && |v| == |current| && v[..index] == current[..index]
    && NonNegative(v) && Sum(v) == s && spent + Distance(v, current, index) <= d_max
  }

  lemma {:induction false} SameDistance(v: seq<int>, w: seq<int>, w1: seq<int>, at: nat)
    requires |v| == |w| == |w1| && at <= |v| && forall j :: at <= j < |v| ==> w[j] == w1[j]
    ensures Distance(v, w, at) == Distance(v, w1, at)
    decreases |v| - at
  {
    if at < |v| { SameDistance(v, w, w1, at + 1); }
  }

  /** The vectors reachable with a given step at `index`. */
  lemma StepReachable(v: seq<int>, current: seq<int>, index: nat, delta: int, spent: nat, d_max: int, s: int)
    requires index < |current|
    ensures Reachable(v, current[index := current[index] + delta], index + 1, spent + Abs(delta), d_max, s)
      <==> Reachable(v, current, index, spent, d_max, s) && v[index] == current[index] + delta
  {
    var next := current[index := current[index] + delta];
    if |v| == |current| {
      SameDistance(v, current, next, index + 1);
      assert v[..index + 1] == v[..index] + [v[index]] && next[..index + 1] == current[..index] + [current[index] + delta];
    }
  }

  lemma StepBounded(v: seq<int>, current: seq<int>, index: nat, spent: nat, d_max: int, s: int)
    requires index < |current| && Reachable(v, current, index, spent, d_max, s)
    ensures -d_max <= v[index] - current[index] <= d_max
  {
  }

  lemma NotReachable(v: seq<int>, current: seq<int>, index: nat, spent: nat, d_max: int, s: int)
    requires index <= |current| && forall j :: index <= j < |current| ==> 0 <= current[j]
    requires spent > d_max || !NonNegative(current)
    ensures !Reachable(v, current, index, spent, d_max, s)
  {
    if |v| == |current| && v[..index] == current[..index] && !NonNegative(current) {
      var j :| 0 <= j < |current| && current[j] < 0;
      assert v[..index][j] == current[..index][j];
      assert v[j] < 0;
    }
  }

  /** Appends everything reachable to the solutions, each vector once, and leaves the working vector
      as it was. */
  method Backtrack(current_vector: array<int>, index: nat, current_distance: nat, d_max: int, s: int, solutions0: seq<seq<int>>)
    returns (solutions: seq<seq<int>>)
    requires index <= current_vector.Length
    requires forall j :: index <= j < current_vector.Length ==> 0 <= current_vector[j]
    modifies current_vector
    ensures current_vector[..] == old(current_vector[..])
    ensures solutions0 <= solutions && Once(solutions[|solutions0|..])
    ensures forall v :: v in solutions[|solutions0|..] <==> Reachable(v, current_vector[..], index, current_distance, d_max, s)
    decreases current_vector.Length - index
  {
    solutions := solutions0;
    ghost var current := current_vector[..];
    var negative := exists j :: 0 <= j < current_vector.Length && current_vector[j] < 0;
    if current_distance > d_max || negative {
      forall v ensures !Reachable(v, current, index, current_distance, d_max, s) {
        NotReachable(v, current, index, current_distance, d_max, s);
      }
      return;
    }
    if index == current_vector.Length {
      assert current[..index] == current;
      if Sum(current_vector[..]) == s {
        solutions := solutions + [current_vector[..]];
        assert solutions[|solutions0|..] == [current];
      }
      forall v ensures Reachable(v, current, index, current_distance, d_max, s) <==> v == current && Sum(current) == s {
        assert |v| == |current| ==> v[..index] == v;
      }
      return;
    }
    var delta := -d_max;
    while delta <= d_max
      invariant -d_max <= delta <= d_max + 1
      invariant current_vector[..] == current && solutions0 <= solutions && Once(solutions[|solutions0|..])
      invariant forall v :: v in solutions[|solutions0|..] <==>
        Reachable(v, current, index, current_distance, d_max, s) && v[index] - current[index] < delta
    {
      solutions := TryDelta(current_vector, index, delta, current_distance, d_max, s, solutions0, solutions, current);
      delta := delta + 1;
    }
    forall v | Reachable(v, current, index, current_distance, d_max, s) ensures v[index] - current[index] < delta {
      StepBounded(v, current, index, current_distance, d_max, s);
    }
  }

  /** One step at `index` and back. */
  method TryDelta(current_vector: array<int>, index: nat, delta: int, current_distance: nat, d_max: int, s: int,
                  ghost solutions0: seq<seq<int>>, before: seq<seq<int>>, ghost current: seq<int>)
    returns (solutions: seq<seq<int>>)
    requires index < current_vector.Length && current_vector[..] == current
    requires forall j :: index <= j < |current| ==> 0 <= current[j]
    requires solutions0 <= before && Once(before[|solutions0|..])
    requires forall v :: v in before[|solutions0|..] <==>
      Reachable(v, current, index, current_distance, d_max, s) && v[index] - current[index] < delta
    modifies current_vector
    ensures current_vector[..] == current && solutions0 <= solutions && Once(solutions[|solutions0|..])
    ensures forall v :: v in solutions[|solutions0|..] <==>
      Reachable(v, current, index, current_distance, d_max, s) && v[index] - current[index] < delta + 1
    decreases current_vector.Length - index, 0
  {
    current_vector[index] := current_vector[index] + delta;
    ghost var next := current[index := current[index] + delta];
    assert current_vector[..] == next;
    var new_distance := current_distance + Abs(delta);
    solutions := Backtrack(current_vector, index + 1, new_distance, d_max, s, before);
    assert current_vector[..] == next;
    current_vector[index] := current_vector[index] - delta;
    assert current_vector[..] == current;
    ghost var added := solutions[|before|..];
    assert solutions[|solutions0|..] == before[|solutions0|..] + added;
    forall v ensures v in added <==> Reachable(v, current, index, current_distance, d_max, s) && v[index] == current[index] + delta {
      StepReachable(v, current, index, delta, current_distance, d_max, s);
    }
    OnceConcat(before[|solutions0|..], added, index, current[index] + delta);
  }

  lemma OnceConcat(a: seq<seq<int>>, b: seq<seq<int>>, index: nat, x: int)
    requires Once(a) && Once(b)
    requires forall v :: v in a ==> index < |v| && v[index] < x
    requires forall v :: v in b ==> index < |v| && v[index] == x
    ensures Once(a + b)
  {
    forall j, k | 0 <= j < |a| && 0 <= k < |b| ensures a[j] != b[k] {
      assert a[j] in a && b[k] in b;
    }
  }

  /** The vectors of non-negative numbers with the sum of `x` and at most `d_max` away from it, each
      once. */
  method FindVectors(x: seq<int>, d_max: int) returns (solutions: seq<seq<int>>)
    requires NonNegative(x)
    ensures Once(solutions)
    ensures forall v :: v in solutions <==> |v| == |x| && NonNegative(v) && Sum(v) == Sum(x) && Distance(v, x, 0) <= d_max
  {
    var initial_vector := new int[|x|](i requires 0 <= i < |x| => x[i]);
    assert initial_vector[..] == x;
    solutions := Backtrack(initial_vector, 0, 0, d_max, Sum(x), []);
    assert solutions[0..] == solutions;
  }
}
