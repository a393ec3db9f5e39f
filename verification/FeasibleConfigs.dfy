/** The whole list of candidate allocations. */
module FeasibleConfigs {
  import opened Allocator
  import opened Vectors

  // ---- what is left over ----

  /** The first position of the smallest element. */
  function MinIndex(v: seq<int>): (i: nat)
    requires v != []
    ensures i < |v| && (forall p :: 0 <= p < |v| ==> v[i] <= v[p]) && forall p :: 0 <= p < i ==> v[i] < v[p]
  {
    if |v| == 1 then 0
    else
      var i := MinIndex(v[..|v| - 1]);
      assert forall p :: 0 <= p < |v| - 1 ==> v[..|v| - 1][p] == v[p];
      if v[|v| - 1] < v[i] then |v| - 1 else i
  }

  ghost function Fill(v: seq<int>, left: nat): seq<int>
    requires v != []
    decreases left
  {
    if left == 0 then v else Fill(v[MinIndex(v) := v[MinIndex(v)] + 1], left - 1)
  }

  /** Filling hands out exactly what is left, takes nothing away, and whoever got something ends at
      most one above everyone else. */
  lemma {:induction false} FillLevels(v: seq<int>, left: nat)
    requires v != []
    ensures var f := Fill(v, left);
      && |f| == |v| && Sum(f) == Sum(v) + left
      && (forall q :: 0 <= q < |v| ==> v[q] <= f[q])
      && (forall p, q :: 0 <= p < |v| && 0 <= q < |v| && v[q] < f[q] ==> f[q] <= f[p] + 1)
    decreases left
  {
    hide Sum;
    if left > 0 {
      var i := MinIndex(v);
      SumUpdate(v, i, v[i] + 1);
      var w, f := v[i := v[i] + 1], Fill(v, left);
      FillLevels(w, left - 1);
      forall p, q | 0 <= p < |v| && 0 <= q < |v| && v[q] < f[q] ensures f[q] <= f[p] + 1 {
        assert w[p] <= f[p] && v[i] <= v[p] <= w[p];
        assert w[q] < f[q] || (q == i && f[q] == v[i] + 1);
      }
    }
  }

  /** Gives the units left over one by one to the smallest share. */
  method Distribute(config: array<int>, left: nat)
    requires config.Length > 0
    modifies config
    ensures config[..] == Fill(old(config[..]), left)
  {
    for i := 0 to left
      invariant Fill(config[..], left - i) == Fill(old(config[..]), left)
    {
      var min_index := MinIndex(config[..]);
      ghost var before := config[..];
      config[min_index] := config[min_index] + 1;
      assert config[..] == before[min_index := before[min_index] + 1];
    }
  }

  // ---- rotations ----

  function Rotate<T>(s: seq<T>, t: nat): seq<T>
    requires t <= |s|
  {
    s[t..] + s[..t]
  }

  function RotateRight(row: seq<int>): seq<int> {
    if row == [] then [] else [row[|row| - 1]] + row[..|row| - 1]
  }

  /** A row with its last t entries moved to the front. */
  function Restore(row: seq<int>, t: nat): seq<int>
    requires t <= |row|
  {
    row[|row| - t..] + row[..|row| - t]
  }

  lemma RestoreNext(row: seq<int>, t: nat)
    requires t < |row|
    ensures Restore(row, t + 1) == RotateRight(Restore(row, t))
  {
    var n := |row|;
    var front, back := row[n - t..], row[..n - t];
    LastOfConcat(front, back);
    assert back[..|back| - 1] == row[..n - t - 1];
    assert [row[n - t - 1]] + front == row[n - t - 1..];
    assert [row[n - t - 1]] + (front + row[..n - t - 1]) == ([row[n - t - 1]] + front) + row[..n - t - 1];
  }

  lemma LastOfConcat(a: seq<int>, b: seq<int>)
    requires b != []
    ensures a + b != [] && (a + b)[|a + b| - 1] == b[|b| - 1] && (a + b)[..|a + b| - 1] == a + b[..|b| - 1]
  {
  }

  lemma RotateNext<T>(s: seq<T>, t: nat)
    requires t < |s|
    ensures Rotate(s, t + 1) == Rotate(s, t)[1..] + [Rotate(s, t)[0]]
  {
  }

  // ---- raw rows ----

  ghost predicate Square(arms: seq<seq<int>>, k: nat) {
    0 < k && 2 <= |arms| && forall a :: 0 <= a < |arms| ==> |arms[a]| == k
  }

  lemma RotatedSquare(arms: seq<seq<int>>, k: nat, t: nat)
    requires Square(arms, k) && t <= |arms|
    ensures Square(Rotate(arms, t), k) && |Rotate(arms, t)| == |arms|
  {
    var r := Rotate(arms, t);
    assert forall a :: 0 <= a < |r| ==> r[a] == arms[if a + t < |arms| then a + t else a + t - |arms|];
  }

  /** The row of combination j with arm a of the app that comes first after i + 1 rotations, in the
      original order of the apps. */
  ghost function Raw(arms: seq<seq<int>>, k: nat, total: int, i: nat, a: nat, j: nat): (row: seq<int>)
    requires Square(arms, k) && i < |arms| && a < k
    ensures |row| == |arms|
  {
    RotatedSquare(arms, k, i + 1);
    var rotated := Rotate(arms, i + 1);
    RowLength(rotated, k, total, rotated[0][a], j, |arms|);
    Restore(RowOf(rotated, k, total, rotated[0][a], j, |arms|), i + 1)
  }

  lemma {:induction false} RowLength(arms: seq<seq<int>>, k: nat, total: int, first: int, j: nat, n: nat)
    requires 0 < k && 1 <= n <= |arms| && forall a :: 0 <= a < |arms| ==> |arms[a]| == k
    ensures |RowOf(arms, k, total, first, j, n)| == n
  {
    if n > 1 { RowLength(arms, k, total, first, j, n - 1); }
  }

  /** An amount no larger than one of the arms of app q. */
  ghost predicate WithinOwn(arms: seq<seq<int>>, k: nat, q: nat, x: int)
    requires q < |arms| && |arms[q]| == k
  {
    exists d :: 0 <= d < k && x <= arms[q][d]
  }

  /** Position of the app that comes first after t rotations. */
  function FirstApp(apps: nat, t: nat): nat {
    if t < apps then t else 0
  }

  /** A raw row is in the order of the apps: no app has more than one of its own arms, and the app
      that came first has exactly the chosen one. Together they stay within the capacity. Taken in the
      order in which they were served, every app has its arm whole, or what was left. */
  lemma RawWithin(arms: seq<seq<int>>, k: nat, total: int, i: nat, a: nat, j: nat)
    requires Square(arms, k) && Arms(arms, k, total) && i < |arms| && a < k
    ensures var r, h := Raw(arms, k, total, i, a, j), FirstApp(|arms|, i + 1);
      && NonNegative(r) && Sum(r) <= total && r[h] == arms[h][a]
      && forall q :: 0 <= q < |arms| ==> WithinOwn(arms, k, q, r[q])
    ensures Square(Rotate(arms, i + 1), k) && |Rotate(arms, i + 1)| == |arms|
    ensures TakesArms(Rotate(Raw(arms, k, total, i, a, j), i + 1), Rotate(arms, i + 1), k, total, j)
  {
    hide Digit, RowOf, TakesArms, Arms, WithinOwn;
    RotatedSquare(arms, k, i + 1);
    var n, rotated := |arms|, Rotate(arms, i + 1);
    RotatedArms(arms, k, total, i + 1);
    ArmWithin(rotated, k, total, 0, a);
    RowWithin(rotated, k, total, rotated[0][a], j, n);
    var row := RowOf(rotated, k, total, rotated[0][a], j, n);
    RestoreSum(row, i + 1);
    var r := Restore(row, i + 1);
    assert Rotate(r, i + 1) == row;
    forall q | 0 <= q < n ensures WithinOwn(arms, k, q, r[q]) {
      RestoredEntry(arms, k, total, i + 1, a, j, row, q);
    }
  }

  lemma RestoreSum(row: seq<int>, t: nat)
    requires t <= |row|
    ensures Sum(Restore(row, t)) == Sum(row) && (NonNegative(row) ==> NonNegative(Restore(row, t)))
  {
    var a, b := row[..|row| - t], row[|row| - t..];
    SwapSum(a, b);
    assert row == a + b;
  }

  lemma SwapSum(a: seq<int>, b: seq<int>)
    ensures Sum(b + a) == Sum(a + b) && (NonNegative(a + b) ==> NonNegative(b + a))
  {
    SumConcat(a, b);
    SumConcat(b, a);
    if NonNegative(a + b) {
      assert forall i :: 0 <= i < |a| ==> (a + b)[i] == a[i];
      assert forall i :: 0 <= i < |b| ==> (a + b)[|a| + i] == b[i];
    }
  }

  lemma RestoredEntry(arms: seq<seq<int>>, k: nat, total: int, t: nat, a: nat, j: nat, row: seq<int>, q: nat)
    requires t <= |arms| == |row| && Square(arms, k) && Square(Rotate(arms, t), k) && a < k && q < |arms|
    requires row[0] == Rotate(arms, t)[0][a] && TakesArms(row, Rotate(arms, t), k, total, j)
    ensures WithinOwn(arms, k, q, Restore(row, t)[q])
  {
    hide Digit;
    var n, rotated := |arms|, Rotate(arms, t);
    var p := if q < t then n - t + q else q - t;
    assert Restore(row, t)[q] == row[p] && rotated[p] == arms[q];
    var d := if p == 0 then a else Digit(j, k, n - 1, p - 1);
    assert row[p] <= arms[q][d];
  }

  lemma RotatedArms(arms: seq<seq<int>>, k: nat, total: int, t: nat)
    requires Arms(arms, k, total) && t <= |arms|
    ensures Arms(Rotate(arms, t), k, total)
  {
    var r := Rotate(arms, t);
    assert forall a :: 0 <= a < |r| ==> r[a] == arms[if a + t < |arms| then a + t else a + t - |arms|];
  }

  /** For every choice of an arm for each app but the first there is exactly one row. */
  lemma CombinationOnce(k: nat, choice: seq<nat>, j: nat)
    requires 0 < k && (forall p :: 0 <= p < |choice| ==> choice[p] < k) && j < Pow(k, |choice|)
    ensures Number(choice, k) < Pow(k, |choice|)
    ensures j == Number(choice, k) <==> forall p :: 0 <= p < |choice| ==> Digit(j, k, |choice|, p) == choice[p]
  {
    hide Digit;
    NumberDigits(choice, k);
    if forall p :: 0 <= p < |choice| ==> Digit(j, k, |choice|, p) == choice[p] { DigitsNumber(j, k, |choice|, choice); }
  }

  // ---- the candidates ----

  /** The row is one of those made so far: rotations before i0, and of rotation i0 the arms before a0. */
  ghost predicate Made(arms: seq<seq<int>>, k: nat, total: int, row: seq<int>, i0: nat, a0: nat)
    requires Square(arms, k)
  {
    exists i: nat, a: nat, j: nat ::
      i < |arms| && a < k && (i < i0 || (i == i0 && a < a0)) && j < Pow(k, |arms| - 1) && row == Raw(arms, k, total, i, a, j)
  }

  /** Moves the last entry of every row to the front, t times. */
  method RestoreRows(rows: seq<seq<int>>, n: nat, t: nat) returns (res: seq<seq<int>>)
    requires t <= n && forall j :: 0 <= j < |rows| ==> |rows[j]| == n
    ensures |res| == |rows| && forall j :: 0 <= j < |rows| ==> res[j] == Restore(rows[j], t)
  {
    res := rows;
    assert forall j :: 0 <= j < |rows| ==> rows[j] == Restore(rows[j], 0);
    var s := 0;
    while s < t
      invariant 0 <= s <= t && |res| == |rows|
      invariant forall j :: 0 <= j < |rows| ==> res[j] == Restore(rows[j], s)
    {
      forall j | 0 <= j < |rows| ensures RotateRight(Restore(rows[j], s)) == Restore(rows[j], s + 1) {
        RestoreNext(rows[j], s);
      }
      hide Restore, RotateRight;
      res := seq(|res|, j requires 0 <= j < |res| => RotateRight(res[j]));
      s := s + 1;
    }
  }

  /** All rows with one arm of the app that comes first. */
  method RowsOf(arms: seq<seq<int>>, k: nat, total: int, i: nat, a: nat, rotated: seq<seq<int>>) returns (res: seq<seq<int>>)
    requires Square(arms, k) && i < |arms| && a < k && rotated == Rotate(arms, i + 1)
    ensures |res| == Pow(k, |arms| - 1) && forall j :: 0 <= j < |res| ==> res[j] == Raw(arms, k, total, i, a, j)
  {
    hide RowOf, Rotate, Restore, Digit, Pow;
    RotatedSquare(arms, k, i + 1);
    var first := rotated[0][a];
    var tmp := new seq<int>[Pow(k, |rotated| - 1)](_ => [first]);
    forall j: nat ensures RowOf(rotated, k, total, first, j, 1) == [first] {
      FirstRow(rotated, k, total, first, j);
    }
    GenSide(tmp, rotated, k, total, 1, first);
    var rows := tmp[..];
    forall j | 0 <= j < |rows| ensures |rows[j]| == |arms| {
      RowLength(rotated, k, total, first, j, |arms|);
    }
    res := RestoreRows(rows, |arms|, i + 1);
  }

  lemma FirstRow(arms: seq<seq<int>>, k: nat, total: int, first: int, j: nat)
    requires 0 < k && 1 <= |arms| && forall a :: 0 <= a < |arms| ==> |arms[a]| == k
    ensures RowOf(arms, k, total, first, j, 1) == [first]
  {
  }

  /** Every combination, seen from every app as the first. */
  method AllRows(arms: seq<seq<int>>, k: nat, total: int) returns (all: seq<seq<int>>)
    requires Square(arms, k)
    ensures forall row :: row in all <==> Made(arms, k, total, row, |arms|, 0)
  {
    hide Raw;
    all := [];
    var cache_top_k := arms;
    assert Rotate(arms, 0) == arms;
    var i := 0;
    while i < |arms|
      invariant 0 <= i <= |arms| && cache_top_k == Rotate(arms, i)
      invariant forall row :: row in all <==> Made(arms, k, total, row, i, 0)
    {
      RotateNext(arms, i);
      cache_top_k := cache_top_k[1..] + [cache_top_k[0]];
      var a := 0;
      while a < k
        invariant 0 <= a <= k
        invariant forall row :: row in all <==> Made(arms, k, total, row, i, a)
      {
        var res := RowsOf(arms, k, total, i, a, cache_top_k);
        forall row ensures row in all + res <==> Made(arms, k, total, row, i, a + 1) {
          MadeNext(arms, k, total, all, res, row, i, a);
        }
        all := all + res;
        a := a + 1;
      }
      forall row ensures Made(arms, k, total, row, i, k) <==> Made(arms, k, total, row, i + 1, 0) {
      }
      i := i + 1;
    }
  }

  lemma MadeNext(arms: seq<seq<int>>, k: nat, total: int, all: seq<seq<int>>, res: seq<seq<int>>, row: seq<int>, i: nat, a: nat)
    requires Square(arms, k) && i < |arms| && a < k
    requires row in all <==> Made(arms, k, total, row, i, a)
    requires |res| == Pow(k, |arms| - 1) && forall j :: 0 <= j < |res| ==> res[j] == Raw(arms, k, total, i, a, j)
    ensures row in all + res <==> Made(arms, k, total, row, i, a + 1)
  {
    hide Raw, Pow;
    if row in res {
      var j :| 0 <= j < |res| && res[j] == row;
      assert row == Raw(arms, k, total, i, a, j);
    }
    if Made(arms, k, total, row, i, a + 1) && !Made(arms, k, total, row, i, a) {
      var j: nat :| j < Pow(k, |arms| - 1) && row == Raw(arms, k, total, i, a, j);
      assert res[j] == row;
    }
  }

  /** The candidate comes from the row by handing out what is left of the capacity. */
  ghost predicate Filled(total: int, row: seq<int>, config: seq<int>) {
    row != [] && Sum(row) <= total && config == Fill(row, total - Sum(row))
  }

  ghost predicate FromRow(arms: seq<seq<int>>, k: nat, total: int, config: seq<int>)
    requires Square(arms, k)
  {
    exists row :: Made(arms, k, total, row, |arms|, 0) && Filled(total, row, config)
  }

  ghost predicate HasFilled(configs: seq<seq<int>>, total: int, row: seq<int>) {
    exists m :: 0 <= m < |configs| && Filled(total, row, configs[m])
  }

  lemma HasMore(configs: seq<seq<int>>, c: seq<int>, total: int, row: seq<int>)
    ensures HasFilled(configs, total, row) || Filled(total, row, c) ==> HasFilled(configs + [c], total, row)
  {
    var more := configs + [c];
    assert more[|configs|] == c && forall m :: 0 <= m < |configs| ==> more[m] == configs[m];
  }

  lemma MadeWithin(arms: seq<seq<int>>, k: nat, total: int, row: seq<int>)
    requires Square(arms, k) && Arms(arms, k, total) && Made(arms, k, total, row, |arms|, 0)
    ensures |row| == |arms| && NonNegative(row) && Sum(row) <= total
  {
    hide Raw;
    var i: nat, a: nat, j: nat :| i < |arms| && a < k && j < Pow(k, |arms| - 1) && row == Raw(arms, k, total, i, a, j);
    RawWithin(arms, k, total, i, a, j);
  }

  ghost predicate Uses(c: seq<int>, apps: nat, total: int) {
    |c| == apps && NonNegative(c) && Sum(c) == total
  }

  /** The candidates: every row made from a combination, with what is left over handed out. Each uses
      the capacity exactly. */
  method GenFeasibleConfigs(num_of_cache: nat, cache_top_k: seq<seq<int>>, k: nat) returns (configs: seq<seq<int>>)
    requires Square(cache_top_k, k) && Arms(cache_top_k, k, num_of_cache)
    ensures forall c :: c in configs ==> Uses(c, |cache_top_k|, num_of_cache) && FromRow(cache_top_k, k, num_of_cache, c)
    ensures forall row :: Made(cache_top_k, k, num_of_cache, row, |cache_top_k|, 0) ==> HasFilled(configs, num_of_cache, row)
  {
    var all := AllRows(cache_top_k, k, num_of_cache);
    hide Made, Square, Arms, Filled, HasFilled, FromRow, Uses;
    var unique := set x | x in all;
    configs := [];
    while unique != {}
      invariant forall row :: row in unique ==> row in all
      invariant forall c :: c in configs ==> Uses(c, |cache_top_k|, num_of_cache) && FromRow(cache_top_k, k, num_of_cache, c)
      invariant forall row :: row in all && row !in unique ==> HasFilled(configs, num_of_cache, row)
      decreases |unique|
    {
      var row :| row in unique;
      unique := unique - {row};
      var c := FillRow(cache_top_k, k, num_of_cache, row);
      forall r ensures HasFilled(configs, num_of_cache, r) || Filled(num_of_cache, r, c) ==> HasFilled(configs + [c], num_of_cache, r) {
        HasMore(configs, c, num_of_cache, r);
      }
      configs := configs + [c];
    }
  }

  /** Hands out what a row leaves over. */
  method FillRow(ghost arms: seq<seq<int>>, ghost k: nat, total: nat, row: seq<int>) returns (c: seq<int>)
    requires Square(arms, k) && Arms(arms, k, total) && Made(arms, k, total, row, |arms|, 0)
    ensures Filled(total, row, c) && Uses(c, |arms|, total) && FromRow(arms, k, total, c)
  {
    hide Made, Arms, NonNegative, Sum, Fill;
    MadeWithin(arms, k, total, row);
    var config := new int[|row|](i requires 0 <= i < |row| => row[i]);
    assert config[..] == row;
    Distribute(config, total - Sum(row));
    c := config[..];
    FillUses(row, total);
    assert Made(arms, k, total, row, |arms|, 0) && Filled(total, row, c);
  }

  lemma FillUses(row: seq<int>, total: int)
    requires row != [] && NonNegative(row) && Sum(row) <= total
    ensures Uses(Fill(row, total - Sum(row)), |row|, total)
  {
    FillLevels(row, total - Sum(row));
  }
}
