/** The candidate allocations of the LinUCB scheduler: every combination of the apps' best arms, cut
    to the capacity, with what is left over given to the smallest shares. */
module Allocator {
  import opened Multiples
  import opened Vectors

  function Pow(k: nat, n: nat): nat {
    if n == 0 then 1 else k * Pow(k, n - 1)
  }

  lemma {:induction false} PowPositive(k: nat, n: nat)
    requires 0 < k
    ensures 0 < Pow(k, n)
  {
    if n > 0 { PowPositive(k, n - 1); }
  }

  lemma {:induction false} PowAdd(k: nat, a: nat, b: nat)
    ensures Pow(k, a + b) == Pow(k, a) * Pow(k, b)
  {
    if a > 0 {
      PowAdd(k, a - 1, b);
      Assoc(k, Pow(k, a - 1), Pow(k, b));
    }
  }

  lemma Assoc(a: int, b: int, c: int)
    ensures a * (b * c) == (a * b) * c
  {
  }

  // ---- numbering the combinations ----

  /** Digit number `pos`, from the left, of an n-digit number. */
  function Digit(j: nat, k: nat, n: nat, pos: nat): (d: nat)
    requires 0 < k && pos < n
    ensures d < k
  {
    PowPositive(k, n - 1 - pos);
    j / Pow(k, n - 1 - pos) % k
  }

  function Number(digits: seq<nat>, k: nat): nat {
    if digits == [] then 0 else Number(digits[..|digits| - 1], k) * k + digits[|digits| - 1]
  }

  lemma DivTwice(j: nat, a: nat, k: nat)
    requires 0 < a && 0 < k
    ensures 0 < k * a && j / (k * a) == j / k / a
  {
    var q, r := j / k, j % k;
    var q2, r2 := q / a, q % a;
    assert j == q * k + r && q == q2 * a + r2;
    assert q * k == q2 * (k * a) + r2 * k by { Assoc(q2, a, k); assert (q2 * a + r2) * k == q2 * a * k + r2 * k; assert a * k == k * a; }
    MulMono(r2, a, k);
    assert (r2 + 1) * k == r2 * k + k;
    assert a * k == k * a;
    DivMod(k * a, j, q2, r2 * k + r);
  }

  /** Every combination of digits has exactly one number. */
  lemma {:induction false} NumberDigits(digits: seq<nat>, k: nat)
    requires 0 < k && forall p :: 0 <= p < |digits| ==> digits[p] < k
    ensures Number(digits, k) < Pow(k, |digits|)
    ensures forall p :: 0 <= p < |digits| ==> Digit(Number(digits, k), k, |digits|, p) == digits[p]
  {
    if digits != [] {
      var n, rest := |digits|, digits[..|digits| - 1];
      NumberDigits(rest, k);
      var x, y, d := Number(rest, k), Number(digits, k), digits[n - 1];
      MulMono(x, Pow(k, n - 1), k);
      assert Pow(k, n) == Pow(k, n - 1) * k;
      DivMod(k, y, x, d);
      forall p | 0 <= p < n ensures Digit(y, k, n, p) == digits[p] {
        if p < n - 1 {
          DigitShift(y, k, n, p);
          assert Digit(x, k, n - 1, p) == rest[p];
        } else {
          LastDigit(y, k, n);
        }
      }
    }
  }

  lemma LastDigit(j: nat, k: nat, n: nat)
    requires 0 < k && 0 < n
    ensures Digit(j, k, n, n - 1) == j % k
  {
    assert Pow(k, 0) == 1;
    assert j / 1 == j;
  }

  lemma DigitShift(y: nat, k: nat, n: nat, p: nat)
    requires 0 < k && p < n - 1
    ensures Digit(y, k, n, p) == Digit(y / k, k, n - 1, p)
  {
    var a := Pow(k, n - 2 - p);
    PowPositive(k, n - 2 - p);
    DivTwice(y, a, k);
  }

  lemma {:induction false} DigitsNumber(j: nat, k: nat, n: nat, digits: seq<nat>)
    requires 0 < k && |digits| == n && j < Pow(k, n)
    requires forall p :: 0 <= p < n ==> digits[p] == Digit(j, k, n, p)
    ensures Number(digits, k) == j
    decreases n
  {
    hide Digit, Pow, Number;
    if n > 0 {
      var rest := digits[..n - 1];
      var q := PowBelow(j, k, n);
      forall p | 0 <= p < n - 1 ensures rest[p] == Digit(q, k, n - 1, p) {
        DigitShift(j, k, n, p);
      }
      DigitsNumber(q, k, n - 1, rest);
      LastDigit(j, k, n);
      NumberStep(digits, j, k, q);
    } else {
      NoDigits(j, k, digits);
    }
  }

  lemma NoDigits(j: nat, k: nat, digits: seq<nat>)
    requires j < Pow(k, 0) && digits == []
    ensures Number(digits, k) == j
  {
  }

  lemma PowBelow(j: nat, k: nat, n: nat) returns (q: nat)
    requires 0 < k && 0 < n && j < Pow(k, n)
    ensures q == j / k && q < Pow(k, n - 1)
  {
    DivBelow(j, k, Pow(k, n - 1));
    q := j / k;
  }

  lemma NumberStep(digits: seq<nat>, j: nat, k: nat, q: nat)
    requires 0 < k && digits != [] && q == j / k && Number(digits[..|digits| - 1], k) == q && digits[|digits| - 1] == j % k
    ensures Number(digits, k) == j
  {
    QuotRem(j, k);
  }

  lemma QuotRem(j: nat, k: nat)
    requires 0 < k
    ensures j / k * k + j % k == j
  {
  }

  lemma DivBelow(j: nat, k: nat, m: nat)
    requires 0 < k && j < k * m
    ensures j / k < m
  {
    assert j == j / k * k + j % k;
    assert k * m == m * k;
    MulMono(j / k, m, k);
  }

  // ---- one row ----

  function Clip(core: int, room: int): int {
    if core > room then room else core
  }

  /** The arms of each app, all of them k long and within the capacity. */
  ghost predicate Arms(arms: seq<seq<int>>, k: nat, total: int) {
    && (forall a :: 0 <= a < |arms| ==> |arms[a]| == k)
    && (forall a, d :: 0 <= a < |arms| && 0 <= d < k ==> 0 <= arms[a][d] <= total)
  }

  /** Row j after n apps: the first app has its arm, the others the arms that the digits of j select,
      cut to what is left. */
  ghost function RowOf(arms: seq<seq<int>>, k: nat, total: int, first: int, j: nat, n: nat): seq<int>
    requires 0 < k && 1 <= n <= |arms| && forall a :: 0 <= a < |arms| ==> |arms[a]| == k
  {
    if n == 1 then [first]
    else
      var r := RowOf(arms, k, total, first, j, n - 1);
      r + [Clip(arms[n - 1][Digit(j, k, |arms| - 1, n - 2)], total - Sum(r))]
  }

  lemma ArmWithin(arms: seq<seq<int>>, k: nat, total: int, a: nat, d: nat)
    requires Arms(arms, k, total) && a < |arms| && d < k
    ensures |arms[a]| == k && 0 <= arms[a][d] <= total
  {
  }

  lemma ClipWithin(before: seq<int>, core: int, total: int)
    requires NonNegative(before) && Sum(before) <= total && 0 <= core
    ensures var r := before + [Clip(core, total - Sum(before))];
      NonNegative(r) && Sum(r) <= total && r[|before|] <= core && (r[|before|] == core || Sum(r) == total)
  {
    var r := before + [Clip(core, total - Sum(before))];
    assert r[..|r| - 1] == before;
  }

  /** App p has a whole arm, or less if with it the capacity is used up. */
  ghost predicate TakesArm(r: seq<int>, p: nat, arm: int, total: int)
    requires p < |r|
  {
    r[p] == arm || (r[p] < arm && Sum(r[..p + 1]) == total)
  }

  /** Every app but the first has the arm that the digits of j select for it, or all that was left. */
  ghost predicate TakesArms(r: seq<int>, arms: seq<seq<int>>, k: nat, total: int, j: nat)
    requires 0 < k && |r| <= |arms| && forall a :: 0 <= a < |arms| ==> |arms[a]| == k
  {
    forall p :: 1 <= p < |r| ==> TakesArm(r, p, arms[p][Digit(j, k, |arms| - 1, p - 1)], total)
  }

  lemma TakesArmsNext(before: seq<int>, x: int, arms: seq<seq<int>>, k: nat, total: int, j: nat)
    requires 0 < k && 0 < |before| < |arms| && (forall a :: 0 <= a < |arms| ==> |arms[a]| == k) && TakesArms(before, arms, k, total, j)
    requires var arm := arms[|before|][Digit(j, k, |arms| - 1, |before| - 1)];
      x <= arm && (x == arm || Sum(before + [x]) == total)
    ensures TakesArms(before + [x], arms, k, total, j)
  {
    hide Digit, Sum, TakesArm, TakesArms;
    var r := before + [x];
    forall p | 1 <= p < |r| ensures TakesArm(r, p, arms[p][Digit(j, k, |arms| - 1, p - 1)], total) {
      if p < |before| {
        TakesArmAt(before, arms, k, total, j, p);
        TakesArmStays(before, x, p, arms[p][Digit(j, k, |arms| - 1, p - 1)], total);
      } else {
        TakesLast(before, x, arms[p][Digit(j, k, |arms| - 1, p - 1)], total);
      }
    }
    AllTakeArms(r, arms, k, total, j);
  }

  lemma TakesArmAt(r: seq<int>, arms: seq<seq<int>>, k: nat, total: int, j: nat, p: nat)
    requires 0 < k && 1 <= p < |r| <= |arms| && (forall a :: 0 <= a < |arms| ==> |arms[a]| == k) && TakesArms(r, arms, k, total, j)
    ensures TakesArm(r, p, arms[p][Digit(j, k, |arms| - 1, p - 1)], total)
  {
    hide Digit, TakesArm;
  }

  lemma AllTakeArms(r: seq<int>, arms: seq<seq<int>>, k: nat, total: int, j: nat)
    requires 0 < k && |r| <= |arms| && forall a :: 0 <= a < |arms| ==> |arms[a]| == k
    requires forall p :: 1 <= p < |r| ==> TakesArm(r, p, arms[p][Digit(j, k, |arms| - 1, p - 1)], total)
    ensures TakesArms(r, arms, k, total, j)
  {
    hide Digit, TakesArm;
  }

  lemma TakesArmStays(before: seq<int>, x: int, p: nat, arm: int, total: int)
    requires p < |before| && TakesArm(before, p, arm, total)
    ensures TakesArm(before + [x], p, arm, total)
  {
    assert (before + [x])[..p + 1] == before[..p + 1];
  }

  lemma TakesLast(before: seq<int>, x: int, arm: int, total: int)
    requires x <= arm && (x == arm || Sum(before + [x]) == total)
    ensures TakesArm(before + [x], |before|, arm, total)
  {
    assert (before + [x])[..|before| + 1] == before + [x];
  }

  /** Rows stay within the capacity, and each app after the first has its arm or all that is left. */
  lemma {:induction false} RowWithin(arms: seq<seq<int>>, k: nat, total: int, first: int, j: nat, n: nat)
    requires 0 < k && 1 <= n <= |arms| && Arms(arms, k, total) && 0 <= first <= total
    ensures var r := RowOf(arms, k, total, first, j, n);
      |r| == n && r[0] == first && NonNegative(r) && Sum(r) <= total && TakesArms(r, arms, k, total, j)
  {
    hide Digit, TakesArms, NonNegative, Sum, Clip;
    if n > 1 {
      RowWithin(arms, k, total, first, j, n - 1);
      var before, d := RowOf(arms, k, total, first, j, n - 1), Digit(j, k, |arms| - 1, n - 2);
      ArmWithin(arms, k, total, n - 1, d);
      ClipWithin(before, arms[n - 1][d], total);
      TakesArmsNext(before, Clip(arms[n - 1][d], total - Sum(before)), arms, k, total, j);
    } else {
      FirstWithin(arms, k, first, j, total);
    }
  }

  lemma FirstWithin(arms: seq<seq<int>>, k: nat, first: int, j: nat, total: int)
    requires 0 < k && 1 <= |arms| && (forall a :: 0 <= a < |arms| ==> |arms[a]| == k) && 0 <= first <= total
    ensures NonNegative([first]) && Sum([first]) <= total && TakesArms([first], arms, k, total, j)
  {
    assert [first][..0] == [];
  }

  ghost predicate Complete(r: seq<int>, arms: seq<seq<int>>, k: nat, total: int, first: int, j: nat)
    requires 0 < k && forall a :: 0 <= a < |arms| ==> |arms[a]| == k
  {
    |r| == |arms| && r != [] && r[0] == first && Sum(r) <= total && TakesArms(r, arms, k, total, j)
  }

  lemma RowComplete(arms: seq<seq<int>>, k: nat, total: int, first: int, j: nat)
    requires 0 < k && 1 <= |arms| && Arms(arms, k, total) && 0 <= first <= total
    ensures Complete(RowOf(arms, k, total, first, j, |arms|), arms, k, total, first, j)
  {
    hide TakesArms, RowOf, Sum, NonNegative;
    RowWithin(arms, k, total, first, j, |arms|);
  }

  // ---- appending one app to every row ----

  /** The block of k * delta2 rows that row j lies in. */
  function Block(j: nat, k: nat, delta2: nat): nat
    requires 0 < k && 0 < delta2
  {
    var q: nat := j / delta2;
    q / k
  }

  function DigitAt(j: nat, k: nat, delta2: nat): (d: nat)
    requires 0 < k && 0 < delta2
    ensures d < k
  {
    var q: nat := j / delta2;
    q % k
  }

  /** The first row of block m whose digit is d. */
  function BlockStart(k: nat, delta2: nat, d: nat, m: nat): nat {
    var span: nat := k * delta2;
    d * delta2 + m * span
  }

  /** Rows that the loops have extended so far: those whose digit is smaller, and of those with digit
      d the first blocks and the rows before `next`. */
  predicate Done(j: nat, k: nat, delta2: nat, d: nat, m: nat, next: nat)
    requires 0 < k && 0 < delta2
  {
    DoneAt(DigitAt(j, k, delta2), Block(j, k, delta2), j, d, m, next)
  }

  predicate DoneAt(digit: nat, block: nat, j: nat, d: nat, m: nat, next: nat) {
    digit < d || (digit == d && (block < m || (block == m && j < next)))
  }

  ghost predicate Extended(tmp: seq<seq<int>>, arms: seq<seq<int>>, k: nat, total: int, first: int, n: nat, delta2: nat, d: nat, m: nat, next: nat)
    requires 0 < k && 0 < delta2 && 1 <= n < |arms| && forall a :: 0 <= a < |arms| ==> |arms[a]| == k
  {
    forall j :: 0 <= j < |tmp| ==> tmp[j] == RowOf(arms, k, total, first, j, if Done(j, k, delta2, d, m, next) then n + 1 else n)
  }

  /** Row j lies in block m of digit d exactly when it lies in the window of the two inner loops. */
  lemma Window(j: nat, k: nat, delta2: nat, d: nat, m: nat)
    requires 0 < k && 0 < delta2 && d < k
    ensures var i := BlockStart(k, delta2, d, m);
      DigitAt(j, k, delta2) == d && Block(j, k, delta2) == m <==> i <= j < i + delta2
  {
    var q, x: nat := m * k + d, j / delta2;
    WindowStart(k, delta2, d, m);
    DivMod(k, x, m, d);
    InRange(j, delta2, q);
    hide Block, DigitAt;
    SplitIs(j, k, delta2, x);
  }

  lemma SplitIs(j: nat, k: nat, delta2: nat, x: nat)
    requires 0 < k && 0 < delta2 && x == j / delta2
    ensures DigitAt(j, k, delta2) == x % k && Block(j, k, delta2) == x / k
  {
  }

  lemma WindowStart(k: nat, delta2: nat, d: nat, m: nat)
    ensures BlockStart(k, delta2, d, m) == (m * k + d) * delta2
  {
    Assoc(m, k, delta2);
    Distribute(m * k, d, delta2);
  }

  lemma Distribute(a: int, b: int, c: int)
    ensures (a + b) * c == a * c + b * c
  {
  }

  lemma InRange(j: nat, delta2: nat, q: nat)
    requires 0 < delta2
    ensures j / delta2 == q <==> q * delta2 <= j < q * delta2 + delta2
  {
    QuotRem(j, delta2);
    MulMono(q, q + 1, delta2);
    CellIndex(j, q, delta2);
  }

  /** The rows before the window of a block begins are the same as after the block before ends. */
  lemma BlockEdge(j: nat, k: nat, delta2: nat, d: nat, m: nat, at: nat, next: nat)
    requires 0 < k && 0 < delta2 && d < k && at == BlockStart(k, delta2, d, m) && next == BlockStart(k, delta2, d, m + 1)
    ensures Done(j, k, delta2, d, m, at + delta2) <==> Done(j, k, delta2, d, m + 1, next)
  {
    hide BlockStart, DigitAt, Block;
    Window(j, k, delta2, d, m);
    Window(j, k, delta2, d, m + 1);
  }

  lemma NextStart(k: nat, delta2: nat, d: nat, m: nat)
    ensures BlockStart(k, delta2, d, m + 1) == BlockStart(k, delta2, d, m) + k * delta2
    ensures BlockStart(k, delta2, d, 0) == d * delta2
  {
    Distribute(m, 1, k * delta2);
  }

  /** The first block of a digit, and what the last block of the digit before has left. */
  lemma DigitEdge(j: nat, k: nat, delta2: nat, d: nat, m: nat, any: nat, at: nat)
    requires 0 < k && 0 < delta2 && d + 1 <= k && j < m * (k * delta2) && at == BlockStart(k, delta2, d + 1, 0)
    ensures Done(j, k, delta2, d, m, any) <==> Done(j, k, delta2, d + 1, 0, at)
  {
    hide DoneAt, DigitAt, Block;
    BlockBelow(j, k, delta2, m);
    FirstBlock(j, k, delta2, d + 1, at);
    EdgeCases(DigitAt(j, k, delta2), Block(j, k, delta2), j, d, m, any, at);
  }

  lemma EdgeCases(digit: nat, block: nat, j: nat, d: nat, m: nat, any: nat, at: nat)
    requires block < m && (digit == d + 1 && block == 0 ==> at <= j)
    ensures DoneAt(digit, block, j, d, m, any) <==> DoneAt(digit, block, j, d + 1, 0, at)
  {
  }

  lemma FirstBlock(j: nat, k: nat, delta2: nat, d: nat, at: nat)
    requires 0 < k && 0 < delta2 && at == BlockStart(k, delta2, d, 0)
    ensures DigitAt(j, k, delta2) == d && Block(j, k, delta2) == 0 ==> at <= j
  {
    hide BlockStart, DigitAt, Block;
    Window(j, k, delta2, DigitAt(j, k, delta2), 0);
  }

  lemma BlockBelow(j: nat, k: nat, delta2: nat, m: nat)
    requires 0 < k && 0 < delta2 && j < m * (k * delta2)
    ensures Block(j, k, delta2) < m
  {
    Assoc(m, k, delta2);
    assert m * (k * delta2) == delta2 * (m * k);
    DivBelow(j, delta2, m * k);
    assert m * k == k * m;
    DivBelow(j / delta2, k, m);
  }

  /** The middle loop runs over exactly the blocks there are. */
  lemma BlockCount(k: nat, delta2: nat, d: nat, m: nat, blocks: nat, rows: int, t2: int)
    requires 0 < k && 0 < delta2 && d < k && rows == blocks * (k * delta2) && t2 == rows - (k - d - 1) * delta2
    ensures var i := BlockStart(k, delta2, d, m);
      (i < t2 <==> m < blocks) && (m < blocks ==> i + delta2 <= rows)
  {
    WindowStart(k, delta2, d, m);
    Assoc(blocks, k, delta2);
    var q, b := m * k + d, blocks * k;
    var z := b - (k - d - 1);
    Distribute(z, k - d - 1, delta2);
    MulMono(q, z, delta2);
    MulMono(q, b, delta2);
    CountBlocks(k, d, m, blocks);
  }

  lemma CountBlocks(k: nat, d: nat, m: nat, blocks: nat)
    requires d < k
    ensures m * k + d < blocks * k - (k - d - 1) <==> m < blocks
  {
    MulMono(m, blocks, k);
    MulMono(blocks, m + 1, k);
  }

  lemma {:induction false} PowSplit(k: nat, n: nat, apps: nat)
    requires 1 <= n < apps
    ensures Pow(k, apps - 1) == Pow(k, n - 1) * (k * Pow(k, apps - 1 - n)) && Pow(k, apps - n) == k * Pow(k, apps - 1 - n)
  {
    PowAdd(k, n - 1, apps - n);
    assert n - 1 + (apps - n) == apps - 1;
  }

  /** Appends app n to the row `j` that the loops have come to. */
  method AppendRow(tmp: array<seq<int>>, arms: seq<seq<int>>, k: nat, total: int, n: nat, d: nat, j: nat, ghost first: int, ghost delta2: nat, ghost m: nat)
    requires 0 < k && 1 <= n < |arms| && 0 < delta2 == Pow(k, |arms| - 1 - n) && (forall a :: 0 <= a < |arms| ==> |arms[a]| == k)
    requires d < k && j < tmp.Length && DigitAt(j, k, delta2) == d && Block(j, k, delta2) == m
    requires Extended(tmp[..], arms, k, total, first, n, delta2, d, m, j)
    modifies tmp
    ensures Extended(tmp[..], arms, k, total, first, n, delta2, d, m, j + 1)
  {
    hide Extended, Done, Digit, DigitAt, Block, RowOf, Pow;
    ghost var before := tmp[..];
    RowNext(before, arms, k, total, first, n, delta2, d, m, j);
    var app_core := arms[n][d];
    var feasible_core := total - Sum(tmp[j]);
    if app_core > feasible_core {
      tmp[j] := tmp[j] + [feasible_core];
    } else {
      tmp[j] := tmp[j] + [app_core];
    }
    assert tmp[..] == before[j := before[j] + [Clip(arms[n][d], total - Sum(before[j]))]];
  }

  lemma DigitIs(j: nat, k: nat, apps: nat, n: nat, delta2: nat)
    requires 0 < k && 1 <= n < apps && 0 < delta2 == Pow(k, apps - 1 - n)
    ensures Digit(j, k, apps - 1, n - 1) == DigitAt(j, k, delta2)
  {
    assert apps - 1 - 1 - (n - 1) == apps - 1 - n;
  }

  /** The loops extend row j next. */
  lemma RowNext(before: seq<seq<int>>, arms: seq<seq<int>>, k: nat, total: int, first: int, n: nat, delta2: nat, d: nat, m: nat, j: nat)
    requires 0 < k && 1 <= n < |arms| && 0 < delta2 == Pow(k, |arms| - 1 - n) && (forall a :: 0 <= a < |arms| ==> |arms[a]| == k)
    requires d < k && j < |before| && DigitAt(j, k, delta2) == d && Block(j, k, delta2) == m
    requires Extended(before, arms, k, total, first, n, delta2, d, m, j)
    ensures Extended(before[j := before[j] + [Clip(arms[n][d], total - Sum(before[j]))]], arms, k, total, first, n, delta2, d, m, j + 1)
  {
    hide Digit, DigitAt, Block, Pow, Clip, Sum, RowOf, Done;
    DigitIs(j, k, |arms|, n, delta2);
    DoneNext(j, k, delta2, d, m, j);
    assert before[j] == RowOf(arms, k, total, first, j, n);
    var after := before[j := before[j] + [Clip(arms[n][d], total - Sum(before[j]))]];
    RowStep(arms, k, total, first, j, n);
    forall r | 0 <= r < |after| ensures after[r] == RowOf(arms, k, total, first, r, if Done(r, k, delta2, d, m, j + 1) then n + 1 else n) {
      DoneNext(r, k, delta2, d, m, j);
      if r != j { assert before[r] == RowOf(arms, k, total, first, r, if Done(r, k, delta2, d, m, j) then n + 1 else n); }
    }
  }

  lemma RowStep(arms: seq<seq<int>>, k: nat, total: int, first: int, j: nat, n: nat)
    requires 0 < k && 1 <= n < |arms| && forall a :: 0 <= a < |arms| ==> |arms[a]| == k
    ensures var r := RowOf(arms, k, total, first, j, n);
      RowOf(arms, k, total, first, j, n + 1) == r + [Clip(arms[n][Digit(j, k, |arms| - 1, n - 1)], total - Sum(r))]
  {
  }

  lemma DoneNext(r: nat, k: nat, delta2: nat, d: nat, m: nat, j: nat)
    requires 0 < k && 0 < delta2 && DigitAt(j, k, delta2) == d && Block(j, k, delta2) == m
    ensures r == j ==> !Done(r, k, delta2, d, m, j) && Done(r, k, delta2, d, m, j + 1)
    ensures r != j ==> (Done(r, k, delta2, d, m, j) <==> Done(r, k, delta2, d, m, j + 1))
  {
    hide DigitAt, Block;
  }

  lemma SameDone(tmp: seq<seq<int>>, arms: seq<seq<int>>, k: nat, total: int, first: int, n: nat, delta2: nat, d: nat, m: nat, next: nat,
                 d1: nat, m1: nat, next1: nat)
    requires 0 < k && 0 < delta2 && 1 <= n < |arms| && (forall a :: 0 <= a < |arms| ==> |arms[a]| == k)
    requires Extended(tmp, arms, k, total, first, n, delta2, d, m, next)
    requires forall j :: 0 <= j < |tmp| ==> (Done(j, k, delta2, d, m, next) <==> Done(j, k, delta2, d1, m1, next1))
    ensures Extended(tmp, arms, k, total, first, n, delta2, d1, m1, next1)
  {
    forall j | 0 <= j < |tmp| ensures tmp[j] == RowOf(arms, k, total, first, j, if Done(j, k, delta2, d1, m1, next1) then n + 1 else n) {
      assert tmp[j] == RowOf(arms, k, total, first, j, if Done(j, k, delta2, d, m, next) then n + 1 else n);
    }
  }

  /** Appends app n's arm d to every row whose digit for app n is d. */
  method AppendArm(tmp: array<seq<int>>, arms: seq<seq<int>>, k: nat, total: int, n: nat, d: nat, ghost first: int, ghost delta: nat)
    requires 0 < k && 1 <= n < |arms| && 0 < delta == Pow(k, |arms| - 1 - n) && (forall a :: 0 <= a < |arms| ==> |arms[a]| == k)
    requires d < k && tmp.Length == Pow(k, |arms| - 1)
    requires Extended(tmp[..], arms, k, total, first, n, delta, d, 0, BlockStart(k, delta, d, 0))
    modifies tmp
    ensures Extended(tmp[..], arms, k, total, first, n, delta, d + 1, 0, BlockStart(k, delta, d + 1, 0))
  {
    hide Extended, Done, Digit, BlockStart, Pow;
    var t1 := d * Pow(k, |arms| - n - 1);
    var t2 := Pow(k, |arms| - 1) - (k - d - 1) * Pow(k, |arms| - n - 1);
    var delta2 := Pow(k, |arms| - 1 - n);
    var delta1 := Pow(k, |arms| - n);
    PowSplit(k, n, |arms|);
    ghost var m, blocks := 0, Pow(k, n - 1);
    var i := t1;
    NextStart(k, delta2, d, 0);
    BlockCount(k, delta2, d, m, blocks, tmp.Length, t2);
    while i < t2
      invariant i == BlockStart(k, delta2, d, m) && (i < t2 <==> m < blocks) && m <= blocks
      invariant Extended(tmp[..], arms, k, total, first, n, delta2, d, m, i)
      decreases blocks - m
    {
      BlockCount(k, delta2, d, m, blocks, tmp.Length, t2);
      AppendBlock(tmp, arms, k, total, n, d, i, delta2, first, m);
      NextStart(k, delta2, d, m);
      AfterBlock(tmp[..], arms, k, total, first, n, delta2, d, m, i, i + delta2, i + delta1);
      BlockCount(k, delta2, d, m + 1, blocks, tmp.Length, t2);
      i := i + delta1;
      m := m + 1;
    }
    AfterArm(tmp[..], arms, k, total, first, n, delta2, d, m, i, BlockStart(k, delta2, d + 1, 0));
  }

  lemma AfterBlock(tmp: seq<seq<int>>, arms: seq<seq<int>>, k: nat, total: int, first: int, n: nat, delta2: nat, d: nat, m: nat, at: nat, end: nat, next: nat)
    requires 0 < k && 0 < delta2 && 1 <= n < |arms| && d < k && (forall a :: 0 <= a < |arms| ==> |arms[a]| == k)
    requires at == BlockStart(k, delta2, d, m) && end == at + delta2 && next == BlockStart(k, delta2, d, m + 1)
    requires Extended(tmp, arms, k, total, first, n, delta2, d, m, end)
    ensures Extended(tmp, arms, k, total, first, n, delta2, d, m + 1, next)
  {
    hide Extended, Done, BlockStart;
    forall j | 0 <= j < |tmp| ensures Done(j, k, delta2, d, m, end) <==> Done(j, k, delta2, d, m + 1, next) {
      BlockEdge(j, k, delta2, d, m, at, next);
    }
    SameDone(tmp, arms, k, total, first, n, delta2, d, m, end, d, m + 1, next);
  }

  lemma AfterArm(tmp: seq<seq<int>>, arms: seq<seq<int>>, k: nat, total: int, first: int, n: nat, delta2: nat, d: nat, m: nat, any: nat, at: nat)
    requires 0 < k && 0 < delta2 && 1 <= n < |arms| && d < k && (forall a :: 0 <= a < |arms| ==> |arms[a]| == k)
    requires |tmp| <= m * (k * delta2) && at == BlockStart(k, delta2, d + 1, 0) && Extended(tmp, arms, k, total, first, n, delta2, d, m, any)
    ensures Extended(tmp, arms, k, total, first, n, delta2, d + 1, 0, at)
  {
    hide Extended, Done, BlockStart;
    forall j | 0 <= j < |tmp| ensures Done(j, k, delta2, d, m, any) <==> Done(j, k, delta2, d + 1, 0, at) {
      DigitEdge(j, k, delta2, d, m, any, at);
    }
    SameDone(tmp, arms, k, total, first, n, delta2, d, m, any, d + 1, 0, at);
  }

  /** The inner loop: the rows of one block. */
  method AppendBlock(tmp: array<seq<int>>, arms: seq<seq<int>>, k: nat, total: int, n: nat, d: nat, i: nat, delta2: nat, ghost first: int, ghost m: nat)
    requires 0 < k && 1 <= n < |arms| && 0 < delta2 == Pow(k, |arms| - 1 - n) && (forall a :: 0 <= a < |arms| ==> |arms[a]| == k)
    requires d < k && i == BlockStart(k, delta2, d, m) && i + delta2 <= tmp.Length
    requires Extended(tmp[..], arms, k, total, first, n, delta2, d, m, i)
    modifies tmp
    ensures Extended(tmp[..], arms, k, total, first, n, delta2, d, m, i + delta2)
  {
    hide Extended, Done, BlockStart;
    for j := i to i + delta2
      invariant Extended(tmp[..], arms, k, total, first, n, delta2, d, m, j)
    {
      Window(j, k, delta2, d, m);
      AppendRow(tmp, arms, k, total, n, d, j, first, delta2, m);
    }
  }

  /** Appends the apps from n on to every row: row j then has for each app the arm that its digits
      select, or what was left of the capacity. */
  method GenSide(tmp: array<seq<int>>, arms: seq<seq<int>>, k: nat, total: int, n: nat, ghost first: int)
    requires 0 < k && 1 <= n <= |arms| && (forall a :: 0 <= a < |arms| ==> |arms[a]| == k) && tmp.Length == Pow(k, |arms| - 1)
    requires forall j :: 0 <= j < tmp.Length ==> tmp[j] == RowOf(arms, k, total, first, j, n)
    modifies tmp
    ensures forall j :: 0 <= j < tmp.Length ==> tmp[j] == RowOf(arms, k, total, first, j, |arms|)
    ensures Arms(arms, k, total) && 0 <= first <= total ==> forall j :: 0 <= j < tmp.Length ==> Complete(tmp[j], arms, k, total, first, j)
    decreases |arms| - n
  {
    hide Extended, Pow, BlockStart, RowOf, Complete;
    if n == |arms| {
      if Arms(arms, k, total) && 0 <= first <= total {
        forall j | 0 <= j < tmp.Length ensures Complete(tmp[j], arms, k, total, first, j) { RowComplete(arms, k, total, first, j); }
      }
      return;
    }
    PowPositive(k, |arms| - 1 - n);
    ghost var delta := Pow(k, |arms| - 1 - n);
    StartApp(tmp[..], arms, k, total, first, n, delta);
    var d := 0;
    while d < k
      invariant 0 <= d <= k && Extended(tmp[..], arms, k, total, first, n, delta, d, 0, BlockStart(k, delta, d, 0))
    {
      AppendArm(tmp, arms, k, total, n, d, first, delta);
      d := d + 1;
    }
    EndApp(tmp[..], arms, k, total, first, n, delta, BlockStart(k, delta, k, 0));
    GenSide(tmp, arms, k, total, n + 1, first);
  }

  lemma StartApp(tmp: seq<seq<int>>, arms: seq<seq<int>>, k: nat, total: int, first: int, n: nat, delta: nat)
    requires 0 < k && 0 < delta && 1 <= n < |arms| && (forall a :: 0 <= a < |arms| ==> |arms[a]| == k)
    requires forall j :: 0 <= j < |tmp| ==> tmp[j] == RowOf(arms, k, total, first, j, n)
    ensures BlockStart(k, delta, 0, 0) == 0 && Extended(tmp, arms, k, total, first, n, delta, 0, 0, 0)
  {
    hide Done, RowOf;
    forall j | 0 <= j < |tmp| ensures tmp[j] == RowOf(arms, k, total, first, j, if Done(j, k, delta, 0, 0, 0) then n + 1 else n) {
      NothingDone(j, k, delta);
    }
  }

  lemma NothingDone(j: nat, k: nat, delta: nat)
    requires 0 < k && 0 < delta
    ensures !Done(j, k, delta, 0, 0, 0)
  {
  }

  lemma EndApp(tmp: seq<seq<int>>, arms: seq<seq<int>>, k: nat, total: int, first: int, n: nat, delta: nat, next: nat)
    requires 0 < k && 0 < delta && 1 <= n < |arms| && (forall a :: 0 <= a < |arms| ==> |arms[a]| == k)
    requires Extended(tmp, arms, k, total, first, n, delta, k, 0, next)
    ensures forall j :: 0 <= j < |tmp| ==> tmp[j] == RowOf(arms, k, total, first, j, n + 1)
  {
    forall j | 0 <= j < |tmp| ensures tmp[j] == RowOf(arms, k, total, first, j, n + 1) {
      assert Done(j, k, delta, k, 0, next);
    }
  }
}
