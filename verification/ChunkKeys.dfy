/** Names of the chunks a write-cache server stores, and the object id printed into them. */
module ChunkKeys {
  import D = Decimal

  const UINT64_MAX: nat := 0xFFFF_FFFF_FFFF_FFFF

  predicate HasPrefix(key: string, prefix: string) {
    |prefix| <= |key| && key[..|prefix|] == prefix
  }

  /** Chunk `chunk` of a file, before a server has given it an object id. */
  function PartialKey(key: string, chunk: nat, chunkSize: nat): string {
    key + "-" + D.ToString(chunk) + "-" + D.ToString(chunkSize)
  }

  function InternalKey(partialKey: string, oid: nat): string {
    partialKey + "-" + D.ToString(oid)
  }

  /** How the keys are put together. */
  lemma KeyOfChunk()
    ensures InternalKey(PartialKey("dir/a", 3, 65536), 17) == "dir/a-3-65536-17"
  {
    DigitsOfKey();
  }

  lemma DigitsOfKey()
    ensures D.ToString(3) == "3" && D.ToString(17) == "17" && D.ToString(65536) == "65536"
  {
    assert D.ToString(1) == "1" && D.ToString(6) == "6";
    assert D.ToString(65) == "65";
    assert D.ToString(655) == "655";
    assert D.ToString(6553) == "6553";
  }

  /** Position of the last '-', or -1. */
  function LastDash(key: string): (pos: int)
    ensures -1 <= pos < |key| && (pos >= 0 ==> key[pos] == '-')
    ensures forall i :: pos < i < |key| ==> key[i] != '-'
  {
    if key == [] then -1
    else if key[|key| - 1] == '-' then |key| - 1
    else LastDash(key[..|key| - 1])
  }

  /** The digits a string begins with. */
  function Digits(s: string): (n: nat)
    ensures n <= |s| && forall i :: 0 <= i < n ==> D.IsDigit(s[i])
    ensures n < |s| ==> !D.IsDigit(s[n])
  {
    if s == [] || !D.IsDigit(s[0]) then 0 else 1 + Digits(s[1..])
  }

  /** The number after the last '-': its leading digits, none of them meaning 0, capped at the
      largest 64-bit value. A key without '-' has the largest value. */
  function ParseTS(key: string): nat {
    var pos := LastDash(key);
    if pos < 0 then UINT64_MAX
    else
      var s := key[pos + 1..];
      var v := D.Value(s[..Digits(s)]);
      if v <= UINT64_MAX then v else UINT64_MAX
  }

  /** The entries a deletion request is after: those with the prefix, an id below ts, and not excepted. */
  predicate Deletable(k: string, prefix: string, ts: nat, except: set<string>) {
    HasPrefix(k, prefix) && ParseTS(k) < ts && k !in except
  }

  /** The object id of an internal key can be read back from it. */
  lemma ParseTsOfInternal(partialKey: string, oid: nat)
    ensures ParseTS(InternalKey(partialKey, oid)) == if oid <= UINT64_MAX then oid else UINT64_MAX
  {
    var s, digits := InternalKey(partialKey, oid), D.ToString(oid);
    assert s[|partialKey|] == '-';
    assert forall i :: |partialKey| < i < |s| ==> s[i] == digits[i - |partialKey| - 1];
    assert LastDash(s) == |partialKey|;
    assert s[|partialKey| + 1..] == digits;
    AllDigits(digits);
    assert digits[..|digits|] == digits;
    D.ValueOfToString(oid);
  }

  lemma {:induction false} AllDigits(s: string)
    requires forall i :: 0 <= i < |s| ==> D.IsDigit(s[i])
    ensures Digits(s) == |s|
  {
    if s != [] { AllDigits(s[1..]); }
  }

  /** Chunks of different objects never share a name, whatever their file keys are. */
  lemma InternalKeyInjective(a: string, i: nat, b: string, j: nat)
    ensures InternalKey(a, i) == InternalKey(b, j) <==> a == b && i == j
  {
    if InternalKey(a, i) == InternalKey(b, j) {
      D.SplitAtLast(a, b, D.ToString(i), D.ToString(j), '-');
      D.ToStringInjective(i, j);
    }
  }

  // ---- prefixes ----

  /** What follows the file key and a '-' in the name of a stored chunk. */
  function Tail(chunk: nat, chunkSize: nat, oid: nat): string {
    D.ToString(chunk) + "-" + D.ToString(chunkSize) + "-" + D.ToString(oid)
  }

  predicate StartsNumber(w: string) {
    w == [] || D.IsNumber(w)
  }

  predicate StartsSize(w: string, chunkSize: nat) {
    var size := D.ToString(chunkSize);
    if |w| <= |size| then w <= size else size <= w && w[|size|] == '-' && StartsNumber(w[|size| + 1..])
  }

  /** A string is the beginning of a chunk number, a '-', the chunk size, a '-' and an object id. */
  predicate StartsTail(w: string, chunkSize: nat) {
    var n := Digits(w);
    if n == |w| then StartsNumber(w) else w[n] == '-' && D.IsNumber(w[..n]) && StartsSize(w[n + 1..], chunkSize)
  }

  /** No '-' of the prefix is followed by the beginning of what chunk names end with. */
  predicate SafePrefix(prefix: string, chunkSize: nat) {
    forall j :: 0 <= j < |prefix| && prefix[j] == '-' ==> !StartsTail(prefix[j + 1..], chunkSize)
  }

  lemma NumberFront(s: string, k: nat)
    requires D.IsNumber(s) && 0 < k <= |s|
    ensures D.IsNumber(s[..k])
  {
  }

  lemma NumberStart(w: string) returns (n: nat)
    requires StartsNumber(w)
    ensures w <= D.ToString(n) && (w != [] ==> w == D.ToString(n))
  {
    n := 0;
    if w != [] {
      D.ToStringOfValue(w);
      n := D.Value(w);
    }
  }

  /** A string begins a + "-" + b exactly if it begins a, or is a and a '-' and then begins b. */
  lemma StartsJoin(w: string, a: string, b: string)
    ensures w <= a + "-" + b <==> if |w| <= |a| then w <= a else a <= w && w[|a|] == '-' && w[|a| + 1..] <= b
  {
    var s := a + "-" + b;
    assert s[..|a|] == a && s[|a|] == '-' && s[|a| + 1..] == b;
    if |w| > |a| {
      assert w <= s ==> w[..|a|] == s[..|a|] && w[|a|] == s[|a|] && w[|a| + 1..] <= s[|a| + 1..];
      assert w == w[..|a|] + [w[|a|]] + w[|a| + 1..];
    }
  }

  lemma DigitsOf(w: string, n: nat)
    requires n < |w| && w[n] == '-' && forall i :: 0 <= i < n ==> D.IsDigit(w[i])
    ensures Digits(w) == n
  {
  }

  lemma StartsOfNumber(w: string, n: nat)
    requires w <= D.ToString(n)
    ensures StartsNumber(w) && Digits(w) == |w|
  {
    AllDigits(w);
    D.ToStringIsNumber(n);
    if w != [] {
      NumberFront(D.ToString(n), |w|);
      assert w == D.ToString(n)[..|w|];
    }
  }

  lemma TailStarts(w: string, chunk: nat, chunkSize: nat, oid: nat)
    requires w <= Tail(chunk, chunkSize, oid)
    ensures StartsTail(w, chunkSize)
  {
    var a, b, c := D.ToString(chunk), D.ToString(chunkSize), D.ToString(oid);
    assert Tail(chunk, chunkSize, oid) == a + "-" + (b + "-" + c);
    StartsJoin(w, a, b + "-" + c);
    if |w| <= |a| {
      StartsOfNumber(w, chunk);
    } else {
      D.ToStringIsNumber(chunk);
      DigitsOf(w, |a|);
      assert w[..|a|] == a;
      var rest := w[|a| + 1..];
      StartsJoin(rest, b, c);
      if |rest| > |b| { StartsOfNumber(rest[|b| + 1..], oid); }
    }
  }

  lemma StartIsTail(w: string, chunkSize: nat) returns (chunk: nat, oid: nat)
    requires StartsTail(w, chunkSize)
    ensures w <= Tail(chunk, chunkSize, oid)
  {
    hide StartsNumber, StartsSize;
    var n := Digits(w);
    oid := 0;
    if n == |w| {
      chunk := NumberStart(w);
      StartsJoin(w, D.ToString(chunk), D.ToString(chunkSize) + "-" + D.ToString(oid));
    } else {
      chunk := NumberIs(w[..n]);
      oid := SizeStart(w[n + 1..], chunkSize);
      StartsJoin(w, w[..n], D.ToString(chunkSize) + "-" + D.ToString(oid));
    }
    assert Tail(chunk, chunkSize, oid) == D.ToString(chunk) + "-" + (D.ToString(chunkSize) + "-" + D.ToString(oid));
  }

  lemma NumberIs(w: string) returns (n: nat)
    requires D.IsNumber(w)
    ensures w == D.ToString(n)
  {
    D.ToStringOfValue(w);
    n := D.Value(w);
  }

  lemma SizeStart(w: string, chunkSize: nat) returns (oid: nat)
    requires StartsSize(w, chunkSize)
    ensures w <= D.ToString(chunkSize) + "-" + D.ToString(oid)
  {
    hide StartsNumber;
    var b := D.ToString(chunkSize);
    oid := 0;
    if |w| > |b| { oid := NumberStart(w[|b| + 1..]); }
    StartsJoin(w, b, D.ToString(oid));
  }

  /** A safe prefix selects a chunk exactly when it selects the chunk's file. */
  lemma PrefixOfInternal(prefix: string, key: string, chunk: nat, chunkSize: nat, oid: nat)
    requires SafePrefix(prefix, chunkSize)
    ensures HasPrefix(InternalKey(PartialKey(key, chunk, chunkSize), oid), prefix) <==> HasPrefix(key, prefix)
  {
    var s := InternalKey(PartialKey(key, chunk, chunkSize), oid);
    assert s == key + "-" + Tail(chunk, chunkSize, oid);
    if |prefix| <= |key| {
      assert s[..|prefix|] == key[..|prefix|];
    } else if HasPrefix(s, prefix) {
      assert prefix[|key|] == s[|key|] == '-';
      var w := prefix[|key| + 1..];
      assert w == Tail(chunk, chunkSize, oid)[..|w|];
      TailStarts(w, chunk, chunkSize, oid);
    }
  }

  /** A prefix that is not safe selects a chunk of a file it does not select. */
  lemma UnsafeSelects(prefix: string, chunkSize: nat, j: nat) returns (key: string, chunk: nat, oid: nat)
    requires j < |prefix| && prefix[j] == '-' && StartsTail(prefix[j + 1..], chunkSize)
    ensures HasPrefix(InternalKey(PartialKey(key, chunk, chunkSize), oid), prefix) && !HasPrefix(key, prefix)
  {
    hide StartsTail;
    var w := prefix[j + 1..];
    key := prefix[..j];
    chunk, oid := StartIsTail(w, chunkSize);
    var tail, s := Tail(chunk, chunkSize, oid), InternalKey(PartialKey(key, chunk, chunkSize), oid);
    InternalIsTail(key, chunk, chunkSize, oid);
    StartsJoin(prefix, key, tail);
    assert prefix <= s;
  }

  lemma InternalIsTail(key: string, chunk: nat, chunkSize: nat, oid: nat)
    ensures InternalKey(PartialKey(key, chunk, chunkSize), oid) == key + "-" + Tail(chunk, chunkSize, oid)
  {
  }

  /** Exactly the safe prefixes select, for every file, either all of its chunks and the file, or
      neither. */
  lemma SafePrefixExactly(prefix: string, chunkSize: nat)
    ensures SafePrefix(prefix, chunkSize) <==>
      forall key, chunk, oid :: HasPrefix(InternalKey(PartialKey(key, chunk, chunkSize), oid), prefix) <==> HasPrefix(key, prefix)
  {
    hide HasPrefix, InternalKey, PartialKey, StartsTail;
    if SafePrefix(prefix, chunkSize) {
      forall key, chunk, oid ensures HasPrefix(InternalKey(PartialKey(key, chunk, chunkSize), oid), prefix) <==> HasPrefix(key, prefix) {
        PrefixOfInternal(prefix, key, chunk, chunkSize, oid);
      }
    } else {
      var j :| 0 <= j < |prefix| && prefix[j] == '-' && StartsTail(prefix[j + 1..], chunkSize);
      var key, chunk, oid := UnsafeSelects(prefix, chunkSize, j);
      assert !(HasPrefix(InternalKey(PartialKey(key, chunk, chunkSize), oid), prefix) <==> HasPrefix(key, prefix));
    }
  }

  lemma TailChar(chunk: nat, chunkSize: nat, oid: nat, i: nat)
    requires i < |Tail(chunk, chunkSize, oid)|
    ensures var c := Tail(chunk, chunkSize, oid)[i]; c == '-' || D.IsDigit(c)
  {
  }

  lemma TailEnds(w: string, chunkSize: nat)
    requires w != [] && w[|w| - 1] != '-' && !D.IsDigit(w[|w| - 1])
    ensures !StartsTail(w, chunkSize)
  {
    hide StartsTail;
    if StartsTail(w, chunkSize) {
      var chunk, oid := StartIsTail(w, chunkSize);
      TailChar(chunk, chunkSize, oid, |w| - 1);
    }
  }

  /** The empty prefix and every prefix that ends in something else than a digit or a '-', such as a
      directory, are safe. */
  lemma DirectoryIsSafe(prefix: string, chunkSize: nat)
    requires prefix == [] || (prefix[|prefix| - 1] != '-' && !D.IsDigit(prefix[|prefix| - 1]))
    ensures SafePrefix(prefix, chunkSize)
  {
    hide StartsTail;
    forall j | 0 <= j < |prefix| && prefix[j] == '-' ensures !StartsTail(prefix[j + 1..], chunkSize) {
      TailEnds(prefix[j + 1..], chunkSize);
    }
  }

  /** A prefix that is not safe: it selects the first chunk of a file it does not select. */
  lemma DashPrefix(chunkSize: nat, oid: nat)
    ensures var prefix := "a-0";
      !SafePrefix(prefix, chunkSize) && HasPrefix(InternalKey(PartialKey("a", 0, chunkSize), oid), prefix) && !HasPrefix("a", prefix)
  {
    var s, prefix := InternalKey(PartialKey("a", 0, chunkSize), oid), "a-0";
    assert D.ToString(0) == "0";
    assert s == "a-0" + ("-" + D.ToString(chunkSize) + "-" + D.ToString(oid));
    if SafePrefix(prefix, chunkSize) { PrefixOfInternal(prefix, "a", 0, chunkSize, oid); }
  }
}
