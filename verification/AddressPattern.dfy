/** The address pattern of an affine access in a loop nest: the trip counts of the loops, and
    strides that a generator can add up one after the other. Level 0 is the innermost loop. */
module AddressPattern {
  import opened Arithmetic

  // ----- trip counts

  // How the exit test compares: strictly with the bound, in the direction of the loop; the same
  // with the bound itself let through; or for being different from it.
  datatype Test = Strict | NonStrict | Differs

  // A loop as its instructions show it. The test compares the index before or behind the step with
  // a constant, and stands in front of the body or behind it.
  datatype Loop = Loop(left: int, stride: int, bound: int, test: Test, onStepped: bool, inFront: bool)

  predicate Passes(test: Test, i: int, bound: int, stride: int) {
    match test
    case Strict => if stride > 0 then i < bound else i > bound
    case NonStrict => if stride > 0 then i <= bound else i >= bound
    case Differs => i != bound
  }

  // The k-th test, counted from zero, lets the loop go on.
  predicate GoesOn(l: Loop, k: nat) {
    Passes(l.test, l.left + (if l.onStepped then k + 1 else k) * l.stride, l.bound, l.stride)
  }

  // The k-th test is the one that ends the loop.
  ghost predicate EndsAt(l: Loop, k: nat) {
    !GoesOn(l, k) && forall j: nat | j < k :: GoesOn(l, j)
  }

  // The loop makes n rounds: as many as there were tests passed, and one more if the test stands
  // behind the body.
  ghost predicate MakesRounds(l: Loop, n: int) {
    var tests := if l.inFront then n else n - 1;
    tests >= 0 && EndsAt(l, tests)
  }

  // A loop makes one number of rounds at most.
  lemma RoundsAreUnique(l: Loop, n: int, m: int)
    requires MakesRounds(l, n) && MakesRounds(l, m)
    ensures n == m
  {
    var tn: nat, tm: nat := if l.inFront then n else n - 1, if l.inFront then m else m - 1;
    assert tn < tm ==> GoesOn(l, tn);
    assert tm < tn ==> GoesOn(l, tm);
  }

  // What the count takes for the end of the loop: the constant, made up for the step if the
  // index is compared before it.
  function EndOf(l: Loop): int {
    if l.onStepped then l.bound else l.bound + l.stride
  }

  // The count of the loop, and the last value of its index.
  method LoopCount(l: Loop) returns (count: int, last: int)
    requires l.stride != 0
    ensures MakesRounds(l, count) <==> CountIsRight(l)
    ensures last == l.left + (count - 1) * l.stride
    ensures l.stride == 1 ==> count == EndOf(l) - l.left
    ensures l.stride == -1 ==> count == l.left - EndOf(l)
  {
    count, last := CountBetween(l.left, EndOf(l), l.stride);
    CountOfLoop(l, count);
  }

  // The truncated quotient, and one more if the stride does not divide.
  method CountBetween(left: int, right: int, stride: int) returns (count: int, last: int)
    requires stride != 0
    ensures count == Quot(right - left, stride) + if (right - left) % stride == 0 then 0 else 1
    ensures last == left + (count - 1) * stride
    ensures stride == 1 ==> count == right - left
    ensures stride == -1 ==> count == left - right
  {
    count := Quot(right - left, stride);
    last := count * stride + left;
    if stride == 1 || stride == -1 || (right - left) % stride == 0 {
      last := last - stride;
    } else {
      count := count + 1;
    }
  }

  // A loop that starts where it would end makes a round all the same, and the count is 0.
  method EndsWhereItStarts() returns (l: Loop, count: int)
    ensures l == Loop(5, 1, 5, Strict, true, false) && count == 0 && MakesRounds(l, 1) && !MakesRounds(l, count)
  {
    l := Loop(5, 1, 5, Strict, true, false);
    var last;
    count, last := LoopCount(l);
    assert !GoesOn(l, 0);
  }

  // From 0 to 10, tested in front on the index itself: ten rounds, and the count is 11.
  method TestedInFront() returns (l: Loop, count: int)
    ensures l == Loop(0, 1, 10, Strict, false, true) && count == 11 && MakesRounds(l, 10) && !MakesRounds(l, count)
  {
    l := Loop(0, 1, 10, Strict, false, true);
    var last;
    count, last := LoopCount(l);
    assert !GoesOn(l, 10);
  }

  // When the count is the number of rounds. A loop tested behind its body: it runs toward its end,
  // or stops less than a stride past it; with the bound let through, it must not meet the bound;
  // tested for being different, it must. One tested in front has a round less, so that only loops
  // that are at their end or between one and two strides past it are right.
  predicate CountIsRight(l: Loop)
    requires l.stride != 0
  {
    var d, s := Way(l), Stride(l);
    match l.test
    case Strict => if l.inFront then d == 0 || -2 * s < d < -s else d > 0 || -s < d < 0
    case NonStrict => if l.inFront then (d >= 0 && d % s == 0) || -2 * s < d < -s else d > -s && d % s != 0
    case Differs => !l.inFront && d > 0 && d % s == 0
  }

  // The stride, and how far the end is, in the direction of the loop.
  function Stride(l: Loop): int {
    if l.stride > 0 then l.stride else -l.stride
  }

  function Way(l: Loop): int {
    if l.stride > 0 then EndOf(l) - l.left else l.left - EndOf(l)
  }

  // A test, in steps from the start.
  predicate GoesFurther(test: Test, d: int, s: int, k: nat) {
    match test
    case Strict => (k + 1) * s < d
    case NonStrict => (k + 1) * s <= d
    case Differs => (k + 1) * s != d
  }

  lemma TestInSteps(l: Loop, k: nat)
    requires l.stride != 0
    ensures GoesOn(l, k) <==> GoesFurther(l.test, Way(l), Stride(l), k)
  {
    var x := (k + 1) * l.stride;
    assert k * l.stride == x - l.stride;
    assert l.stride < 0 ==> x == -((k + 1) * Stride(l));
  }

  ghost predicate EndsInSteps(test: Test, d: int, s: int, k: nat) {
    !GoesFurther(test, d, s, k) && forall j: nat | j < k :: GoesFurther(test, d, s, j)
  }

  lemma CountOfLoop(l: Loop, count: int)
    requires l.stride != 0
    requires count == Quot(EndOf(l) - l.left, l.stride) + if (EndOf(l) - l.left) % l.stride == 0 then 0 else 1
    ensures MakesRounds(l, count) <==> CountIsRight(l)
  {
    var d, s := Way(l), Stride(l);
    SameRemainder(EndOf(l) - l.left, l.stride, d, s);
    var tests := if l.inFront then count else count - 1;
    if tests >= 0 {
      forall k: nat
        ensures GoesOn(l, k) <==> GoesFurther(l.test, d, s, k)
      {
        TestInSteps(l, k);
      }
      assert EndsAt(l, tests) <==> EndsInSteps(l.test, d, s, tests);
    }
    match l.test
    case Strict => StrictCount(d, s, tests, l.inFront);
    case NonStrict => NonStrictCount(d, s, tests, l.inFront);
    case Differs => DiffersCount(d, s, tests, l.inFront);
  }

  // The count in terms of the quotient of what is to go and the stride.
  lemma CountValue(d: int, s: int)
    requires s > 0
    ensures d >= 0 ==> d == s * (d / s) + d % s && Rounds(d, s) == d / s + if d % s == 0 then 0 else 1
    ensures d < 0 && d % s == 0 ==> Rounds(d, s) <= -1
    ensures -s < d < 0 ==> Rounds(d, s) == 1 && d % s != 0
    ensures -2 * s < d < -s ==> Rounds(d, s) == 0
    ensures d <= -2 * s || d == -s ==> Rounds(d, s) < 0
  {
    Divided(d, s);
    if d < 0 {
      var q, r := -d / s, -d % s;
      Divided(-d, s);
      NegatedMultiple(d, s);
      MultiplesApart(s, q - 1);
      MultiplesApart(s, q - 2);
      MultiplesApart(s, q);
      assert s * (q - 1) == s * q - s && s * (q - 2) == s * q - 2 * s;
    }
  }

  function Rounds(d: int, s: int): int
    requires s > 0
  {
    Quot(d, s) + if d % s == 0 then 0 else 1
  }

  lemma SameRemainder(a: int, stride: int, d: int, s: int)
    requires stride != 0 && d == (if stride > 0 then a else -a) && s == if stride > 0 then stride else -stride
    ensures a % stride == 0 <==> d % s == 0
    ensures Quot(a, stride) == Quot(d, s)
  {
    if stride < 0 {
      assert a % stride == a % s;
      NegatedMultiple(a, s);
    }
  }

  lemma NegatedMultiple(a: int, s: int)
    requires s > 0
    ensures a % s == 0 <==> -a % s == 0
  {
    assert a == s * (a / s) + a % s && -a == s * (-a / s) + -a % s;
    if a % s == 0 {
      assert -a == s * -(a / s);
      DivUnique(-a, s, -(a / s));
    }
    if -a % s == 0 {
      assert a == s * -(-a / s);
      DivUnique(a, s, -(-a / s));
    }
  }

  // The first test that is not passed, of a strict comparison.
  lemma StrictEnd(d: int, s: int, k: nat)
    requires s > 0
    ensures EndsInSteps(Strict, d, s, k) <==> d <= s * (k + 1) && (k == 0 || s * k < d)
  {
    forall j: nat | j < k
      ensures s * k < d ==> GoesFurther(Strict, d, s, j)
    {
      MultiplesApart(s, k - (j + 1));
      assert s * (k - (j + 1)) == s * k - (j + 1) * s;
    }
    assert (k + 1) * s == s * (k + 1);
    if k > 0 {
      assert GoesFurther(Strict, d, s, k - 1) <==> s * k < d;
    }
  }

  lemma NonStrictEnd(d: int, s: int, k: nat)
    requires s > 0
    ensures EndsInSteps(NonStrict, d, s, k) <==> d < s * (k + 1) && (k == 0 || s * k <= d)
  {
    forall j: nat | j < k
      ensures s * k <= d ==> GoesFurther(NonStrict, d, s, j)
    {
      MultiplesApart(s, k - (j + 1));
      assert s * (k - (j + 1)) == s * k - (j + 1) * s;
    }
    assert (k + 1) * s == s * (k + 1);
    if k > 0 {
      assert GoesFurther(NonStrict, d, s, k - 1) <==> s * k <= d;
    }
  }

  lemma DiffersEnd(d: int, s: int, k: nat)
    requires s > 0
    ensures EndsInSteps(Differs, d, s, k) <==> d == s * (k + 1)
  {
    forall j: nat | j < k && d == s * (k + 1)
      ensures GoesFurther(Differs, d, s, j)
    {
      MultiplesApart(s, k - j);
      assert s * (k - j) == s * (k + 1) - (j + 1) * s;
    }
    assert (k + 1) * s == s * (k + 1);
  }

  lemma StrictCount(d: int, s: int, tests: int, inFront: bool)
    requires s > 0 && tests == if inFront then Rounds(d, s) else Rounds(d, s) - 1
    ensures tests >= 0 && EndsInSteps(Strict, d, s, tests) <==> if inFront then d == 0 || -2 * s < d < -s else d > 0 || -s < d < 0
  {
    CountValue(d, s);
    if tests >= 0 {
      StrictEnd(d, s, tests);
      AroundQuotient(d, s, tests);
    }
  }

  lemma NonStrictCount(d: int, s: int, tests: int, inFront: bool)
    requires s > 0 && tests == if inFront then Rounds(d, s) else Rounds(d, s) - 1
    ensures tests >= 0 && EndsInSteps(NonStrict, d, s, tests)
      <==> if inFront then (d >= 0 && d % s == 0) || -2 * s < d < -s else d > -s && d % s != 0
  {
    CountValue(d, s);
    if tests >= 0 {
      NonStrictEnd(d, s, tests);
      AroundQuotient(d, s, tests);
    }
  }

  lemma DiffersCount(d: int, s: int, tests: int, inFront: bool)
    requires s > 0 && tests == if inFront then Rounds(d, s) else Rounds(d, s) - 1
    ensures tests >= 0 && EndsInSteps(Differs, d, s, tests) <==> !inFront && d > 0 && d % s == 0
  {
    CountValue(d, s);
    if tests >= 0 {
      DiffersEnd(d, s, tests);
      AroundQuotient(d, s, tests);
    }
  }

  // Multiples of s near the quotient, and near zero.
  lemma AroundQuotient(d: int, s: int, k: nat)
    requires s > 0
    ensures s * (k + 1) == s * k + s && s * k >= 0 && (k > 0 ==> s * k >= s)
    ensures k == d / s - 1 ==> s * k == s * (d / s) - s
    ensures k == d / s + 1 ==> s * k == s * (d / s) + s
  {
    MultiplesApart(s, k);
  }

  // ----- the addresses of a nest

  // c addresses in place of each, s apart: the loop inside those that made bs.
  function Spread(bs: seq<int>, s: int, c: nat): seq<int> {
    if bs == [] then [] else seq(c, k => bs[0] + k * s) + Spread(bs[1..], s, c)
  }

  // What the loop nest visits, in order, starting from base.
  function Nest(base: int, strides: seq<int>, counts: seq<nat>): seq<int>
    requires |strides| == |counts|
  {
    if counts == [] then [base] else Spread(Nest(base, strides[1..], counts[1..]), strides[0], counts[0])
  }

  function Dot(idx: seq<nat>, strides: seq<int>): int
    requires |idx| == |strides|
  {
    if idx == [] then 0 else idx[0] * strides[0] + Dot(idx[1..], strides[1..])
  }

  function Product(counts: seq<nat>): nat {
    if counts == [] then 1 else counts[0] * Product(counts[1..])
  }

  // ----- the emitted pattern

  // What one sweep of the levels below has added up to when the level advances.
  function Swept(strides: seq<int>, counts: seq<nat>): int
    requires |strides| == |counts|
  {
    if counts == [] then 0 else (counts[0] - 1) * strides[0] + Swept(strides[1..], counts[1..])
  }

  lemma {:induction false} SweptMore(strides: seq<int>, counts: seq<nat>, s: int, c: nat)
    requires |strides| == |counts|
    ensures Swept(strides + [s], counts + [c]) == Swept(strides, counts) + (c - 1) * s
  {
    if counts == [] {
      assert (strides + [s])[1..] == [] && (counts + [c])[1..] == [];
    } else {
      assert (strides + [s])[1..] == strides[1..] + [s] && (counts + [c])[1..] == counts[1..] + [c];
      SweptMore(strides[1..], counts[1..], s, c);
    }
  }

  // The stride of each level, less what the levels below have added.
  ghost predicate IsPattern(pattern: seq<(int, nat)>, strides: seq<int>, counts: seq<nat>) {
    && |pattern| == |strides| == |counts|
    && forall i | 0 <= i < |pattern| :: pattern[i] == (strides[i] - Swept(strides[..i], counts[..i]), counts[i])
  }

  method EmitPattern(strides: seq<int>, counts: seq<nat>) returns (pattern: seq<(int, nat)>)
    requires |strides| == |counts|
    ensures IsPattern(pattern, strides, counts)
  {
    pattern := [];
    var resetstride := 0;
    for i := 0 to |strides|
      invariant |pattern| == i && resetstride == Swept(strides[..i], counts[..i])
      invariant forall k | 0 <= k < i :: pattern[k] == (strides[k] - Swept(strides[..k], counts[..k]), counts[k])
    {
      pattern := pattern + [(strides[i] - resetstride, counts[i])];
      SweptMore(strides[..i], counts[..i], strides[i], counts[i]);
      assert strides[..i + 1] == strides[..i] + [strides[i]] && counts[..i + 1] == counts[..i] + [counts[i]];
      resetstride := resetstride + (counts[i] - 1) * strides[i];
    }
  }

  // ----- the generator

  ghost predicate IsIndex(idx: seq<nat>, counts: seq<nat>) {
    |idx| == |counts| && forall i | 0 <= i < |idx| :: idx[i] < counts[i]
  }

  // How many steps lead to the index.
  function Steps(idx: seq<nat>, counts: seq<nat>): nat
    requires |idx| == |counts|
  {
    if idx == [] then 0 else idx[0] + counts[0] * Steps(idx[1..], counts[1..])
  }

  // The levels below i stand at their ends.
  ghost predicate AtEnd(idx: seq<nat>, counts: seq<nat>, i: nat) {
    i <= |idx| == |counts| && forall k | 0 <= k < i :: idx[k] + 1 == counts[k]
  }

  function Zeros(n: nat): seq<nat> { seq(n, k => 0) }

  lemma {:induction false} DotSplit(idx: seq<nat>, strides: seq<int>, i: nat)
    requires |idx| == |strides| && i <= |idx|
    ensures Dot(idx, strides) == Dot(idx[..i], strides[..i]) + Dot(idx[i..], strides[i..])
  {
    if i == 0 {
      assert idx[0..] == idx && strides[0..] == strides;
    } else {
      DotSplit(idx[1..], strides[1..], i - 1);
      assert idx[..i][1..] == idx[1..][..i - 1] && strides[..i][1..] == strides[1..][..i - 1];
      assert idx[1..][i - 1..] == idx[i..] && strides[1..][i - 1..] == strides[i..];
    }
  }

  lemma {:induction false} DotAtEnd(idx: seq<nat>, strides: seq<int>, counts: seq<nat>)
    requires |idx| == |strides| && AtEnd(idx, counts, |idx|)
    ensures Dot(idx, strides) == Swept(strides, counts)
  {
    if idx != [] {
      assert AtEnd(idx[1..], counts[1..], |idx[1..]|) by {
        assert forall k | 0 <= k < |idx[1..]| :: idx[1..][k] == idx[k + 1] && counts[1..][k] == counts[k + 1];
      }
      DotAtEnd(idx[1..], strides[1..], counts[1..]);
    }
  }

  lemma {:induction false} DotZeros(n: nat, strides: seq<int>)
    requires n == |strides|
    ensures Dot(Zeros(n), strides) == 0
  {
    if n > 0 {
      assert Zeros(n)[1..] == Zeros(n - 1);
      DotZeros(n - 1, strides[1..]);
    }
  }

  // Level i advances, and those below start again.
  function Advance(idx: seq<nat>, i: nat): seq<nat>
    requires i < |idx|
  {
    Zeros(i) + [idx[i] + 1] + idx[i + 1..]
  }

  // The emitted stride of the level is just what the address grows by.
  lemma AdvanceAdds(idx: seq<nat>, strides: seq<int>, counts: seq<nat>, i: nat)
    requires |idx| == |strides| == |counts| && i < |idx| && AtEnd(idx, counts, i)
    ensures Dot(Advance(idx, i), strides) == Dot(idx, strides) + strides[i] - Swept(strides[..i], counts[..i])
  {
    var idx' := Advance(idx, i);
    DotSplit(idx, strides, i);
    DotSplit(idx', strides, i);
    assert idx'[..i] == Zeros(i) && idx'[i..] == [idx[i] + 1] + idx[i + 1..] && idx[i..] == [idx[i]] + idx[i + 1..];
    assert AtEnd(idx[..i], counts[..i], |idx[..i]|);
    DotAtEnd(idx[..i], strides[..i], counts[..i]);
    DotZeros(i, strides[..i]);
    DotHead(idx[i], idx[i + 1..], strides[i..]);
  }

  lemma DotHead(x: nat, rest: seq<nat>, strides: seq<int>)
    requires |strides| == |rest| + 1
    ensures Dot([x + 1] + rest, strides) == Dot([x] + rest, strides) + strides[0]
  {
    assert ([x + 1] + rest)[1..] == rest && ([x] + rest)[1..] == rest;
    assert (x + 1) * strides[0] == x * strides[0] + strides[0];
  }

  // It is the next index of the nest.
  lemma {:induction false} AdvanceIsNext(idx: seq<nat>, counts: seq<nat>, i: nat)
    requires IsIndex(idx, counts) && i < |idx| && AtEnd(idx, counts, i)
    ensures Steps(Advance(idx, i), counts) == Steps(idx, counts) + 1
  {
    if i == 0 {
      assert Advance(idx, 0) == [idx[0] + 1] + idx[1..];
    } else {
      AdvanceAbove(idx, i);
      assert AtEnd(idx[1..], counts[1..], i - 1);
      AdvanceIsNext(idx[1..], counts[1..], i - 1);
      OneStepMore(counts[0], Steps(idx[1..], counts[1..]));
    }
  }

  // Level 0 starts again when a level above it advances.
  lemma AdvanceAbove(idx: seq<nat>, i: nat)
    requires 0 < i < |idx|
    ensures Advance(idx, i)[0] == 0 && Advance(idx, i)[1..] == Advance(idx[1..], i - 1)
  {}

  lemma OneStepMore(c: nat, n: nat)
    ensures c * (n + 1) == c * n + c
  {}

  lemma {:induction false} StepsBelow(idx: seq<nat>, counts: seq<nat>)
    requires IsIndex(idx, counts)
    ensures Steps(idx, counts) < Product(counts)
    ensures AtEnd(idx, counts, |idx|) <==> Steps(idx, counts) + 1 == Product(counts)
  {
    if idx != [] {
      StepsBelow(idx[1..], counts[1..]);
      DigitBelow(idx[0], counts[0], Steps(idx[1..], counts[1..]), Product(counts[1..]));
      EndsTogether(idx, counts);
    }
  }

  lemma DigitBelow(x: nat, c: nat, n: nat, p: nat)
    requires x < c && n < p
    ensures x + c * n < c * p
    ensures x + c * n + 1 == c * p <==> x + 1 == c && n + 1 == p
  {
    var d := p - n - 1;
    assert c * p == c * n + c + c * d;
    MultiplesApart(c, d);
  }

  lemma EndsTogether(idx: seq<nat>, counts: seq<nat>)
    requires IsIndex(idx, counts) && idx != []
    ensures AtEnd(idx, counts, |idx|) <==> idx[0] + 1 == counts[0] && AtEnd(idx[1..], counts[1..], |idx[1..]|)
  {
    assert forall k | 0 <= k < |idx[1..]| :: idx[1..][k] == idx[k + 1] && counts[1..][k] == counts[k + 1];
  }

  lemma {:induction false} SpreadAt(bs: seq<int>, s: int, c: nat, j: nat, k: nat)
    requires j < |bs| && k < c
    ensures |Spread(bs, s, c)| == c * |bs| && k + c * j < c * |bs|
    ensures Spread(bs, s, c)[k + c * j] == bs[j] + k * s
  {
    SpreadLength(bs, s, c);
    if j == 0 {
      assert c * |bs| >= c;
    } else {
      SpreadAt(bs[1..], s, c, j - 1, k);
      assert c * j == c * (j - 1) + c && c * |bs| == c * |bs[1..]| + c;
      assert Spread(bs, s, c)[k + c * j] == Spread(bs[1..], s, c)[k + c * (j - 1)];
    }
  }

  lemma {:induction false} SpreadLength(bs: seq<int>, s: int, c: nat)
    ensures |Spread(bs, s, c)| == c * |bs|
  {
    if bs != [] {
      SpreadLength(bs[1..], s, c);
      assert c * |bs| == c * |bs[1..]| + c;
    }
  }

  // The nest visits start plus the sum of index times stride.
  lemma {:induction false} NestAt(base: int, strides: seq<int>, counts: seq<nat>, idx: seq<nat>)
    requires |strides| == |counts| && IsIndex(idx, counts)
    ensures |Nest(base, strides, counts)| == Product(counts) && Steps(idx, counts) < Product(counts)
    ensures Nest(base, strides, counts)[Steps(idx, counts)] == base + Dot(idx, strides)
  {
    if idx != [] {
      NestAt(base, strides[1..], counts[1..], idx[1..]);
      SpreadAt(Nest(base, strides[1..], counts[1..]), strides[0], counts[0], Steps(idx[1..], counts[1..]), idx[0]);
    }
  }

  // Runs through the pattern: on each step the lowest level that is not at its end advances and
  // its emitted stride is added. The addresses are those that the nest visits, in its order.
  method Generate(start: int, pattern: seq<(int, nat)>, ghost strides: seq<int>, ghost counts: seq<nat>) returns (addrs: seq<int>)
    requires IsPattern(pattern, strides, counts) && forall i | 0 <= i < |counts| :: counts[i] > 0
    ensures addrs == Nest(start, strides, counts)
  {
    var idx, addr := Zeros(|pattern|), start;
    addrs := [addr];
    DotZeros(|pattern|, strides);
    StepsOfZeros(counts);
    StepsBelow(idx, counts);
    NestAt(start, strides, counts, idx);
    var i: nat := FirstToAdvance(idx, pattern, counts);
    while i < |pattern|
      invariant IsIndex(idx, counts) && AtEnd(idx, counts, i) && (i < |pattern| ==> idx[i] + 1 < counts[i])
      invariant addr == start + Dot(idx, strides)
      invariant |addrs| == Steps(idx, counts) + 1 <= Product(counts) == |Nest(start, strides, counts)|
      invariant forall k | 0 <= k < |addrs| :: addrs[k] == Nest(start, strides, counts)[k]
      decreases Product(counts) - |addrs|
    {
      AdvanceAdds(idx, strides, counts, i);
      AdvanceIsNext(idx, counts, i);
      idx := Advance(idx, i);
      addr := addr + pattern[i].0;
      NestAt(start, strides, counts, idx);
      addrs := addrs + [addr];
      i := FirstToAdvance(idx, pattern, counts);
    }
    StepsBelow(idx, counts);
  }

  lemma {:induction false} StepsOfZeros(counts: seq<nat>)
    ensures Steps(Zeros(|counts|), counts) == 0
  {
    if counts != [] {
      assert Zeros(|counts|)[1..] == Zeros(|counts[1..]|);
      StepsOfZeros(counts[1..]);
    }
  }

  method FirstToAdvance(idx: seq<nat>, pattern: seq<(int, nat)>, ghost counts: seq<nat>) returns (i: nat)
    requires IsIndex(idx, counts) && |pattern| == |idx| && forall k | 0 <= k < |pattern| :: pattern[k].1 == counts[k]
    ensures AtEnd(idx, counts, i) && (i < |idx| ==> idx[i] + 1 < counts[i])
  {
    i := 0;
    while i < |idx| && idx[i] + 1 == pattern[i].1
      invariant AtEnd(idx, counts, i)
    {
      i := i + 1;
    }
  }
}
