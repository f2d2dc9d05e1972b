/**
 The mixed-radix counter behind recipe expansion (bedrock/recipes.go): one digit
 per group of alternatives, the last digit fastest.
 */
module Odometer {
  import opened Options

  predicate ValidSizes(sizes: seq<nat>) {
    forall i :: 0 <= i < |sizes| ==> sizes[i] >= 1
  }

  predicate ValidDigits(sizes: seq<nat>, digits: seq<nat>) {
    |digits| == |sizes| && forall i :: 0 <= i < |sizes| ==> digits[i] < sizes[i]
  }

  function Product(sizes: seq<nat>): nat {
    if sizes == [] then 1 else Product(sizes[..|sizes| - 1]) * sizes[|sizes| - 1]
  }

  function Value(sizes: seq<nat>, digits: seq<nat>): nat
    requires |digits| == |sizes|
  {
    if sizes == [] then 0
    else
      var n := |sizes| - 1;
      Value(sizes[..n], digits[..n]) * sizes[n] + digits[n]
  }

  /** The next selection, or none after the last one. */
  function Next(sizes: seq<nat>, digits: seq<nat>): Option<seq<nat>>
    requires |digits| == |sizes|
  {
    if sizes == [] then None
    else
      var n := |sizes| - 1;
      if digits[n] + 1 < sizes[n] then Some(digits[..n] + [digits[n] + 1])
      else match Next(sizes[..n], digits[..n])
        case None => None
        case Some(front) => Some(front + [0])
  }

  predicate LexLess(a: seq<nat>, b: seq<nat>)
    requires |a| == |b|
  {
    exists i :: 0 <= i < |a| && a[..i] == b[..i] && a[i] < b[i]
  }

  lemma {:induction false} ValueBelowProduct(sizes: seq<nat>, digits: seq<nat>)
    requires ValidDigits(sizes, digits)
    ensures Value(sizes, digits) < Product(sizes)
  {
    if sizes != [] {
      var n := |sizes| - 1;
      ValueBelowProduct(sizes[..n], digits[..n]);
      var front, s := Value(sizes[..n], digits[..n]), sizes[n];
      StepUp(front, Product(sizes[..n]), s);
    }
  }

  lemma {:induction false} StepUp(a: nat, b: nat, s: nat)
    requires a < b
    ensures a * s + s <= b * s
  {
    if b == a + 1 {
      assert (a + 1) * s == a * s + s;
    } else {
      StepUp(a, b - 1, s);
      assert b * s == (b - 1) * s + s;
    }
  }

  /** Advancing adds one, and stops exactly at the last selection. */
  lemma {:induction false} NextAddsOne(sizes: seq<nat>, digits: seq<nat>)
    requires ValidSizes(sizes) && ValidDigits(sizes, digits)
    ensures match Next(sizes, digits)
            case None => Value(sizes, digits) + 1 == Product(sizes)
            case Some(next) => ValidDigits(sizes, next) && Value(sizes, next) == Value(sizes, digits) + 1
  {
    if sizes != [] {
      var n := |sizes| - 1;
      var s := sizes[n];
      if digits[n] + 1 < s {
        var next := digits[..n] + [digits[n] + 1];
        assert next[..n] == digits[..n];
      } else {
        NextAddsOne(sizes[..n], digits[..n]);
        var front := Value(sizes[..n], digits[..n]);
        assert front * s + s == (front + 1) * s;
        match Next(sizes[..n], digits[..n]) {
          case None =>
          case Some(f) => assert (f + [0])[..n] == f;
        }
      }
    }
  }

  /** The value order is the lexicographic order. */
  lemma {:induction false} LexLessIsValueLess(sizes: seq<nat>, a: seq<nat>, b: seq<nat>)
    requires ValidDigits(sizes, a) && ValidDigits(sizes, b) && LexLess(a, b)
    ensures Value(sizes, a) < Value(sizes, b)
  {
    var n := |sizes| - 1;
    var i :| 0 <= i < |a| && a[..i] == b[..i] && a[i] < b[i];
    if i == n {
    } else {
      var fa, fb := a[..n], b[..n];
      assert fa[..i] == a[..i] && fb[..i] == b[..i];
      assert LexLess(fa, fb);
      LexLessIsValueLess(sizes[..n], fa, fb);
      StepUp(Value(sizes[..n], fa), Value(sizes[..n], fb), sizes[n]);
    }
  }

  lemma {:induction false} LexIsTotal(a: seq<nat>, b: seq<nat>)
    requires |a| == |b|
    ensures a == b || LexLess(a, b) || LexLess(b, a)
  {
    if a != [] {
      var n := |a| - 1;
      LexIsTotal(a[..n], b[..n]);
      if a[..n] == b[..n] {
        assert a == a[..n] + [a[n]] && b == b[..n] + [b[n]];
      } else if LexLess(a[..n], b[..n]) {
        LexExtends(a, b, n);
      } else {
        LexExtends(b, a, n);
      }
    }
  }

  lemma LexExtends(a: seq<nat>, b: seq<nat>, n: nat)
    requires |a| == |b| && n <= |a| && LexLess(a[..n], b[..n])
    ensures LexLess(a, b)
  {
    var i :| 0 <= i < n && a[..n][..i] == b[..n][..i] && a[..n][i] < b[..n][i];
    assert a[..n][..i] == a[..i] && b[..n][..i] == b[..i];
  }

  // ----- a complete sweep

  /** All selections from the first on, in counting order. */
  predicate Counted(sizes: seq<nat>, visited: seq<seq<nat>>) {
    forall k :: 0 <= k < |visited| ==> ValidDigits(sizes, visited[k]) && Value(sizes, visited[k]) == k
  }

  /** A sweep over the whole product visits every selection exactly once, in lexicographic order. */
  lemma {:induction false} SweepIsComplete(sizes: seq<nat>, visited: seq<seq<nat>>, digits: seq<nat>)
    requires Counted(sizes, visited) && |visited| == Product(sizes)
    requires ValidDigits(sizes, digits)
    ensures Value(sizes, digits) < |visited| && visited[Value(sizes, digits)] == digits
    ensures forall k :: 0 <= k < |visited| && visited[k] == digits ==> k == Value(sizes, digits)
    ensures forall j, k :: 0 <= j < k < |visited| ==> LexLess(visited[j], visited[k])
  {
    ValueBelowProduct(sizes, digits);
    var found := visited[Value(sizes, digits)];
    SameValueSameDigits(sizes, found, digits);
    forall j, k | 0 <= j < k < |visited| ensures LexLess(visited[j], visited[k]) {
      LexIsTotal(visited[j], visited[k]);
      if LexLess(visited[k], visited[j]) { LexLessIsValueLess(sizes, visited[k], visited[j]); }
    }
  }

  lemma SameValueSameDigits(sizes: seq<nat>, a: seq<nat>, b: seq<nat>)
    requires ValidDigits(sizes, a) && ValidDigits(sizes, b) && Value(sizes, a) == Value(sizes, b)
    ensures a == b
  {
    LexIsTotal(a, b);
    if LexLess(a, b) { LexLessIsValueLess(sizes, a, b); }
    if LexLess(b, a) { LexLessIsValueLess(sizes, b, a); }
  }

  function Zeros(n: nat): seq<nat> {
    seq(n, i => 0)
  }

  lemma {:induction false} ZerosAreFirst(sizes: seq<nat>)
    requires ValidSizes(sizes)
    ensures ValidDigits(sizes, Zeros(|sizes|)) && Value(sizes, Zeros(|sizes|)) == 0
  {
    if sizes != [] {
      var n := |sizes| - 1;
      ZerosAreFirst(sizes[..n]);
      assert Zeros(|sizes|)[..n] == Zeros(n);
    }
  }

  /** A carry out of the last digits leaves zeros behind. */
  lemma {:induction false} CarryLeavesZeros(sizes: seq<nat>, digits: seq<nat>, g: nat)
    requires ValidDigits(sizes, digits) && g <= |sizes|
    requires forall i :: g <= i < |sizes| ==> digits[i] + 1 == sizes[i]
    ensures Next(sizes, digits) ==
            match Next(sizes[..g], digits[..g])
            case None => None
            case Some(front) => Some(front + Zeros(|sizes| - g))
  {
    var n := |sizes| - 1;
    if g == |sizes| {
      assert sizes[..g] == sizes && digits[..g] == digits;
      match Next(sizes, digits)
      case None =>
      case Some(front) => assert front + Zeros(0) == front;
    } else {
      CarryLeavesZeros(sizes[..n], digits[..n], g);
      assert sizes[..n][..g] == sizes[..g] && digits[..n][..g] == digits[..g];
      match Next(sizes[..g], digits[..g])
      case None =>
      case Some(front) =>
        assert front + Zeros(n - g) + [0] == front + Zeros(|sizes| - g);
    }
  }

  /** A digit with room takes the carry. */
  lemma NextCarries(sizes: seq<nat>, digits: seq<nat>, group: nat)
    requires ValidDigits(sizes, digits) && group < |sizes| && digits[group] + 1 < sizes[group]
    requires forall i :: group < i < |sizes| ==> digits[i] + 1 == sizes[i]
    ensures Next(sizes, digits) == Some((digits[..group] + [digits[group] + 1]) + Zeros(|sizes| - (group + 1)))
  {
    var g := group + 1;
    CarryLeavesZeros(sizes, digits, g);
    assert sizes[..g][..group] == sizes[..group] && digits[..g][..group] == digits[..group];
  }

  /** Advances the counter in place; `done` when the last selection was passed. */
  method Advance(selected: array<nat>, sizes: seq<nat>) returns (done: bool)
    requires ValidDigits(sizes, selected[..])
    modifies selected
    ensures done <==> Next(sizes, old(selected[..])).None?
    ensures !done ==> Some(selected[..]) == Next(sizes, old(selected[..]))
  {
    ghost var start := selected[..];
    var group: int := |sizes| - 1;
    while group >= 0
      invariant -1 <= group < |sizes|
      invariant selected[..] == start[..group + 1] + Zeros(|sizes| - (group + 1))
      invariant forall i :: group < i < |sizes| ==> start[i] + 1 == sizes[i]
      decreases group
    {
      assert selected[group] == start[group];
      selected[group] := selected[group] + 1;
      if selected[group] < sizes[group] {
        NextCarries(sizes, start, group);
        assert selected[..] == (start[..group] + [start[group] + 1]) + Zeros(|sizes| - (group + 1));
        return false;
      }
      selected[group] := 0;
      assert selected[..] == start[..group] + Zeros(|sizes| - group);
      group := group - 1;
    }
    CarryLeavesZeros(sizes, start, 0);
    assert sizes[..0] == [] && start[..0] == [];
    done := true;
  }
}
