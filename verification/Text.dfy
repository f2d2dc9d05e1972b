/**
 Strings as the adapter uses them: the lexicographic order, sorting, lists
 written with NUL separators, and decimal numbers.
 */
module Text {
  // ----- lexicographic order

  predicate Less(a: string, b: string) {
    b != [] && (a == [] || a[0] < b[0] || (a[0] == b[0] && Less(a[1..], b[1..])))
  }

  predicate AtMost(a: string, b: string) {
    a == b || Less(a, b)
  }

  lemma {:induction false} LessIsTotal(a: string, b: string)
    ensures a == b || Less(a, b) || Less(b, a)
    ensures !(Less(a, b) && Less(b, a))
    ensures !Less(a, a)
  {
    if a != [] {
      LessIsTotal(a[1..], a[1..]);
      if b != [] {
        LessIsTotal(a[1..], b[1..]);
        if a[0] == b[0] && a[1..] == b[1..] {
          assert a == [a[0]] + a[1..] && b == [b[0]] + b[1..];
        }
      }
    }
  }

  lemma {:induction false} LessIsTransitive(a: string, b: string, c: string)
    requires Less(a, b) && Less(b, c)
    ensures Less(a, c)
  {
    if a != [] && a[0] == b[0] && b[0] == c[0] {
      LessIsTransitive(a[1..], b[1..], c[1..]);
    }
  }

  /** The first difference decides, and a beginning comes before the whole. */
  lemma {:induction false} FirstDifferenceDecides(a: string, b: string, n: nat)
    requires n <= |a| && n <= |b| && a[..n] == b[..n]
    ensures n == |a| < |b| ==> Less(a, b)
    ensures n < |a| && n < |b| && a[n] < b[n] ==> Less(a, b)
  {
    if n > 0 {
      assert a[0] == a[..n][0] && b[0] == b[..n][0];
      assert a[1..][..n - 1] == a[..n][1..] && b[1..][..n - 1] == b[..n][1..];
      FirstDifferenceDecides(a[1..], b[1..], n - 1);
    }
  }

  // ----- sorting

  predicate Ordered(list: seq<string>) {
    forall i, j :: 0 <= i < j < |list| ==> AtMost(list[i], list[j])
  }

  function Insert(list: seq<string>, s: string): seq<string> {
    if list == [] then [s]
    else if AtMost(s, list[0]) then [s] + list
    else [list[0]] + Insert(list[1..], s)
  }

  function Sorted(list: seq<string>): seq<string> {
    if list == [] then [] else Insert(Sorted(list[1..]), list[0])
  }

  lemma {:induction false} InsertContains(list: seq<string>, s: string)
    ensures multiset(Insert(list, s)) == multiset(list) + multiset{s}
    ensures forall x :: x in Insert(list, s) <==> x == s || x in list
  {
    if list != [] && !AtMost(s, list[0]) {
      InsertContains(list[1..], s);
      assert list == [list[0]] + list[1..];
    }
  }

  lemma {:induction false} InsertKeepsOrder(list: seq<string>, s: string)
    requires Ordered(list)
    ensures Ordered(Insert(list, s))
  {
    if list == [] {
    } else if AtMost(s, list[0]) {
      forall j | 0 <= j < |list| ensures AtMost(s, list[j]) {
        HeadIsLeast(list, list[j]);
        if s != list[0] && list[0] != list[j] { LessIsTransitive(s, list[0], list[j]); }
      }
    } else {
      LessIsTotal(s, list[0]);
      var rest := Insert(list[1..], s);
      InsertKeepsOrder(list[1..], s);
      InsertContains(list[1..], s);
      forall j | 0 <= j < |rest| ensures AtMost(list[0], rest[j]) {
        assert rest[j] in rest;
        if rest[j] != s { HeadIsLeast(list, rest[j]); }
      }
    }
  }

  lemma HeadIsLeast(list: seq<string>, x: string)
    requires Ordered(list) && x in list
    ensures AtMost(list[0], x)
  {
    var k :| 0 <= k < |list| && list[k] == x;
  }

  lemma {:induction false} SortedSorts(list: seq<string>)
    ensures Ordered(Sorted(list)) && multiset(Sorted(list)) == multiset(list)
  {
    if list != [] {
      SortedSorts(list[1..]);
      InsertKeepsOrder(Sorted(list[1..]), list[0]);
      InsertContains(Sorted(list[1..]), list[0]);
      assert list == [list[0]] + list[1..];
    }
  }

  /** An ordered list is determined by what it contains. */
  lemma {:induction false} OrderedIsUnique(a: seq<string>, b: seq<string>)
    requires Ordered(a) && Ordered(b) && multiset(a) == multiset(b)
    ensures a == b
  {
    assert |a| == |multiset(a)| == |multiset(b)| == |b|;
    if a != [] {
      SameHead(a, b);
      assert a == [a[0]] + a[1..] && b == [b[0]] + b[1..];
      TailIsTheRest(a);
      TailIsTheRest(b);
      OrderedIsUnique(a[1..], b[1..]);
    }
  }

  lemma TailIsTheRest(list: seq<string>)
    requires list != []
    ensures multiset(list[1..]) == multiset(list) - multiset{list[0]}
    ensures Ordered(list) ==> Ordered(list[1..])
  {
    assert list == [list[0]] + list[1..];
  }

  lemma SameHead(a: seq<string>, b: seq<string>)
    requires a != [] && b != []
    requires Ordered(a) && Ordered(b) && multiset(a) == multiset(b)
    ensures a[0] == b[0]
  {
    assert a[0] in multiset(b) && b[0] in multiset(a);
    HeadIsLeast(a, b[0]);
    HeadIsLeast(b, a[0]);
    LessIsTotal(a[0], b[0]);
  }

  // ----- NUL-terminated and NUL-separated lists

  const NUL := '\0'

  predicate NulFree(s: string) {
    NUL !in s
  }

  predicate AllNulFree(list: seq<string>) {
    forall i :: 0 <= i < |list| ==> NulFree(list[i])
  }

  /** Every part followed by a NUL. */
  function Terminated(list: seq<string>): string {
    if list == [] then [] else list[0] + [NUL] + Terminated(list[1..])
  }

  /** A NUL between neighbouring parts. */
  function Separated(list: seq<string>): string {
    if list == [] then []
    else if |list| == 1 then list[0]
    else list[0] + [NUL] + Separated(list[1..])
  }

  lemma NoNulInside(s: string)
    requires NulFree(s)
    ensures forall k :: 0 <= k < |s| ==> s[k] != NUL
  {
    forall k | 0 <= k < |s| ensures s[k] != NUL {
      assert s[k] in s;
    }
  }

  /** The first NUL ends the first part. */
  lemma FirstPartIsUnique(x: string, u: string, y: string, v: string)
    requires NulFree(x) && NulFree(y) && x + [NUL] + u == y + [NUL] + v
    ensures x == y && u == v
  {
    NoNulInside(x);
    NoNulInside(y);
    var whole := x + [NUL] + u;
    assert whole == y + [NUL] + v;
    assert whole[|x|] == NUL && whole[|y|] == NUL;
    assert |x| == |y|;
    assert x == whole[..|x|] == y;
    assert u == whole[|x| + 1..] == v;
  }

  lemma {:induction false} TerminatedIsInjective(a: seq<string>, b: seq<string>)
    requires AllNulFree(a) && AllNulFree(b) && Terminated(a) == Terminated(b)
    ensures a == b
  {
    if a != [] && b != [] {
      FirstPartIsUnique(a[0], Terminated(a[1..]), b[0], Terminated(b[1..]));
      TerminatedIsInjective(a[1..], b[1..]);
      assert a == [a[0]] + a[1..] && b == [b[0]] + b[1..];
    }
  }

  lemma {:induction false} SeparatedThenTerminated(list: seq<string>)
    requires list != []
    ensures Separated(list) + [NUL] == Terminated(list)
  {
    if |list| == 1 {
      assert Terminated(list[1..]) == [];
    } else {
      SeparatedThenTerminated(list[1..]);
      assert Separated(list) + [NUL] == list[0] + [NUL] + (Separated(list[1..]) + [NUL]);
    }
  }

  lemma SeparatedIsInjective(a: seq<string>, b: seq<string>)
    requires a != [] && b != []
    requires AllNulFree(a) && AllNulFree(b) && Separated(a) == Separated(b)
    ensures a == b
  {
    SeparatedThenTerminated(a);
    SeparatedThenTerminated(b);
    TerminatedIsInjective(a, b);
  }

  // ----- decimal numbers

  function Digit(d: nat): char
    requires d < 10
  {
    "0123456789"[d]
  }

  function Decimal(n: nat): string {
    if n < 10 then [Digit(n)] else Decimal(n / 10) + [Digit(n % 10)]
  }

  lemma {:induction false} DecimalIsInjective(a: nat, b: nat)
    requires Decimal(a) == Decimal(b)
    ensures a == b
  {
    DecimalSplits(a);
    DecimalSplits(b);
    DigitIsInjective(a % 10, b % 10);
    if a >= 10 && b >= 10 { DecimalIsInjective(a / 10, b / 10); }
  }

  /** A number prints its last digit last, and what is before it first. */
  lemma DecimalSplits(n: nat)
    ensures var s := Decimal(n);
            && s != [] && s[|s| - 1] == Digit(n % 10)
            && (if n < 10 then |s| == 1 else |s| > 1 && s[..|s| - 1] == Decimal(n / 10))
  {
    if n >= 10 {
      var front := Decimal(n / 10);
      assert Decimal(n) == front + [Digit(n % 10)];
    }
  }

  lemma DigitIsInjective(a: nat, b: nat)
    requires a < 10 && b < 10 && Digit(a) == Digit(b)
    ensures a == b
  {
  }
}
