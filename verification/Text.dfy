/** Text as the program compares, sorts, joins and prints it. */
module Text {

  function Max(a: nat, b: nat): nat { if a < b then b else a }

  // ---- Order ---------------------------------------------------------------

  /** The order Rust gives strings: by UTF-8 bytes, which is by code points. */
  predicate Less(a: string, b: string) {
    b != "" && (a == "" || a[0] < b[0] || (a[0] == b[0] && Less(a[1..], b[1..])))
  }

  lemma {:induction false} LessTransitive(a: string, b: string, c: string)
    requires Less(a, b) && Less(b, c)
    ensures Less(a, c)
  {
    if a != "" && a[0] == b[0] && b[0] == c[0] {
      LessTransitive(a[1..], b[1..], c[1..]);
    }
  }

  lemma {:induction false} LessIrreflexive(a: string)
    ensures !Less(a, a)
  {
    if a != "" { LessIrreflexive(a[1..]); }
  }

  lemma LessAsymmetric(a: string, b: string)
    requires Less(a, b)
    ensures !Less(b, a) && a != b
  {
    if Less(b, a) { LessTransitive(a, b, a); }
    LessIrreflexive(a);
  }

  lemma {:induction false} LessTotal(a: string, b: string)
    ensures a == b || Less(a, b) || Less(b, a)
  {
    if a != "" && b != "" && a[0] == b[0] {
      LessTotal(a[1..], b[1..]);
      assert a == [a[0]] + a[1..] && b == [b[0]] + b[1..];
    }
  }

  /** A shared prefix does not take part in a comparison. */
  lemma {:induction false} LessAfter(p: string, a: string, b: string)
    ensures Less(p + a, p + b) <==> Less(a, b)
  {
    if p == "" {
      assert p + a == a && p + b == b;
    } else {
      LessAfter(p[1..], a, b);
      assert (p + a)[1..] == p[1..] + a && (p + b)[1..] == p[1..] + b;
    }
  }

  // ---- Sorting -------------------------------------------------------------

  /** No later element comes strictly before an earlier one. */
  ghost predicate Sorted<T>(less: (T, T) -> bool, s: seq<T>) {
    forall i, j :: 0 <= i < j < |s| ==> !less(s[j], s[i])
  }

  /** Each element comes strictly before every later one. */
  ghost predicate Ascending<T>(less: (T, T) -> bool, s: seq<T>) {
    forall i, j :: 0 <= i < j < |s| ==> less(s[i], s[j])
  }

  ghost predicate Asymmetric<T(!new)>(less: (T, T) -> bool) {
    forall x, y :: less(x, y) ==> !less(y, x)
  }

  /** `less` orders things by a rank that is itself weakly ordered. */
  ghost predicate WeakOrder<T(!new)>(less: (T, T) -> bool) {
    && Asymmetric(less)
    && forall x, y, z :: !less(y, x) && !less(z, y) ==> !less(z, x)
  }

  /** Any two different elements are comparable. */
  ghost predicate Separates<T>(less: (T, T) -> bool, s: seq<T>) {
    forall x, y :: x in s && y in s && x != y ==> less(x, y) || less(y, x)
  }

  function Insert<T>(less: (T, T) -> bool, x: T, s: seq<T>): (r: seq<T>)
    ensures multiset(r) == multiset(s) + multiset{x}
  {
    if s == [] || !less(s[0], x) then [x] + s
    else
      assert s == [s[0]] + s[1..];
      [s[0]] + Insert(less, x, s[1..])
  }

  lemma HeadAndTail<T>(s: seq<T>)
    requires s != []
    ensures multiset(s) == multiset{s[0]} + multiset(s[1..])
    ensures multiset(s[1..]) == multiset(s) - multiset{s[0]}
  {
    assert s == [s[0]] + s[1..];
  }

  /** The standard library's stable sort. */
  function Sort<T>(less: (T, T) -> bool, s: seq<T>): (r: seq<T>)
    ensures multiset(r) == multiset(s)
  {
    if s == [] then []
    else
      HeadAndTail(s);
      Insert(less, s[0], Sort(less, s[1..]))
  }

  lemma SameLength<T>(a: seq<T>, b: seq<T>)
    requires multiset(a) == multiset(b)
    ensures |a| == |b|
    ensures forall x :: x in a <==> x in b
  {
    assert |multiset(a)| == |a| && |multiset(b)| == |b|;
    forall x ensures x in a <==> x in b {
      assert x in a <==> x in multiset(a);
      assert x in b <==> x in multiset(b);
    }
  }

  lemma {:induction false} InsertSorted<T(!new)>(less: (T, T) -> bool, x: T, s: seq<T>)
    requires WeakOrder(less) && Sorted(less, s)
    ensures Sorted(less, Insert(less, x, s))
  {
    if s == [] {
    } else if !less(s[0], x) {
      SortedFrom(less, x, s);
    } else {
      var t := Insert(less, x, s[1..]);
      InsertSorted(less, x, s[1..]);
      SameLength(t, s[1..] + [x]);
      forall y | y in t ensures !less(y, s[0]) {
        assert y in s[1..] + [x];
      }
      SortedCons(less, s[0], t);
    }
  }

  lemma SortedCons<T>(less: (T, T) -> bool, x: T, s: seq<T>)
    requires Sorted(less, s) && forall y :: y in s ==> !less(y, x)
    ensures Sorted(less, [x] + s)
  {
  }

  lemma SortedFrom<T(!new)>(less: (T, T) -> bool, x: T, s: seq<T>)
    requires WeakOrder(less) && Sorted(less, s) && s != [] && !less(s[0], x)
    ensures Sorted(less, [x] + s)
  {
    forall y | y in s ensures !less(y, x) {
      assert !less(y, s[0]);
    }
    SortedCons(less, x, s);
  }

  lemma {:induction false} SortSorted<T(!new)>(less: (T, T) -> bool, s: seq<T>)
    requires WeakOrder(less)
    ensures Sorted(less, Sort(less, s))
  {
    if s != [] {
      SortSorted(less, s[1..]);
      InsertSorted(less, s[0], Sort(less, s[1..]));
    }
  }

  /** There is one way to sort elements that are pairwise comparable. */
  lemma {:induction false} OneSortedOrder<T>(less: (T, T) -> bool, a: seq<T>, b: seq<T>)
    requires multiset(a) == multiset(b)
    requires Separates(less, a) && Sorted(less, a) && Sorted(less, b)
    ensures a == b
  {
    SameLength(a, b);
    if a != [] {
      SameHead(less, a, b);
      HeadAndTail(a);
      HeadAndTail(b);
      TailKeeps(less, a);
      TailKeeps(less, b);
      OneSortedOrder(less, a[1..], b[1..]);
      assert a == [a[0]] + a[1..] && b == [b[0]] + b[1..];
    }
  }

  lemma TailKeeps<T>(less: (T, T) -> bool, s: seq<T>)
    requires s != [] && Sorted(less, s)
    ensures Sorted(less, s[1..])
    ensures Separates(less, s) ==> Separates(less, s[1..])
  {
    assert forall x :: x in s[1..] ==> x in s;
  }

  lemma SameHead<T>(less: (T, T) -> bool, a: seq<T>, b: seq<T>)
    requires a != [] && b != [] && multiset(a) == multiset(b)
    requires Separates(less, a) && Sorted(less, a) && Sorted(less, b)
    ensures a[0] == b[0]
  {
    SameLength(a, b);
    var x, y := a[0], b[0];
    assert x in b && y in a;
    var i :| 0 <= i < |a| && a[i] == y;
    var j :| 0 <= j < |b| && b[j] == x;
    assert i == 0 || !less(y, x);
    assert j == 0 || !less(x, y);
  }

  /** An ascending sequence is fixed by the set of its elements. */
  lemma {:induction false} OneAscendingOrder<T(!new)>(less: (T, T) -> bool, a: seq<T>, b: seq<T>)
    requires Asymmetric(less) && Ascending(less, a) && Ascending(less, b)
    requires forall x :: x in a <==> x in b
    ensures a == b
  {
    assert a == [] || a[0] in b;
    assert b == [] || b[0] in a;
    if a != [] {
      FirstIsLeast(less, a, b[0]);
      FirstIsLeast(less, b, a[0]);
      forall x ensures x in a[1..] <==> x in b[1..] {
        AscendingTail(less, a, x);
        AscendingTail(less, b, x);
      }
      OneAscendingOrder(less, a[1..], b[1..]);
      assert a == [a[0]] + a[1..] && b == [b[0]] + b[1..];
    }
  }

  lemma FirstIsLeast<T>(less: (T, T) -> bool, a: seq<T>, x: T)
    requires Ascending(less, a) && x in a
    ensures x == a[0] || less(a[0], x)
  {
    var i :| 0 <= i < |a| && a[i] == x;
  }

  lemma AscendingTail<T(!new)>(less: (T, T) -> bool, a: seq<T>, x: T)
    requires a != [] && Asymmetric(less) && Ascending(less, a)
    ensures x in a[1..] <==> x in a && x != a[0]
  {
    if x in a[1..] {
      var i :| 0 <= i < |a[1..]| && a[1..][i] == x;
      assert less(a[0], a[i + 1]);
    }
  }

  function Without<T>(s: seq<T>, j: nat): (r: seq<T>)
    requires j < |s|
    ensures |r| == |s| - 1
  {
    if j == 0 then s[1..] else [s[0]] + Without(s[1..], j - 1)
  }

  lemma {:induction false} WithoutOne<T>(s: seq<T>, j: nat)
    requires j < |s|
    ensures multiset(s) == multiset(Without(s, j)) + multiset{s[j]}
  {
    HeadAndTail(s);
    if j > 0 {
      WithoutOne(s[1..], j - 1);
      var rest := Without(s[1..], j - 1);
      Joined(s[0], rest);
      Swapped(multiset{s[0]}, multiset(rest), multiset{s[j]});
    }
  }

  lemma Joined<T>(x: T, s: seq<T>)
    ensures multiset([x] + s) == multiset{x} + multiset(s)
  {
  }

  lemma Swapped<T>(a: multiset<T>, b: multiset<T>, c: multiset<T>)
    ensures a + (b + c) == (a + b) + c
  {
  }

  lemma Cancelled<T>(a: multiset<T>, b: multiset<T>, c: multiset<T>)
    requires a + c == b + c
    ensures a == b
  {
    assert (a + c) - c == a && (b + c) - c == b;
  }

  lemma WithoutSame<T>(a: seq<T>, i: nat, b: seq<T>, j: nat)
    requires i < |a| && j < |b| && a[i] == b[j] && multiset(a) == multiset(b)
    ensures multiset(Without(a, i)) == multiset(Without(b, j))
  {
    WithoutOne(a, i);
    WithoutOne(b, j);
    Cancelled(multiset(Without(a, i)), multiset(Without(b, j)), multiset{a[i]});
  }

  lemma WithSame<T>(a: seq<T>, i: nat, b: seq<T>, j: nat)
    requires i < |a| && j < |b| && a[i] == b[j] && multiset(Without(a, i)) == multiset(Without(b, j))
    ensures multiset(a) == multiset(b)
  {
    WithoutOne(a, i);
    WithoutOne(b, j);
  }

  /** No element occurs twice. */
  ghost predicate Unrepeated<T>(s: seq<T>) {
    forall i, j :: 0 <= i < j < |s| ==> s[i] != s[j]
  }

  /** A set's elements in some order. */
  method Enumerate<T(==)>(s: set<T>) returns (r: seq<T>)
    ensures Unrepeated(r)
    ensures forall x :: x in r <==> x in s
  {
    r := [];
    var todo := s;
    while todo != {}
      invariant todo <= s && Unrepeated(r)
      invariant forall x :: x in r <==> x in s - todo
      decreases todo
    {
      var x :| x in todo;
      assert x !in r;
      r := r + [x];
      todo := todo - {x};
    }
  }

  lemma {:induction false} UnrepeatedCounts<T>(s: seq<T>)
    ensures Unrepeated(s) <==> forall x :: multiset(s)[x] <= 1
  {
    if s != [] {
      HeadAndTail(s);
      UnrepeatedCounts(s[1..]);
      if Unrepeated(s) {
        assert Unrepeated(s[1..]);
        assert s[0] !in s[1..];
        assert multiset(s[1..])[s[0]] == 0;
        forall x ensures multiset(s)[x] <= 1 { }
      }
      if forall x :: multiset(s)[x] <= 1 {
        forall x ensures multiset(s[1..])[x] <= 1 { assert multiset(s)[x] <= 1; }
        assert multiset(s)[s[0]] <= 1;
        assert s[0] !in multiset(s[1..]);
        forall i, j | 0 <= i < j < |s| ensures s[i] != s[j] {
          assert s[j] == s[1..][j - 1] && s[j] in s[1..];
          assert i > 0 ==> s[i] == s[1..][i - 1];
        }
      }
    }
  }

  lemma UnrepeatedSame<T>(a: seq<T>, b: seq<T>)
    requires multiset(a) == multiset(b) && Unrepeated(a)
    ensures Unrepeated(b)
  {
    UnrepeatedCounts(a);
    UnrepeatedCounts(b);
  }

  predicate ByText(a: string, b: string) { Less(a, b) }

  lemma ByTextIsWeakOrder()
    ensures WeakOrder(ByText)
  {
    forall x: string, y: string | ByText(x, y) ensures !ByText(y, x) { LessAsymmetric(x, y); }
    forall x: string, y: string, z: string | !ByText(y, x) && !ByText(z, y) ensures !ByText(z, x) {
      LessTotal(x, y);
      LessTotal(y, z);
      if ByText(x, y) && ByText(y, z) { LessTransitive(x, y, z); LessAsymmetric(x, z); }
    }
  }

  lemma ByTextSeparates(s: seq<string>)
    ensures Separates(ByText, s)
  {
    forall x, y | x in s && y in s && x != y ensures ByText(x, y) || ByText(y, x) { LessTotal(x, y); }
  }

  // ---- Concatenation ---------------------------------------------------------

  lemma Assoc<T>(a: seq<T>, b: seq<T>, c: seq<T>)
    ensures (a + b) + c == a + (b + c)
  {
  }

  /** Moving the first of what is left to the end of what is done. */
  lemma Shift<T>(done: seq<T>, todo: seq<T>)
    requires todo != []
    ensures (done + [todo[0]]) + todo[1..] == done + todo
    ensures (done + todo)[|done|] == todo[0]
  {
  }

  // ---- Joining and splitting ------------------------------------------------

  function Join(parts: seq<string>, sep: string): string {
    if parts == [] then ""
    else if |parts| == 1 then parts[0]
    else parts[0] + sep + Join(parts[1..], sep)
  }

  predicate Free(s: string, c: char) { c !in s }

  /** `str::split` on one character: always at least one part. */
  function Split(s: string, c: char): (r: seq<string>)
    ensures |r| > 0
    ensures forall i :: 0 <= i < |r| ==> Free(r[i], c)
  {
    if s == "" then [""]
    else if s[0] == c then [""] + Split(s[1..], c)
    else
      var r := Split(s[1..], c);
      [[s[0]] + r[0]] + r[1..]
  }

  lemma {:induction false} SplitOne(s: string, c: char)
    requires Free(s, c)
    ensures Split(s, c) == [s]
  {
    if s != "" {
      assert s[0] in s && Free(s[1..], c);
      SplitOne(s[1..], c);
      assert [s[0]] + s[1..] == s;
    }
  }

  lemma {:induction false} SplitFirst(s: string, c: char, rest: string)
    requires Free(s, c)
    ensures Split(s + [c] + rest, c) == [s] + Split(rest, c)
  {
    if s == "" {
      assert (s + [c] + rest)[1..] == rest;
    } else {
      assert s[0] in s && Free(s[1..], c);
      SplitFirst(s[1..], c, rest);
      assert (s + [c] + rest)[1..] == s[1..] + [c] + rest;
      assert [s[0]] + s[1..] == s;
    }
  }

  lemma SplitCons(x: char, s: string, c: char)
    ensures Split([x] + s, c) ==
            if x == c then [""] + Split(s, c) else [[x] + Split(s, c)[0]] + Split(s, c)[1..]
  {
    assert ([x] + s)[1..] == s;
  }

  /** A separator parts what is split on either side of it. */
  lemma {:induction false} SplitAcross(a: string, c: char, b: string)
    ensures Split(a + ([c] + b), c) == Split(a, c) + Split(b, c)
  {
    if a == "" {
      assert a + ([c] + b) == [c] + b;
      SplitCons(c, b, c);
    } else {
      var x, rest := a[0], a[1..] + ([c] + b);
      assert a + ([c] + b) == [x] + rest && a == [x] + a[1..];
      SplitAcross(a[1..], c, b);
      SplitCons(x, rest, c);
      SplitCons(x, a[1..], c);
    }
  }

  /** Joining undoes splitting. */
  lemma {:induction false} JoinSplit(s: string, c: char)
    ensures Join(Split(s, c), [c]) == s
  {
    if s != "" {
      JoinSplit(s[1..], c);
      var r := Split(s[1..], c);
      assert s == [s[0]] + s[1..];
      if s[0] == c {
        assert ([""] + r)[1..] == r;
      } else {
        JoinHead(s[0], r, [c]);
      }
    }
  }

  lemma JoinHead(x: char, parts: seq<string>, sep: string)
    requires parts != []
    ensures Join([[x] + parts[0]] + parts[1..], sep) == [x] + Join(parts, sep)
  {
    var longer := [[x] + parts[0]] + parts[1..];
    assert longer[1..] == parts[1..];
    if |parts| > 1 {
      Assoc([x], parts[0], sep);
      Assoc([x], parts[0] + sep, Join(parts[1..], sep));
    }
  }

  /** Splitting undoes joining when no part holds the separator. */
  lemma {:induction false} SplitJoin(parts: seq<string>, c: char)
    requires parts != [] && forall p :: p in parts ==> Free(p, c)
    ensures Split(Join(parts, [c]), c) == parts
  {
    if |parts| == 1 {
      SplitOne(parts[0], c);
    } else {
      assert forall p :: p in parts[1..] ==> p in parts;
      SplitJoin(parts[1..], c);
      assert Free(parts[0], c);
      SplitFirst(parts[0], c, Join(parts[1..], [c]));
    }
  }

  // ---- Decimal digits ---------------------------------------------------------

  predicate IsDigit(c: char) { '0' <= c <= '9' }

  predicate AllDigits(s: string) { forall i :: 0 <= i < |s| ==> IsDigit(s[i]) }

  function DigitOf(c: char): (d: nat)
    requires IsDigit(c)
    ensures d < 10
  {
    (c - '0') as int
  }

  function DigitChar(d: nat): (c: char)
    requires d < 10
    ensures IsDigit(c) && DigitOf(c) == d
  {
    '0' + d as char
  }

  /** The number a run of digits denotes. */
  function NatOf(s: string): nat
    requires AllDigits(s)
  {
    if s == "" then 0 else 10 * NatOf(s[..|s| - 1]) + DigitOf(s[|s| - 1])
  }

  /** The decimal text of a natural number. */
  function NatText(n: nat): (s: string)
    ensures s != "" && AllDigits(s)
  {
    if n < 10 then [DigitChar(n)] else NatText(n / 10) + [DigitChar(n % 10)]
  }

  lemma {:induction false} NatTextReads(n: nat)
    ensures NatOf(NatText(n)) == n
  {
    if n < 10 {
      assert NatText(n)[..0] == "";
    } else {
      NatTextReads(n / 10);
      assert NatText(n)[..|NatText(n)| - 1] == NatText(n / 10);
    }
  }
}
