/** `Array.prototype.sort`: a stable sort by a comparer, and the string comparer of `localeSafe`. */
module Sorting {
  import opened Text

  /** The sign of a comparer's answer, as `sort` uses it. */
  predicate AtMost<T>(compare: (T, T) -> int, a: T, b: T) {
    compare(a, b) <= 0
  }

  /** What `sort` asks of a comparer: answers both ways agree, and the order is transitive. */
  ghost predicate Comparer<T(!new)>(compare: (T, T) -> int) {
    && (forall a, b :: compare(a, b) < 0 <==> compare(b, a) > 0)
    && (forall a, b, c :: AtMost(compare, a, b) && AtMost(compare, b, c) ==> AtMost(compare, a, c))
  }

  /** Put `x` before the first element that is not smaller. */
  function Insert<T>(x: T, s: seq<T>, compare: (T, T) -> int): seq<T> {
    if s == [] || AtMost(compare, x, s[0]) then [x] + s else [s[0]] + Insert(x, s[1..], compare)
  }

  /** `xs.sort(compare)`. */
  function Sort<T>(xs: seq<T>, compare: (T, T) -> int): seq<T> {
    if xs == [] then [] else Insert(xs[0], Sort(xs[1..], compare), compare)
  }

  ghost predicate Sorted<T>(s: seq<T>, compare: (T, T) -> int) {
    forall i, j :: 0 <= i < j < |s| ==> AtMost(compare, s[i], s[j])
  }

  /** The elements that compare equal to `x`, in their order. */
  function Ties<T>(s: seq<T>, x: T, compare: (T, T) -> int): (ties: seq<T>)
    ensures forall i :: 0 <= i < |ties| ==> compare(x, ties[i]) == 0
  {
    if s == [] then []
    else (if compare(x, s[0]) == 0 then [s[0]] else []) + Ties(s[1..], x, compare)
  }

  /** `r` is a stable sort of `xs`: in order, and elements that tie stay in their old order. */
  ghost predicate StableSortOf<T(!new)>(r: seq<T>, xs: seq<T>, compare: (T, T) -> int) {
    Sorted(r, compare) && forall x :: Ties(r, x, compare) == Ties(xs, x, compare)
  }

  lemma {:induction false} InsertKeepsElements<T>(x: T, s: seq<T>, compare: (T, T) -> int)
    ensures multiset(Insert(x, s, compare)) == multiset([x] + s)
  {
    if s != [] && !AtMost(compare, x, s[0]) {
      InsertKeepsElements(x, s[1..], compare);
      assert s == [s[0]] + s[1..];
    }
  }

  lemma {:induction false} SortKeepsElements<T>(xs: seq<T>, compare: (T, T) -> int)
    ensures multiset(Sort(xs, compare)) == multiset(xs)
    ensures |Sort(xs, compare)| == |xs|
  {
    if xs != [] {
      SortKeepsElements(xs[1..], compare);
      InsertKeepsElements(xs[0], Sort(xs[1..], compare), compare);
      assert xs == [xs[0]] + xs[1..];
    }
    assert |multiset(Sort(xs, compare))| == |Sort(xs, compare)|;
    assert |multiset(xs)| == |xs|;
  }

  lemma {:induction false} InsertSorted<T(!new)>(x: T, s: seq<T>, compare: (T, T) -> int)
    requires Comparer(compare) && Sorted(s, compare)
    ensures Sorted(Insert(x, s, compare), compare)
  {
    var r := Insert(x, s, compare);
    if s == [] {
    } else if AtMost(compare, x, s[0]) {
      forall j | 0 < j < |r| ensures AtMost(compare, x, r[j]) {
        assert r[j] == s[j - 1];
        assert j > 1 ==> AtMost(compare, s[0], s[j - 1]);
      }
    } else {
      InsertSorted(x, s[1..], compare);
      InsertKeepsElements(x, s[1..], compare);
      forall j | 0 < j < |r| ensures AtMost(compare, s[0], r[j]) {
        assert r[j] in multiset(Insert(x, s[1..], compare));
        assert r[j] == x || r[j] in s[1..];
      }
    }
  }

  lemma TiesInsert<T(!new)>(x: T, s: seq<T>, y: T, compare: (T, T) -> int)
    requires Comparer(compare)
    ensures Ties(Insert(x, s, compare), y, compare) == Ties([x] + s, y, compare)
  {
    if s != [] && !AtMost(compare, x, s[0]) {
      TiesInsert(x, s[1..], y, compare);
      assert ([x] + s)[1..] == s && ([x] + s[1..])[1..] == s[1..];
      assert !(compare(y, x) == 0 && compare(y, s[0]) == 0) by {
        if compare(y, x) == 0 && compare(y, s[0]) == 0 {
          assert AtMost(compare, x, y) && AtMost(compare, y, s[0]);
        }
      }
    }
  }

  lemma {:induction false} SortIsStable<T(!new)>(xs: seq<T>, compare: (T, T) -> int)
    requires Comparer(compare)
    ensures StableSortOf(Sort(xs, compare), xs, compare)
  {
    if xs != [] {
      var rest := Sort(xs[1..], compare);
      SortIsStable(xs[1..], compare);
      InsertSorted(xs[0], rest, compare);
      forall y ensures Ties(Sort(xs, compare), y, compare) == Ties(xs, y, compare) {
        TiesInsert(xs[0], rest, y, compare);
        assert ([xs[0]] + rest)[1..] == rest;
      }
    }
  }

  /** There is only one stable sort, so it does not matter how the engine sorts. */
  lemma {:induction false} StableSortIsUnique<T(!new)>(r: seq<T>, s: seq<T>, compare: (T, T) -> int)
    requires Comparer(compare)
    requires Sorted(r, compare) && Sorted(s, compare)
    requires forall x :: Ties(r, x, compare) == Ties(s, x, compare)
    ensures r == s
  {
    if r == [] {
      if s != [] {
        TiesOfHead(s, compare);
      }
    } else {
      TiesOfHead(r, compare);
      TiesIn(s, r[0], compare);
      TiesOfHead(s, compare);
      TiesIn(r, s[0], compare);
      assert compare(r[0], s[0]) == 0 by {
        assert AtMost(compare, r[0], s[0]) && AtMost(compare, s[0], r[0]);
      }
      assert Ties(r, r[0], compare)[0] == r[0];
      assert Ties(s, r[0], compare)[0] == s[0];
      forall x ensures Ties(r[1..], x, compare) == Ties(s[1..], x, compare) {
        var tie := if compare(x, r[0]) == 0 then [r[0]] else [];
        assert Ties(r, x, compare) == tie + Ties(r[1..], x, compare);
        assert Ties(s, x, compare) == tie + Ties(s[1..], x, compare);
        assert (tie + Ties(r[1..], x, compare))[|tie|..] == Ties(r[1..], x, compare);
        assert (tie + Ties(s[1..], x, compare))[|tie|..] == Ties(s[1..], x, compare);
      }
      StableSortIsUnique(r[1..], s[1..], compare);
      assert r == [r[0]] + r[1..] && s == [s[0]] + s[1..];
    }
  }

  lemma TiesOfHead<T(!new)>(s: seq<T>, compare: (T, T) -> int)
    requires Comparer(compare) && s != []
    ensures Ties(s, s[0], compare) != [] && Ties(s, s[0], compare)[0] == s[0]
  {
    assert compare(s[0], s[0]) < 0 <==> compare(s[0], s[0]) > 0;
  }

  /** If something in a sorted sequence ties with `x`, its head is at most `x`. */
  lemma TiesIn<T(!new)>(s: seq<T>, x: T, compare: (T, T) -> int)
    requires Comparer(compare) && Sorted(s, compare)
    ensures Ties(s, x, compare) != [] ==> s != [] && AtMost(compare, s[0], x)
  {
    if Ties(s, x, compare) != [] {
      var y := Ties(s, x, compare)[0];
      TiesAreElements(s, x, compare);
      var i :| 0 <= i < |s| && s[i] == y;
      assert AtMost(compare, y, x);
      assert i > 0 ==> AtMost(compare, s[0], y);
    }
  }

  lemma {:induction false} TiesAreElements<T>(s: seq<T>, x: T, compare: (T, T) -> int)
    ensures forall i :: 0 <= i < |Ties(s, x, compare)| ==> Ties(s, x, compare)[i] in s
  {
    if s != [] {
      TiesAreElements(s[1..], x, compare);
    }
  }

  lemma AnyStableSort<T(!new)>(r: seq<T>, xs: seq<T>, compare: (T, T) -> int)
    requires Comparer(compare)
    ensures StableSortOf(r, xs, compare) <==> r == Sort(xs, compare)
  {
    SortIsStable(xs, compare);
    if StableSortOf(r, xs, compare) {
      StableSortIsUnique(r, Sort(xs, compare), compare);
    }
  }

  // ----- Comparing strings -----

  predicate Less(a: string, b: string) {
    b != "" && (a == "" || a[0] < b[0] || (a[0] == b[0] && Less(a[1..], b[1..])))
  }

  /** `compareStrings`. */
  function CompareStrings(a: string, b: string): int {
    if a == b then 0 else if Less(a, b) then -1 else 1
  }

  /** `compareStringsCaseInsensitive`; `lower` is the engine's `toLowerCase`. */
  function CompareFolded(a: string, b: string, lower: string -> string): int {
    var folded := CompareStrings(lower(a), lower(b));
    if folded != 0 then folded else CompareStrings(a, b)
  }

  lemma {:induction false} LessIsTotal(a: string, b: string)
    ensures a != b ==> (Less(a, b) <==> !Less(b, a))
    ensures !Less(a, a)
  {
    if a != "" && b != "" {
      LessIsTotal(a[1..], b[1..]);
      assert a == [a[0]] + a[1..] && b == [b[0]] + b[1..];
    }
    if a != "" {
      LessIsTotal(a[1..], a[1..]);
    }
  }

  lemma {:induction false} LessIsTransitive(a: string, b: string, c: string)
    requires Less(a, b) && Less(b, c)
    ensures Less(a, c)
  {
    if a != "" && a[0] == b[0] == c[0] {
      LessIsTransitive(a[1..], b[1..], c[1..]);
    }
  }

  lemma StringComparer()
    ensures Comparer(CompareStrings)
  {
    forall a, b ensures CompareStrings(a, b) < 0 <==> CompareStrings(b, a) > 0 {
      LessIsTotal(a, b);
    }
    forall a, b, c | AtMost(CompareStrings, a, b) && AtMost(CompareStrings, b, c)
      ensures AtMost(CompareStrings, a, c)
    {
      if Less(a, b) && Less(b, c) {
        LessIsTransitive(a, b, c);
      }
    }
  }

  function FoldedComparer(lower: string -> string): (string, string) -> int {
    (a, b) => CompareFolded(a, b, lower)
  }

  lemma FoldedComparerIsComparer(lower: string -> string)
    ensures Comparer(FoldedComparer(lower))
  {
    var compare := FoldedComparer(lower);
    StringComparer();
    forall a, b ensures compare(a, b) < 0 <==> compare(b, a) > 0 {
      assert CompareStrings(a, b) < 0 <==> CompareStrings(b, a) > 0;
      assert CompareStrings(lower(a), lower(b)) < 0 <==> CompareStrings(lower(b), lower(a)) > 0;
    }
    forall a, b, c | AtMost(compare, a, b) && AtMost(compare, b, c)
      ensures AtMost(compare, a, c)
    {
      assert AtMost(CompareStrings, lower(a), lower(b)) && AtMost(CompareStrings, lower(b), lower(c));
      assert AtMost(CompareStrings, lower(a), lower(c));
      if lower(a) == lower(c) {
        assert lower(a) == lower(b) by {
          LessIsTotal(lower(a), lower(b));
        }
        assert AtMost(CompareStrings, a, b) && AtMost(CompareStrings, b, c);
        assert AtMost(CompareStrings, a, c);
      }
    }
  }
}
