/** The string operations of JavaScript that the modelled code leans on, with their laws. */
module Text {

  datatype Option<+T> = None | Some(value: T)

  /** `s.indexOf(c)` for a one-character needle: the first position, or -1. */
  function IndexOf(s: string, c: char): (i: int)
    ensures -1 <= i < |s|
    ensures 0 <= i ==> s[i] == c && c !in s[..i]
    ensures i < 0 ==> c !in s
  {
    if s == "" then -1
    else if s[0] == c then 0
    else
      var rest := IndexOf(s[1..], c);
      if rest < 0 then -1 else
        assert s[..rest + 1] == [s[0]] + s[1..][..rest];
        rest + 1
  }

  predicate StartsWith(s: string, c: char) {
    s != "" && s[0] == c
  }

  lemma Regroup<T>(a: seq<T>, b: seq<T>, c: seq<T>)
    ensures a + (b + c) == (a + b) + c
  {
  }

  lemma CutOut<T>(a: seq<T>, n: nat)
    requires n < |a|
    ensures a == a[..n] + [a[n]] + a[n + 1..]
  {
  }

  lemma CutAt<T>(a: seq<T>, n: nat)
    requires n <= |a|
    ensures a == a[..n] + a[n..]
  {
  }

  /** A text that has no `c` before its first `c`: where that `c` is. */
  lemma {:induction false} IndexOfAfter(head: string, c: char, tail: string)
    requires c !in head
    ensures IndexOf(head + [c] + tail, c) == |head|
  {
    if head != "" {
      assert (head + [c] + tail)[1..] == head[1..] + [c] + tail;
      IndexOfAfter(head[1..], c, tail);
    }
  }

  /** `s.split(separator)` for a one-character separator. */
  function Split(s: string, separator: char): (parts: seq<string>)
    ensures parts != []
    decreases |s|
  {
    var i := IndexOf(s, separator);
    if i < 0 then [s] else [s[..i]] + Split(s[i + 1..], separator)
  }

  /** `parts.join(separator)`. */
  function Join(parts: seq<string>, separator: string): string {
    if parts == [] then ""
    else if |parts| == 1 then parts[0]
    else parts[0] + separator + Join(parts[1..], separator)
  }

  lemma {:induction false} SplitUndoesJoin(parts: seq<string>, separator: char)
    requires parts != []
    requires forall i :: 0 <= i < |parts| ==> separator !in parts[i]
    ensures Split(Join(parts, [separator]), separator) == parts
  {
    var joined := Join(parts, [separator]);
    if |parts| > 1 {
      var rest := Join(parts[1..], [separator]);
      IndexOfAfter(parts[0], separator, rest);
      assert joined[..|parts[0]|] == parts[0];
      assert joined[|parts[0]| + 1..] == rest;
      SplitUndoesJoin(parts[1..], separator);
    }
  }

  lemma JoinFirst(first: string, more: seq<string>, separator: string)
    requires more != []
    ensures Join([first] + more, separator) == first + separator + Join(more, separator)
  {
    assert ([first] + more)[1..] == more;
  }

  lemma {:induction false} JoinUndoesSplit(s: string, separator: char)
    ensures Join(Split(s, separator), [separator]) == s
    decreases |s|
  {
    var i := IndexOf(s, separator);
    if i >= 0 {
      CutOut(s, i);
      JoinUndoesSplit(s[i + 1..], separator);
      JoinFirst(s[..i], Split(s[i + 1..], separator), [separator]);
    }
  }

  /** `xs.filter(keep)`. */
  function Filter<T>(xs: seq<T>, keep: T -> bool): (ys: seq<T>)
    ensures |ys| <= |xs|
    ensures forall i :: 0 <= i < |ys| ==> ys[i] in xs && keep(ys[i])
    ensures forall i :: 0 <= i < |xs| && keep(xs[i]) ==> xs[i] in ys
  {
    if xs == [] then []
    else if keep(xs[0]) then [xs[0]] + Filter(xs[1..], keep)
    else Filter(xs[1..], keep)
  }

  lemma {:induction false} FilterAppend<T>(xs: seq<T>, ys: seq<T>, keep: T -> bool)
    ensures Filter(xs + ys, keep) == Filter(xs, keep) + Filter(ys, keep)
  {
    if xs == [] {
      assert xs + ys == ys;
    } else {
      assert (xs + ys)[1..] == xs[1..] + ys;
      FilterAppend(xs[1..], ys, keep);
    }
  }

  lemma {:induction false} FilterKeepsAll<T>(xs: seq<T>, keep: T -> bool)
    requires forall x :: x in xs ==> keep(x)
    ensures Filter(xs, keep) == xs
  {
    if xs != [] {
      assert xs[0] in xs;
      FilterKeepsAll(xs[1..], keep);
    }
  }

  lemma {:induction false} FilterTwice<T(!new)>(xs: seq<T>, p: T -> bool, q: T -> bool, both: T -> bool)
    requires forall x :: both(x) <==> p(x) && q(x)
    ensures Filter(Filter(xs, p), q) == Filter(xs, both)
  {
    if xs != [] {
      FilterTwice(xs[1..], p, q, both);
      if p(xs[0]) {
        assert ([xs[0]] + Filter(xs[1..], p))[1..] == Filter(xs[1..], p);
      }
    }
  }

  /** Where the elements that a filter keeps stand, in order. */
  function Positions<T>(xs: seq<T>, keep: T -> bool): (ps: seq<nat>)
    ensures forall k :: 0 <= k < |ps| ==> ps[k] < |xs| && keep(xs[ps[k]])
    ensures forall j, k :: 0 <= j < k < |ps| ==> ps[j] < ps[k]
  {
    if xs == [] then []
    else
      var last := |xs| - 1;
      Positions(xs[..last], keep) + if keep(xs[last]) then [last] else []
  }

  /** Every element that is kept has its position listed. */
  lemma {:induction false} PositionsAreAll<T>(xs: seq<T>, keep: T -> bool, p: nat)
    requires p < |xs| && keep(xs[p])
    ensures p in Positions(xs, keep)
  {
    if p < |xs| - 1 {
      PositionsAreAll(xs[..|xs| - 1], keep, p);
    }
  }

  /** The elements at the given positions. */
  function At<T>(xs: seq<T>, ps: seq<nat>): (ys: seq<T>)
    requires forall k :: 0 <= k < |ps| ==> ps[k] < |xs|
    ensures |ys| == |ps|
    ensures forall k :: 0 <= k < |ps| ==> ys[k] == xs[ps[k]]
  {
    seq(|ps|, k requires 0 <= k < |ps| => xs[ps[k]])
  }

  lemma AtLast<T>(xs: seq<T>, ps: seq<nat>, k: nat)
    requires forall i :: 0 <= i < |ps| ==> ps[i] < |xs|
    requires k <= |ps|
    ensures At(xs, ps[k..]) == At(xs, ps)[k..]
  {
  }

  /** A filter is an order-preserving selection. */
  lemma {:induction false} FilterIsSelection<T>(xs: seq<T>, keep: T -> bool)
    ensures Filter(xs, keep) == At(xs, Positions(xs, keep))
  {
    if xs != [] {
      var front, last := xs[..|xs| - 1], xs[|xs| - 1];
      assert xs == front + [last];
      FilterIsSelection(front, keep);
      FilterAppend(front, [last], keep);
      AtSnoc(front, last, Positions(front, keep), keep(last));
      assert Filter([last], keep) == if keep(last) then [last] else [];
    }
  }

  lemma AtSnoc<T>(xs: seq<T>, x: T, ps: seq<nat>, kept: bool)
    requires forall k :: 0 <= k < |ps| ==> ps[k] < |xs|
    ensures At(xs + [x], ps + if kept then [|xs|] else []) == At(xs, ps) + if kept then [x] else []
  {
  }

  /** `t` stands in `s` at position `i`. */
  predicate StandsAt(s: string, t: string, i: int) {
    0 <= i && i + |t| <= |s| && s[i..i + |t|] == t
  }

  /** `s.indexOf(t)`, looking from position `from` on. */
  function FindFrom(s: string, t: string, from: nat): (i: int)
    requires from <= |s|
    ensures i == -1 || (from <= i && StandsAt(s, t, i))
    ensures forall j :: from <= j && StandsAt(s, t, j) ==> 0 <= i <= j
    decreases |s| - from
  {
    if StandsAt(s, t, from) then from
    else if from == |s| then -1
    else FindFrom(s, t, from + 1)
  }

  function Find(s: string, t: string): (i: int)
    ensures i == -1 || StandsAt(s, t, i)
    ensures forall j :: StandsAt(s, t, j) ==> 0 <= i <= j
  {
    FindFrom(s, t, 0)
  }

  /** `s.includes(t)`. */
  predicate Includes(s: string, t: string) {
    Find(s, t) >= 0
  }

  /** `xs.slice(start)`: a negative start counts from the end, and `-0` is `0`. */
  function SliceFrom<T>(xs: seq<T>, start: int): seq<T> {
    if start >= |xs| then []
    else if start >= 0 then xs[start..]
    else if |xs| + start <= 0 then xs
    else xs[|xs| + start..]
  }

  /** What `\s` in a JavaScript pattern matches, and what `trim` removes. */
  predicate IsSpace(c: char) {
    || '\t' <= c <= '\r'
    || c == ' '
    || c == '\U{00A0}'
    || c == '\U{1680}'
    || '\U{2000}' <= c <= '\U{200A}'
    || c == '\U{2028}'
    || c == '\U{2029}'
    || c == '\U{202F}'
    || c == '\U{205F}'
    || c == '\U{3000}'
    || c == '\U{FEFF}'
  }

  /** The lower case of an ASCII letter; other characters stay. */
  function LowerChar(c: char): (l: char)
    ensures IsSpace(l) == IsSpace(c)
  {
    if 'A' <= c <= 'Z' then c + 32 as char else c
  }

  /** How far the run of characters of one kind (white space or not) at the head of `s` goes. */
  function RunLength(s: string, space: bool): (n: nat)
    ensures n <= |s|
    ensures forall i :: 0 <= i < n ==> IsSpace(s[i]) == space
    ensures n < |s| ==> IsSpace(s[n]) != space
  {
    if s == "" || IsSpace(s[0]) != space then 0 else 1 + RunLength(s[1..], space)
  }

  /** `s.trim()`. */
  function Trim(s: string): (t: string)
    ensures t == "" <==> forall i :: 0 <= i < |s| ==> IsSpace(s[i])
    ensures t != "" ==> !IsSpace(t[0]) && !IsSpace(t[|t| - 1])
  {
    var left := s[RunLength(s, true)..];
    if left == "" then ""
    else
      assert !IsSpace(left[0]) && left[0] == s[RunLength(s, true)];
      TrimRight(left)
  }

  function TrimRight(s: string): (t: string)
    ensures |t| <= |s| && t == s[..|t|]
    ensures forall i :: |t| <= i < |s| ==> IsSpace(s[i])
    ensures t != "" ==> !IsSpace(t[|t| - 1])
  {
    if s != "" && IsSpace(s[|s| - 1]) then TrimRight(s[..|s| - 1]) else s
  }

  lemma NothingToTrim(s: string)
    requires s != "" && !IsSpace(s[0]) && !IsSpace(s[|s| - 1])
    ensures Trim(s) == s
  {
    assert RunLength(s, true) == 0 && s[0..] == s;
  }
}
