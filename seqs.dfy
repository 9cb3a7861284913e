/** Sequence helpers shared by the models: JavaScript's `Array.prototype.filter`,
    the "remove every copy" idiom `xs.filter(v => v !== x)`, and subsequences. */
module Seqs {

  /** `a` can be obtained from `b` by deleting elements, keeping the order of the rest. */
  predicate IsSubsequence<T(==)>(a: seq<T>, b: seq<T>)
    decreases |b|
  {
    if a == [] then true
    else if b == [] then false
    else if a[0] == b[0] then IsSubsequence(a[1..], b[1..])
    else IsSubsequence(a, b[1..])
  }

  /** The truth value of a string in both Python and JavaScript: true unless it is empty. */
  predicate NotEmpty(s: string) {
    s != ""
  }

  /** `Array.prototype.filter`: the elements of `s` that `keep` accepts, in their order. */
  function Filter<T>(s: seq<T>, keep: T -> bool): (r: seq<T>)
    ensures |r| <= |s|
    ensures forall i :: 0 <= i < |r| ==> keep(r[i])
    ensures forall x :: x in r ==> x in s
    decreases |s|
  {
    if s == [] then []
    else if keep(s[0]) then [s[0]] + Filter(s[1..], keep)
    else Filter(s[1..], keep)
  }

  /** What `Filter` keeps is a subsequence of its input. */
  lemma {:induction false} FilterIsSubsequence<T>(s: seq<T>, keep: T -> bool)
    ensures IsSubsequence(Filter(s, keep), s)
    decreases |s|
  {
    if s != [] {
      FilterIsSubsequence(s[1..], keep);
      var rest := Filter(s[1..], keep);
      if !keep(s[0]) && rest != [] {
        assert rest[0] != s[0];
      }
    }
  }

  /** `Filter` keeps every accepted element as many times as it occurs in the input. */
  lemma {:induction false} FilterKeepsAccepted<T>(s: seq<T>, keep: T -> bool, x: T)
    requires keep(x)
    ensures multiset(Filter(s, keep))[x] == multiset(s)[x]
    decreases |s|
  {
    if s != [] {
      FilterKeepsAccepted(s[1..], keep, x);
      assert s == [s[0]] + s[1..];
    }
  }

  /** Filtering a sequence none of whose elements is accepted leaves nothing. */
  lemma {:induction false} FilterNoneAccepted<T>(s: seq<T>, keep: T -> bool)
    requires forall i :: 0 <= i < |s| ==> !keep(s[i])
    ensures Filter(s, keep) == []
    decreases |s|
  {
    if s != [] {
      FilterNoneAccepted(s[1..], keep);
    }
  }

  /** Filtering a sequence all of whose elements are accepted returns it unchanged. */
  lemma {:induction false} FilterAllAccepted<T>(s: seq<T>, keep: T -> bool)
    requires forall i :: 0 <= i < |s| ==> keep(s[i])
    ensures Filter(s, keep) == s
    decreases |s|
  {
    if s != [] {
      FilterAllAccepted(s[1..], keep);
      assert s == [s[0]] + s[1..];
    }
  }

  /** A property every element of `s` has, every element `Filter` keeps has. */
  lemma {:induction false} FilterPreserves<T>(s: seq<T>, keep: T -> bool, holds: T -> bool)
    requires forall i :: 0 <= i < |s| ==> holds(s[i])
    ensures forall i :: 0 <= i < |Filter(s, keep)| ==> holds(Filter(s, keep)[i])
    decreases |s|
  {
    if s != [] {
      FilterPreserves(s[1..], keep, holds);
    }
  }

  /** Filtering distributes over concatenation. */
  lemma {:induction false} FilterAppend<T>(s: seq<T>, t: seq<T>, keep: T -> bool)
    ensures Filter(s + t, keep) == Filter(s, keep) + Filter(t, keep)
    decreases |s|
  {
    if s != [] {
      assert (s + t)[0] == s[0] && (s + t)[1..] == s[1..] + t;
      FilterAppend(s[1..], t, keep);
    } else {
      assert s + t == t;
    }
  }

  /** A position at which an element of a sequence occurs. */
  lemma PositionOf<T>(s: seq<T>, x: T) returns (k: nat)
    requires x in s
    ensures k < |s| && s[k] == x
  {
    k :| 0 <= k < |s| && s[k] == x;
  }

  /** `xs.filter(v => v !== x)`: every copy of `x` removed, everything else kept in order. */
  function RemoveAll<T(==,!new)>(s: seq<T>, x: T): (r: seq<T>)
    ensures x !in r
    ensures forall y :: y != x ==> multiset(r)[y] == multiset(s)[y]
    ensures IsSubsequence(r, s)
  {
    FilterIsSubsequence(s, y => y != x);
    forall y | y != x ensures multiset(Filter(s, y => y != x))[y] == multiset(s)[y] {
      FilterKeepsAccepted(s, y => y != x, y);
    }
    Filter(s, y => y != x)
  }

  /** Removing an element that does not occur changes nothing. */
  lemma RemoveAllAbsent<T(!new)>(s: seq<T>, x: T)
    requires x !in s
    ensures RemoveAll(s, x) == s
  {
    FilterAllAccepted(s, y => y != x);
  }

  /** Appending `x` and then removing every `x` gives back a sequence that had no `x`. */
  lemma RemoveAllAfterAppend<T(!new)>(s: seq<T>, x: T)
    requires x !in s
    ensures RemoveAll(s + [x], x) == s
  {
    FilterAppend(s, [x], y => y != x);
    FilterAllAccepted(s, y => y != x);
  }

  /** `items.join(sep)`. */
  function Join(items: seq<string>, sep: string): (r: string)
    ensures items == [] ==> r == ""
    ensures |items| == 1 ==> r == items[0]
  {
    if items == [] then ""
    else if |items| == 1 then items[0]
    else items[0] + sep + Join(items[1..], sep)
  }
}
