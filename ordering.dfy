/** Orderings used by the listing queries: a code-point lexicographic order on
    strings and a stable insertion sort by a "comes before or ties" relation. */
module Ordering {

  /** `le` relates every pair one way or the other. */
  ghost predicate Total<T(!new)>(le: (T, T) -> bool) {
    forall a: T, b: T :: le(a, b) || le(b, a)
  }

  /** Every element comes before or ties with its successor. */
  ghost predicate Sorted<T>(s: seq<T>, le: (T, T) -> bool) {
    forall i :: 0 < i < |s| ==> le(s[i - 1], s[i])
  }

  /** Lexicographic order on strings by code point, a prefix first. */
  predicate StrLe(a: string, b: string) {
    if a == [] then true
    else if b == [] then false
    else a[0] < b[0] || (a[0] == b[0] && StrLe(a[1..], b[1..]))
  }

  lemma {:induction false} StrLeTotal(a: string, b: string)
    ensures StrLe(a, b) || StrLe(b, a)
  {
    if a != [] && b != [] && a[0] == b[0] {
      StrLeTotal(a[1..], b[1..]);
    }
  }

  /** Places `x` in front of the first element it comes before. */
  function Insert<T(!new)>(x: T, s: seq<T>, le: (T, T) -> bool): (r: seq<T>)
    ensures multiset(r) == multiset(s) + multiset{x}
    ensures r[0] == x || (s != [] && r[0] == s[0])
    ensures Total(le) && Sorted(s, le) ==> Sorted(r, le)
  {
    if s == [] || le(x, s[0]) then [x] + s
    else
      assert s == [s[0]] + s[1..];
      [s[0]] + Insert(x, s[1..], le)
  }

  /** Insertion sort: a permutation of `s`, in order whenever `le` is total. */
  function SortBy<T(!new)>(s: seq<T>, le: (T, T) -> bool): (r: seq<T>)
    ensures multiset(r) == multiset(s)
    ensures Total(le) ==> Sorted(r, le)
  {
    if s == [] then []
    else
      assert s == [s[0]] + s[1..];
      Insert(s[0], SortBy(s[1..], le), le)
  }
}
