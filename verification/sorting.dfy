/**
 * `sorted(set(xs))` for the two key types the converter sorts: years (`int`)
 * and bed ids (strings, in Python's string order).
 */
module Sorting {
  import Text

  predicate Increasing(xs: seq<int>) {
    forall i, j :: 0 <= i < j < |xs| ==> xs[i] < xs[j]
  }

  /** Puts `x` into its place in `xs`, unless it is there already. */
  function InsertInt(xs: seq<int>, x: int): (r: seq<int>)
    requires Increasing(xs)
    ensures Increasing(r)
    ensures forall y :: y in r <==> y in xs || y == x
  {
    if xs == [] then [x]
    else if x < xs[0] then [x] + xs
    else if x == xs[0] then xs
    else
      var rest := InsertInt(xs[1..], x);
      assert forall j :: 0 <= j < |rest| ==> xs[0] < rest[j] by {
        forall j | 0 <= j < |rest| ensures xs[0] < rest[j] {
          assert rest[j] in rest;
        }
      }
      [xs[0]] + rest
  }

  /** `sorted(set(xs))` on integers. */
  function SortInts(xs: seq<int>): (r: seq<int>)
    ensures Increasing(r)
    ensures forall y :: y in r <==> y in xs
  {
    if xs == [] then [] else InsertInt(SortInts(xs[..|xs| - 1]), xs[|xs| - 1])
  }

  /** Two strictly increasing sequences with the same elements are the same sequence. */
  lemma {:induction false} IncreasingUnique(a: seq<int>, b: seq<int>)
    requires Increasing(a) && Increasing(b)
    requires forall y :: y in a <==> y in b
    ensures a == b
  {
    if a != [] { assert a[0] in a; }
    if b != [] { assert b[0] in b; }
    if a != [] && b != [] {
      assert a[0] == b[0];
      forall y ensures y in a[1..] <==> y in b[1..] {
        if y in a[1..] {
          assert y in b && y != b[0];
        }
        if y in b[1..] {
          assert y in a && y != a[0];
        }
      }
      IncreasingUnique(a[1..], b[1..]);
      assert a == [a[0]] + a[1..] && b == [b[0]] + b[1..];
    }
  }

  predicate IncreasingStrings(xs: seq<string>) {
    forall i, j :: 0 <= i < j < |xs| ==> Text.Less(xs[i], xs[j])
  }

  function InsertString(xs: seq<string>, x: string): (r: seq<string>)
    requires IncreasingStrings(xs)
    ensures IncreasingStrings(r)
    ensures forall y :: y in r <==> y in xs || y == x
  {
    if xs == [] then [x]
    else if Text.Less(x, xs[0]) then
      assert forall j :: 0 <= j < |xs| ==> Text.Less(x, xs[j]) by {
        forall j | 0 < j < |xs| { Text.LessTransitive(x, xs[0], xs[j]); }
      }
      [x] + xs
    else if x == xs[0] then xs
    else
      Text.LessTotal(x, xs[0]);
      var rest := InsertString(xs[1..], x);
      assert forall j :: 0 <= j < |rest| ==> Text.Less(xs[0], rest[j]) by {
        forall j | 0 <= j < |rest| ensures Text.Less(xs[0], rest[j]) {
          assert rest[j] in rest;
          if rest[j] != x {
            var k :| 0 <= k < |xs[1..]| && xs[1..][k] == rest[j];
            assert xs[k + 1] == rest[j];
          }
        }
      }
      [xs[0]] + rest
  }

  /** `sorted(set(xs))` on strings. */
  function SortStrings(xs: seq<string>): (r: seq<string>)
    ensures IncreasingStrings(r)
    ensures forall y :: y in r <==> y in xs
  {
    if xs == [] then [] else InsertString(SortStrings(xs[..|xs| - 1]), xs[|xs| - 1])
  }
}
