/** std::set<std::string>: a set of strings kept in ascending order, modelled as a
    strictly increasing sequence. */
module StringSet {

  /** The order of std::string: character by character, a proper prefix first. */
  predicate Less(a: string, b: string)
    decreases |a|
  {
    if a == [] then b != []
    else if b == [] then false
    else a[0] < b[0] || (a[0] == b[0] && Less(a[1..], b[1..]))
  }

  /** No string is below itself. */
  lemma {:induction false} LessIrreflexive(a: string)
    decreases |a|
    ensures !Less(a, a)
  {
    if a != [] {
      LessIrreflexive(a[1..]);
    }
  }

  /** The order is transitive. */
  lemma {:induction false} LessTransitive(a: string, b: string, c: string)
    decreases |a|
    requires Less(a, b) && Less(b, c)
    ensures Less(a, c)
  {
    if a != [] && b != [] && c != [] && a[0] == b[0] == c[0] {
      LessTransitive(a[1..], b[1..], c[1..]);
    }
  }

  /** Any two different strings are ordered one way or the other. */
  lemma {:induction false} LessTotal(a: string, b: string)
    decreases |a|
    ensures a == b || Less(a, b) || Less(b, a)
  {
    if a != [] && b != [] && a[0] == b[0] {
      LessTotal(a[1..], b[1..]);
      if a[1..] == b[1..] {
        assert a == [a[0]] + a[1..] && b == [b[0]] + b[1..];
      }
    }
  }

  /** Strictly ascending: each element below the next. */
  predicate Sorted(xs: seq<string>)
  {
    forall i :: 0 < i < |xs| ==> Less(xs[i - 1], xs[i])
  }

  /** A strictly ascending sequence holds each string at most once, in order. */
  lemma {:induction false} SortedOrdered(xs: seq<string>, i: nat, j: nat)
    requires Sorted(xs) && i < j < |xs|
    decreases j - i
    ensures Less(xs[i], xs[j]) && xs[i] != xs[j]
  {
    if i + 1 < j {
      SortedOrdered(xs, i + 1, j);
      LessTransitive(xs[i], xs[i + 1], xs[j]);
    }
    LessIrreflexive(xs[j]);
  }

  /** A string below the least element is not in the set. */
  lemma BelowFirst(xs: seq<string>, x: string)
    requires Sorted(xs) && xs != [] && Less(x, xs[0])
    ensures x !in xs
  {
    forall k | 0 < k < |xs| ensures x != xs[k] {
      SortedOrdered(xs, 0, k);
      LessTransitive(x, xs[0], xs[k]);
      LessIrreflexive(xs[k]);
    }
    LessIrreflexive(x);
  }

  /** std::set::insert: the element joins the set in its place; an element already
      there changes nothing. */
  function Insert(xs: seq<string>, x: string): (r: seq<string>)
    requires Sorted(xs)
    ensures Sorted(r)
    ensures |r| >= 1 && (r[0] == x || (xs != [] && r[0] == xs[0]))
    ensures forall y :: y in r <==> y in xs || y == x
    ensures x in xs ==> r == xs
    decreases |xs|
  {
    if xs == [] then [x]
    else if x == xs[0] then xs
    else if Less(x, xs[0]) then
      BelowFirst(xs, x);
      [x] + xs
    else
      LessTotal(x, xs[0]);
      var rest := Insert(xs[1..], x);
      assert forall y :: y in xs <==> y == xs[0] || y in xs[1..];
      [xs[0]] + rest
  }
}
