/** Building a sequence by keeping some elements of another and mapping them, as a loop that
    pushes onto an array does. */
module Seqs {

  /** `f` of each of the first `n` elements of `s` that `keep` accepts, in order. */
  function FilterMap<A, B>(s: seq<A>, n: nat, keep: A -> bool, f: A -> B): seq<B>
    requires n <= |s|
  {
    if n == 0 then []
    else FilterMap(s, n - 1, keep, f) + (if keep(s[n - 1]) then [f(s[n - 1])] else [])
  }

  /** Every accepted element among the first `n` has its image. */
  lemma {:induction false} FilterMapHas<A, B>(s: seq<A>, n: nat, keep: A -> bool, f: A -> B, i: nat)
    requires i < n <= |s| && keep(s[i])
    ensures f(s[i]) in FilterMap(s, n, keep, f)
  {
    if i < n - 1 {
      FilterMapHas(s, n - 1, keep, f, i);
    }
  }

  /** Every image comes from an accepted element among the first `n`. */
  lemma {:induction false} FilterMapFrom<A, B>(s: seq<A>, n: nat, keep: A -> bool, f: A -> B, y: B) returns (i: nat)
    requires n <= |s| && y in FilterMap(s, n, keep, f)
    ensures i < n && keep(s[i]) && y == f(s[i])
  {
    if y in FilterMap(s, n - 1, keep, f) {
      i := FilterMapFrom(s, n - 1, keep, f, y);
    } else {
      i := n - 1;
    }
  }

  /** Every image satisfies what `f` promises of the accepted elements. */
  lemma {:induction false} FilterMapAll<A, B>(s: seq<A>, n: nat, keep: A -> bool, f: A -> B, good: B -> bool)
    requires n <= |s|
    requires forall i | 0 <= i < n && keep(s[i]) :: good(f(s[i]))
    ensures forall y | y in FilterMap(s, n, keep, f) :: good(y)
  {
    if n > 0 {
      FilterMapAll(s, n - 1, keep, f, good);
    }
  }

  /** Filtering from the front: the first element's image, if it is kept, followed by what the
      rest gives. */
  lemma {:induction false} FilterMapCons<A, B>(s: seq<A>, n: nat, keep: A -> bool, f: A -> B)
    requires 1 <= n <= |s|
    ensures FilterMap(s, n, keep, f) == (if keep(s[0]) then [f(s[0])] else []) + FilterMap(s[1..], n - 1, keep, f)
  {
    if n > 1 {
      FilterMapCons(s, n - 1, keep, f);
      assert s[1..][n - 2] == s[n - 1];
    }
  }
}
