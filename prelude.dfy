/** Small shared vocabulary: optional values, results, and the list
    comprehension `[x for x in s if p(x)]`. */
module Prelude {

  datatype Option<T> = None | Some(value: T)

  datatype Result<T, E> = Ok(value: T) | Err(error: E)

  /** `[x for x in s if p(x)]`: the elements of s that satisfy p, in their order in s. */
  function Filter<T(!new)>(s: seq<T>, p: T -> bool): (r: seq<T>)
    ensures |r| <= |s|
    ensures forall x :: x in r <==> x in s && p(x)
    decreases |s|
  {
    if s == [] then []
    else if p(s[0]) then [s[0]] + Filter(s[1..], p)
    else Filter(s[1..], p)
  }

  /** Two conditions that agree on every element select the same elements, in the same order. */
  lemma {:induction false} FilterExt<T(!new)>(s: seq<T>, p: T -> bool, q: T -> bool)
    requires forall x :: p(x) == q(x)
    ensures Filter(s, p) == Filter(s, q)
    decreases |s|
  {
    if s != [] {
      FilterExt(s[1..], p, q);
    }
  }

  /** The complement of a condition: `not p(x)`. */
  function Not<T>(p: T -> bool): T -> bool
  {
    x => !p(x)
  }

  /** Filtering keeps order: filtering a concatenation filters each part in place. */
  lemma {:induction false} FilterConcat<T(!new)>(a: seq<T>, b: seq<T>, p: T -> bool)
    ensures Filter(a + b, p) == Filter(a, p) + Filter(b, p)
    decreases |a|
  {
    if a != [] {
      assert (a + b)[0] == a[0];
      assert (a + b)[1..] == a[1..] + b;
      FilterConcat(a[1..], b, p);
      if p(a[0]) {
        calc {
          Filter(a + b, p);
          [a[0]] + Filter(a[1..] + b, p);
          [a[0]] + (Filter(a[1..], p) + Filter(b, p));
          ([a[0]] + Filter(a[1..], p)) + Filter(b, p);
          Filter(a, p) + Filter(b, p);
        }
      } else {
        calc {
          Filter(a + b, p);
          Filter(a[1..] + b, p);
          Filter(a[1..], p) + Filter(b, p);
          Filter(a, p) + Filter(b, p);
        }
      }
    } else {
      assert a + b == b;
    }
  }

  /** A condition and its complement split s: every element lands in exactly one part. */
  lemma {:induction false} FilterPartition<T(!new)>(s: seq<T>, p: T -> bool)
    ensures multiset(Filter(s, p)) + multiset(Filter(s, Not(p))) == multiset(s)
    ensures |Filter(s, p)| + |Filter(s, Not(p))| == |s|
    decreases |s|
  {
    if s != [] {
      FilterPartition(s[1..], p);
      assert s == [s[0]] + s[1..];
    }
  }

  /** Filtering an element that satisfies the condition onto the end appends it. */
  lemma FilterSnoc<T(!new)>(s: seq<T>, x: T, p: T -> bool)
    ensures Filter(s + [x], p) == if p(x) then Filter(s, p) + [x] else Filter(s, p)
  {
    FilterConcat(s, [x], p);
    assert [x][1..] == [];
  }

  /** Replacing one element changes the filtered length only by that element's verdict. */
  lemma FilterUpdateLength<T(!new)>(s: seq<T>, i: nat, x: T, p: T -> bool)
    requires i < |s|
    ensures |Filter(s[i := x], p)| + (if p(s[i]) then 1 else 0)
         == |Filter(s, p)| + (if p(x) then 1 else 0)
  {
    var pre, post := s[..i], s[i + 1..];
    assert s == pre + [s[i]] + post;
    assert s[i := x] == pre + [x] + post;
    FilterConcat(pre + [s[i]], post, p);
    FilterConcat(pre + [x], post, p);
    FilterSnoc(pre, s[i], p);
    FilterSnoc(pre, x, p);
  }
}
