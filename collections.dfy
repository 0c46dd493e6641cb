/**
 * The two lodash collection functions the resolvers use, specified by their
 * behaviour on arrays: `find` returns the first element satisfying a match
 * predicate, `filter` the order-preserving selection of all such elements.
 */
module Collections {
  import opened Wrappers

  /** Index of the first element of `s` satisfying `p`, or `None` when there is none. */
  function FirstIndex<T>(s: seq<T>, p: T -> bool): (r: Option<nat>)
    ensures r.Some? ==> r.value < |s| && p(s[r.value])
    ensures r.Some? ==> forall j :: 0 <= j < r.value ==> !p(s[j])
    ensures r.None? <==> forall j :: 0 <= j < |s| ==> !p(s[j])
  {
    if |s| == 0 then None
    else if p(s[0]) then Some(0)
    else
      match FirstIndex(s[1..], p)
      case None => None
      case Some(k) => Some(k + 1)
  }

  /** lodash `find`: the first element of `s` satisfying `p`, or `None`. */
  function Find<T>(s: seq<T>, p: T -> bool): (r: Option<T>)
    ensures r.Some? ==> exists i :: 0 <= i < |s| && s[i] == r.value && p(s[i]) && forall j :: 0 <= j < i ==> !p(s[j])
    ensures r.None? <==> forall x :: x in s ==> !p(x)
  {
    match FirstIndex(s, p)
    case None => None
    case Some(i) => Some(s[i])
  }

  /** lodash `filter`: every element of `s` satisfying `p`, in the order of `s`. */
  function Select<T>(s: seq<T>, p: T -> bool): (r: seq<T>)
    ensures |r| <= |s|
    ensures forall x :: x in r ==> x in s && p(x)
    ensures forall x :: x in s ==> multiset(r)[x] == if p(x) then multiset(s)[x] else 0
  {
    if |s| == 0 then []
    else
      assert s == [s[0]] + s[1..];
      (if p(s[0]) then [s[0]] else []) + Select(s[1..], p)
  }

  /** `r` is obtained from `s` by deleting elements, keeping the rest in order. */
  ghost predicate IsSubsequence<T>(r: seq<T>, s: seq<T>)
    decreases |s|
  {
    if |r| == 0 then true
    else if |s| == 0 then false
    else (r[0] == s[0] && IsSubsequence(r[1..], s[1..])) || IsSubsequence(r, s[1..])
  }

  /** `Select` keeps the relative order of the elements it selects. */
  lemma {:induction false} SelectIsSubsequence<T>(s: seq<T>, p: T -> bool)
    ensures IsSubsequence(Select(s, p), s)
  {
    if |s| > 0 {
      SelectIsSubsequence(s[1..], p);
      var rest := Select(s[1..], p);
      if p(s[0]) {
        assert Select(s, p) == [s[0]] + rest;
        assert ([s[0]] + rest)[1..] == rest;
      } else {
        assert Select(s, p) == rest;
      }
    }
  }

  /** Selection distributes over concatenation: the selection of a table is the selection of its parts, in order. */
  lemma {:induction false} SelectAppend<T>(a: seq<T>, b: seq<T>, p: T -> bool)
    ensures Select(a + b, p) == Select(a, p) + Select(b, p)
  {
    if |a| == 0 {
      assert a + b == b;
    } else {
      var head := if p(a[0]) then [a[0]] else [];
      assert (a + b)[0] == a[0];
      assert (a + b)[1..] == a[1..] + b;
      SelectAppend(a[1..], b, p);
      calc {
        Select(a + b, p);
        head + Select(a[1..] + b, p);
        head + (Select(a[1..], p) + Select(b, p));
        (head + Select(a[1..], p)) + Select(b, p);
      }
    }
  }

  /** The selection is empty exactly when no element matches. */
  lemma SelectEmpty<T>(s: seq<T>, p: T -> bool)
    ensures Select(s, p) == [] <==> forall x :: x in s ==> !p(x)
  {
  }
}
