/** The list primitives the app builds on: `Array.prototype.filter`, `find` and `findIndex`. */
module Seqs {
  import opened Wrappers

  /** The elements of `s` that satisfy `p`, in their original order (`s.filter(p)`). */
  function Filter<T>(s: seq<T>, p: T -> bool): (r: seq<T>)
    ensures |r| <= |s|
    ensures forall x :: x in r ==> x in s && p(x)
  {
    if s == [] then [] else (if p(s[0]) then [s[0]] else []) + Filter(s[1..], p)
  }

  /** `t` can be obtained from `s` by deleting elements: the order of `s` is kept. */
  ghost predicate IsSubsequence<T>(t: seq<T>, s: seq<T>)
    decreases |s|
  {
    if t == [] then true
    else if s == [] then false
    else if t[0] == s[0] then IsSubsequence(t[1..], s[1..])
    else IsSubsequence(t, s[1..])
  }

  /** `filter` keeps exactly the elements that satisfy `p`: every one of them, with its
      multiplicity, and in the order of the input. */
  lemma {:induction false} FilterSpec<T>(s: seq<T>, p: T -> bool)
    ensures forall x :: x in Filter(s, p) <==> x in s && p(x)
    ensures forall x :: multiset(Filter(s, p))[x] == if p(x) then multiset(s)[x] else 0
    ensures IsSubsequence(Filter(s, p), s)
  {
    if s != [] {
      FilterSpec(s[1..], p);
      assert s == [s[0]] + s[1..];
      assert multiset(s) == multiset{s[0]} + multiset(s[1..]);
      var r := Filter(s[1..], p);
      if p(s[0]) {
        assert Filter(s, p) == [s[0]] + r;
        assert ([s[0]] + r)[1..] == r;
      } else {
        assert Filter(s, p) == r;
      }
    }
  }

  /** `filter` distributes over concatenation. */
  lemma {:induction false} FilterAppend<T>(s: seq<T>, t: seq<T>, p: T -> bool)
    ensures Filter(s + t, p) == Filter(s, p) + Filter(t, p)
  {
    if s != [] {
      assert (s + t)[1..] == s[1..] + t;
      FilterAppend(s[1..], t, p);
    } else {
      assert s + t == t;
    }
  }

  /** The index of the first element of `s` satisfying `p` (`findIndex`), or None. */
  function FindIndex<T>(s: seq<T>, p: T -> bool): (r: Option<nat>)
    ensures r.Some? ==> r.value < |s| && p(s[r.value])
    ensures r.Some? ==> forall j :: 0 <= j < r.value ==> !p(s[j])
    ensures r.None? ==> forall j :: 0 <= j < |s| ==> !p(s[j])
  {
    if s == [] then None
    else if p(s[0]) then Some(0)
    else match FindIndex(s[1..], p)
      case None => None
      case Some(i) => Some(i + 1)
  }

  /** The first element of `s` satisfying `p` (`find`), or None (`undefined`). */
  function Find<T>(s: seq<T>, p: T -> bool): (r: Option<T>)
    ensures r.None? <==> forall x :: x in s ==> !p(x)
    ensures r.Some? ==> r.value in s && p(r.value)
    ensures r.Some? ==> exists i :: 0 <= i < |s| && s[i] == r.value && forall j :: 0 <= j < i ==> !p(s[j])
  {
    match FindIndex(s, p)
    case None => None
    case Some(i) => Some(s[i])
  }

  /** Rust's `iter.map(f).collect::<Result<Vec<_>, _>>()`: every value when every element
      maps to `Ok`, otherwise the error of the first element that does not. */
  function MapResults<T, U(==), E(==)>(s: seq<T>, f: T -> Result<U, E>): (r: Result<seq<U>, E>)
    ensures r.Ok? <==> forall i :: 0 <= i < |s| ==> f(s[i]).Ok?
    ensures r.Ok? ==> |r.value| == |s| && forall i :: 0 <= i < |s| ==> f(s[i]) == Ok(r.value[i])
    ensures r.Err? ==> exists i :: 0 <= i < |s| && f(s[i]) == Err(r.error) && forall j :: 0 <= j < i ==> f(s[j]).Ok?
  {
    if s == [] then Ok([])
    else match f(s[0])
      case Err(e) => Err(e)
      case Ok(v) =>
        match MapResults(s[1..], f)
        case Err(e) =>
          assert forall i :: 1 <= i < |s| ==> s[i] == s[1..][i - 1];
          Err(e)
        case Ok(vs) =>
          assert forall i :: 1 <= i < |s| ==> s[i] == s[1..][i - 1];
          Ok([v] + vs)
  }

  /** One more element mapping to `Ok` extends the collected prefix by its value. */
  lemma MapResultsPrefixStep<T, U, E>(s: seq<T>, i: nat, f: T -> Result<U, E>, done: seq<U>, v: U)
    requires i < |s| && MapResults(s[..i], f) == Ok(done) && f(s[i]) == Ok(v)
    ensures MapResults(s[..i + 1], f) == Ok(done + [v])
  {
    var p := s[..i + 1];
    assert forall k :: 0 <= k < i ==> p[k] == s[..i][k];
    var r := MapResults(p, f);
    assert r.Ok?;
    assert r.value == done + [v];
  }

  /** An element mapping to `Err` after an all-`Ok` prefix is the error collected. */
  lemma {:induction false} MapResultsPrefixError<T, U, E>(s: seq<T>, i: nat, f: T -> Result<U, E>, done: seq<U>)
    requires i < |s| && MapResults(s[..i], f) == Ok(done) && f(s[i]).Err?
    ensures MapResults(s, f) == Err(f(s[i]).error)
    decreases i
  {
    if i > 0 {
      assert s[1..][..i - 1] == s[..i][1..];
      assert s[..i][0] == s[0];
      MapResultsPrefixError(s[1..], i - 1, f, done[1..]);
    }
  }
}
