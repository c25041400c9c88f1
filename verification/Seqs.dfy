/** Small sequence vocabulary shared by the database writer and the producer
    helpers: an optional value, the rows of a sequence that satisfy a test
    (a SQL WHERE clause or a Python list comprehension with an `if`), and
    order-preserving subsequences. */
module Seqs {

  datatype Option<+T> = None | Some(value: T)

  /** The elements of `s` that satisfy `p`, in their original order. */
  function Select<T(!new)>(s: seq<T>, p: T -> bool): (r: seq<T>)
    ensures |r| <= |s|
    ensures forall x :: x in r <==> x in s && p(x)
  {
    if s == [] then [] else (if p(s[0]) then [s[0]] else []) + Select(s[1..], p)
  }

  /** Filtering distributes over concatenation. */
  lemma {:induction false} SelectAppend<T(!new)>(s: seq<T>, t: seq<T>, p: T -> bool)
    ensures Select(s + t, p) == Select(s, p) + Select(t, p)
  {
    if s == [] {
      assert s + t == t;
    } else {
      assert (s + t)[1..] == s[1..] + t;
      SelectAppend(s[1..], t, p);
    }
  }

  /** The concatenation of `f` applied to each element of `s`, in order
      (a loop that appends zero or more items per input element). */
  function FlatMap<A, B>(s: seq<A>, f: A -> seq<B>): (r: seq<B>)
    decreases |s|
  {
    if s == [] then [] else FlatMap(s[..|s| - 1], f) + f(s[|s| - 1])
  }

  /** FlatMap handles each element on its own. */
  lemma {:induction false} FlatMapAppend<A, B>(s: seq<A>, t: seq<A>, f: A -> seq<B>)
    ensures FlatMap(s + t, f) == FlatMap(s, f) + FlatMap(t, f)
    decreases |t|
  {
    if t == [] {
      assert s + t == s;
    } else {
      var st := s + t;
      assert st[..|st| - 1] == s + t[..|t| - 1];
      FlatMapAppend(s, t[..|t| - 1], f);
    }
  }

  lemma FlatMapSingle<A, B>(a: A, f: A -> seq<B>)
    ensures FlatMap([a], f) == f(a)
  {
    assert [a][..0] == [];
  }

  /** When each element contributes at most one item, there are at most as
      many items as elements, and each comes from some element. */
  lemma {:induction false} FlatMapAtMostOne<A, B>(s: seq<A>, f: A -> seq<B>)
    requires forall a :: a in s ==> |f(a)| <= 1
    ensures |FlatMap(s, f)| <= |s|
    ensures forall b :: b in FlatMap(s, f) ==> exists a :: a in s && b in f(a)
    decreases |s|
  {
    if s != [] {
      var init := s[..|s| - 1];
      assert forall a :: a in init ==> a in s;
      FlatMapAtMostOne(init, f);
      assert s[|s| - 1] in s;
    }
  }

  /** `x` keeps the order of `y` and takes some of its elements. */
  predicate IsSubsequence<T(==)>(x: seq<T>, y: seq<T>)
    decreases |y|
  {
    x == [] || (y != [] && ((x[0] == y[0] && IsSubsequence(x[1..], y[1..])) || IsSubsequence(x, y[1..])))
  }
}
