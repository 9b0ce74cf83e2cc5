/** An optional value: JavaScript's `undefined` stands for `None`. */
module Wrappers {

  datatype Option<+T> = None | Some(value: T)
}

/**
 * The JavaScript array methods the command-line runner composes
 * (`filter`, `map`, `reduce`, `concat`, `every`), as functions on sequences.
 */
module ArrayOps {

  /** `s.map(f)` */
  function Map<T, U>(s: seq<T>, f: T -> U): (r: seq<U>)
    ensures |r| == |s|
    ensures forall i :: 0 <= i < |s| ==> r[i] == f(s[i])
  {
    seq(|s|, i requires 0 <= i < |s| => f(s[i]))
  }

  /** `s.filter(p)`: the elements that satisfy `p`, in their original order. */
  function Filter<T>(s: seq<T>, p: T -> bool): (r: seq<T>)
    ensures |r| <= |s|
    ensures forall x :: x in r ==> x in s && p(x)
  {
    if s == [] then [] else (if p(s[0]) then [s[0]] else []) + Filter(s[1..], p)
  }

  /** `s.reduce(f, init)`: a left fold. */
  function Reduce<T, A>(s: seq<T>, f: (A, T) -> A, init: A): A
  {
    if s == [] then init else Reduce(s[1..], f, f(init, s[0]))
  }

  /** The step `(r, fs) => r.concat(fs)` of a reduce that flattens a list of arrays. */
  function Concat<T>(r: seq<T>, fs: seq<T>): seq<T>
  {
    r + fs
  }

  /** `s.every(p)`; short-circuiting does not change the value. */
  function Every<T>(s: seq<T>, p: T -> bool): bool
  {
    s == [] || (p(s[0]) && Every(s[1..], p))
  }

  /** Reference definition of flattening: the lists one after the other. */
  function Flatten<T>(lists: seq<seq<T>>): seq<T>
  {
    if lists == [] then [] else lists[0] + Flatten(lists[1..])
  }

  lemma MapAppend<T, U>(a: seq<T>, b: seq<T>, f: T -> U)
    ensures Map(a + b, f) == Map(a, f) + Map(b, f)
  {
    assert forall i :: 0 <= i < |a + b| ==> Map(a + b, f)[i] == (Map(a, f) + Map(b, f))[i];
  }

  /** Filtering distributes over concatenation: the relative order of the kept elements is the input's. */
  lemma {:induction false} FilterAppend<T>(a: seq<T>, b: seq<T>, p: T -> bool)
    ensures Filter(a + b, p) == Filter(a, p) + Filter(b, p)
  {
    if a == [] {
      assert a + b == b;
    } else {
      assert (a + b)[1..] == a[1..] + b;
      FilterAppend(a[1..], b, p);
    }
  }

  /** An element is kept exactly when it occurs in the input and satisfies the predicate. */
  lemma {:induction false} FilterMembership<T>(s: seq<T>, p: T -> bool, x: T)
    ensures x in Filter(s, p) <==> x in s && p(x)
  {
    if s != [] {
      FilterMembership(s[1..], p, x);
      assert s == [s[0]] + s[1..];
    }
  }

  /** `every` holds exactly when the predicate holds at every index, vacuously so for `[]`. */
  lemma {:induction false} EveryIff<T>(s: seq<T>, p: T -> bool)
    ensures Every(s, p) <==> forall i :: 0 <= i < |s| ==> p(s[i])
  {
    if s != [] {
      EveryIff(s[1..], p);
      assert forall i :: 1 <= i < |s| ==> s[i] == s[1..][i - 1];
    }
  }

  /** Reducing with `concat` from an accumulator appends the flattened lists, in order. */
  lemma {:induction false} ReduceConcat<T>(lists: seq<seq<T>>, acc: seq<T>)
    ensures Reduce(lists, Concat, acc) == acc + Flatten(lists)
  {
    if lists != [] {
      ReduceConcat(lists[1..], Concat(acc, lists[0]));
      assert acc + lists[0] + Flatten(lists[1..]) == acc + (lists[0] + Flatten(lists[1..]));
    }
  }
}
