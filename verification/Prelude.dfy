/** Types and sequence helpers shared by the models. */
module Prelude {
  datatype Option<+T> = None | Some(value: T)

  datatype Result<+T, +E> = Ok(value: T) | Err(error: E)

  /** The elements of `s` that satisfy `p`, in order. */
  function Filter<T(!new)>(s: seq<T>, p: T -> bool): (r: seq<T>)
    ensures forall x :: x in r <==> x in s && p(x)
    ensures |r| <= |s|
  {
    if s == [] then [] else (if p(s[0]) then [s[0]] else []) + Filter(s[1..], p)
  }

  lemma {:induction false} FilterConcat<T(!new)>(a: seq<T>, b: seq<T>, p: T -> bool)
    ensures Filter(a + b, p) == Filter(a, p) + Filter(b, p)
  {
    if a == [] {
      assert a + b == b;
    } else {
      assert (a + b)[1..] == a[1..] + b;
      FilterConcat(a[1..], b, p);
    }
  }

  lemma FilterSnoc<T(!new)>(s: seq<T>, x: T, p: T -> bool)
    ensures Filter(s + [x], p) == Filter(s, p) + if p(x) then [x] else []
  {
    FilterConcat(s, [x], p);
  }

  lemma {:induction false} FilterSame<T(!new)>(s: seq<T>, p: T -> bool, q: T -> bool)
    requires forall x :: x in s ==> p(x) == q(x)
    ensures Filter(s, p) == Filter(s, q)
  {
    if s != [] {
      assert s[0] in s;
      FilterSame(s[1..], p, q);
    }
  }

  lemma {:induction false} FilterAll<T(!new)>(s: seq<T>, p: T -> bool)
    requires forall x :: x in s ==> p(x)
    ensures Filter(s, p) == s
  {
    if s != [] {
      FilterAll(s[1..], p);
    }
  }

  lemma {:induction false} FilterNone<T(!new)>(s: seq<T>, p: T -> bool)
    requires forall x :: x in s ==> !p(x)
    ensures Filter(s, p) == []
  {
    if s != [] {
      FilterNone(s[1..], p);
    }
  }

  ghost predicate Pairwise<T(!new)>(s: seq<T>, r: (T, T) -> bool) {
    forall i, j :: 0 <= i < j < |s| ==> r(s[i], s[j])
  }

  /** A selection keeps what holds of every element and each later one. */
  lemma {:induction false} FilterPairwise<T(!new)>(s: seq<T>, p: T -> bool, r: (T, T) -> bool)
    requires Pairwise(s, r)
    ensures Pairwise(Filter(s, p), r)
  {
    if s != [] {
      FilterPairwise(s[1..], p, r);
      var rest := Filter(s[1..], p);
      forall j | 0 <= j < |rest| ensures r(s[0], rest[j]) {
        assert rest[j] in rest;
        var k :| 0 <= k < |s[1..]| && s[1..][k] == rest[j];
        assert s[k + 1] == rest[j];
      }
    }
  }

  function FlatMap<A, B>(s: seq<A>, f: A -> seq<B>): seq<B> {
    if s == [] then [] else FlatMap(s[..|s| - 1], f) + f(s[|s| - 1])
  }

  lemma {:induction false} InFlatMap<A, B>(s: seq<A>, f: A -> seq<B>, b: B)
    ensures b in FlatMap(s, f) <==> exists i :: 0 <= i < |s| && b in f(s[i])
  {
    if s != [] {
      var n := |s| - 1;
      InFlatMap(s[..n], f, b);
      if i :| 0 <= i < |s| && b in f(s[i]) {
        assert i < n ==> s[..n][i] == s[i];
      }
    }
  }

  /** How many elements satisfy `p`. */
  function Tally<T>(s: seq<T>, p: T -> bool): nat {
    if s == [] then 0 else Tally(s[..|s| - 1], p) + if p(s[|s| - 1]) then 1 else 0
  }

  lemma {:induction false} TallyConcat<T>(a: seq<T>, b: seq<T>, p: T -> bool)
    ensures Tally(a + b, p) == Tally(a, p) + Tally(b, p)
  {
    if b == [] {
      assert a + b == a;
    } else {
      assert (a + b)[..|a + b| - 1] == a + b[..|b| - 1];
      TallyConcat(a, b[..|b| - 1], p);
    }
  }

  lemma {:induction false} TallyAllIff<T>(s: seq<T>, p: T -> bool)
    ensures Tally(s, p) <= |s|
    ensures Tally(s, p) == |s| <==> forall i :: 0 <= i < |s| ==> p(s[i])
    ensures Tally(s, p) == 0 <==> forall i :: 0 <= i < |s| ==> !p(s[i])
  {
    if s != [] {
      TallyAllIff(s[..|s| - 1], p);
    }
  }

  /** When `p` holds of a prefix only, the tally is the length of the prefix. */
  lemma {:induction false} TallyPrefix<T>(s: seq<T>, p: T -> bool)
    requires forall i, j :: 0 <= i < j < |s| && p(s[j]) ==> p(s[i])
    ensures Tally(s, p) <= |s| && forall i :: 0 <= i < |s| ==> (p(s[i]) <==> i < Tally(s, p))
  {
    TallyAllIff(s, p);
    if s != [] {
      TallyPrefix(s[..|s| - 1], p);
    }
  }

  /** No element occurs at two positions. */
  predicate Distinct<T(==)>(s: seq<T>) {
    forall i, j :: 0 <= i < j < |s| ==> s[i] != s[j]
  }

  /** A distinct sequence of elements of a finite set is no longer than the set. */
  lemma {:induction false} DistinctLength<T(!new)>(s: seq<T>, elems: set<T>)
    requires Distinct(s)
    requires forall x :: x in s <==> x in elems
    ensures |s| == |elems|
  {
    if s == [] {
      assert elems == {};
    } else {
      assert s[0] in elems;
      forall x ensures x in s[1..] <==> x in elems - {s[0]} {
        if x in elems - {s[0]} {
          assert x in s;
        }
      }
      DistinctLength(s[1..], elems - {s[0]});
    }
  }

  /** A text up to its first separator determines both parts. */
  lemma SplitAt(sep: char, a: string, x: string, b: string, y: string)
    requires sep !in a && sep !in b && a + [sep] + x == b + [sep] + y
    ensures a == b && x == y
  {
    var s := a + [sep] + x;
    assert s[|a|] == sep && s[|b|] == sep;
    assert forall i :: 0 <= i < |a| ==> s[i] == a[i];
    assert forall i :: 0 <= i < |b| ==> s[i] == b[i];
    assert a == s[..|a|] && b == s[..|b|];
    assert x == s[|a| + 1..] && y == s[|b| + 1..];
  }

  lemma SplitAtBar(a: string, x: string, b: string, y: string)
    requires '|' !in a && '|' !in b && a + "|" + x == b + "|" + y
    ensures a == b && x == y
  {
    SplitAt('|', a, x, b, y);
  }
}
