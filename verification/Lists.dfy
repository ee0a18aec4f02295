/** Lists without repetition, and the byte-wise order of strings. */
module Lists {

  function Elements<T>(s: seq<T>): set<T> {
    set x | x in s
  }

  ghost predicate NoDuplicates<T>(s: seq<T>) {
    forall i, j :: 0 <= i < j < |s| ==> s[i] != s[j]
  }

  lemma {:induction false} CountsAtMostOne<T>(s: seq<T>, x: T)
    requires NoDuplicates(s)
    ensures multiset(s)[x] <= 1
  {
    if s != [] {
      var rest := s[..|s| - 1];
      assert s == rest + [s[|s| - 1]];
      CountsAtMostOne(rest, x);
      assert s[|s| - 1] !in rest;
    }
  }

  lemma {:induction false} PermutationDistinct<T>(s: seq<T>, r: seq<T>)
    requires NoDuplicates(s) && multiset(r) <= multiset(s)
    ensures NoDuplicates(r)
  {
    if r != [] {
      var rest, x := r[..|r| - 1], r[|r| - 1];
      assert r == rest + [x];
      assert multiset(r) == multiset(rest) + multiset{x};
      PermutationDistinct(s, rest);
      CountsAtMostOne(s, x);
      assert x !in multiset(rest);
    }
  }

  // ----- keeping first occurrences

  /** The list with every later repetition of an element dropped. */
  function FirstOccurrences<T(==)>(s: seq<T>): (r: seq<T>)
    ensures Elements(r) == Elements(s)
  {
    if s == [] then [] else
      var rest, x := s[..|s| - 1], s[|s| - 1];
      var r := FirstOccurrences(rest);
      assert Elements(s) == Elements(rest) + {x} by { assert s == rest + [x]; }
      assert Elements(r + [x]) == Elements(r) + {x};
      if x in rest then r else r + [x]
  }

  // ----- the order of strings

  predicate Leq(a: string, b: string) {
    a == [] || (b != [] && (a[0] < b[0] || (a[0] == b[0] && Leq(a[1..], b[1..]))))
  }

  lemma {:induction false} LeqTotal(a: string, b: string)
    ensures Leq(a, b) || Leq(b, a)
  {
    if a != [] && b != [] {
      LeqTotal(a[1..], b[1..]);
    }
  }

  lemma {:induction false} LeqAntisymmetric(a: string, b: string)
    requires Leq(a, b) && Leq(b, a)
    ensures a == b
  {
    if a != [] && b != [] {
      LeqAntisymmetric(a[1..], b[1..]);
      assert a == [a[0]] + a[1..] && b == [b[0]] + b[1..];
    }
  }

  lemma {:induction false} LeqTransitive(a: string, b: string, c: string)
    requires Leq(a, b) && Leq(b, c)
    ensures Leq(a, c)
  {
    if a != [] && a[0] == b[0] == c[0] {
      LeqTransitive(a[1..], b[1..], c[1..]);
    }
  }

  predicate Below(a: string, b: string) {
    a != b && Leq(a, b)
  }

  // ----- strictly sorted lists

  ghost predicate StrictlySorted(s: seq<string>) {
    forall i, j :: 0 <= i < j < |s| ==> Below(s[i], s[j])
  }

  /** A set of strings has only one strictly sorted list. */
  lemma {:induction false} SortedUnique(a: seq<string>, b: seq<string>)
    requires StrictlySorted(a) && StrictlySorted(b) && Elements(a) == Elements(b)
    ensures a == b
  {
    if a == [] || b == [] {
      EmptyElements(a);
      EmptyElements(b);
    } else {
      LeastFirst(a, b);
      LeastFirst(b, a);
      LeqAntisymmetric(a[0], b[0]);
      assert Elements(a[1..]) == Elements(a) - {a[0]} by { TailElements(a); }
      assert Elements(b[1..]) == Elements(b) - {b[0]} by { TailElements(b); }
      SortedUnique(a[1..], b[1..]);
      assert a == [a[0]] + a[1..] && b == [b[0]] + b[1..];
    }
  }

  lemma {:induction false} EmptyElements(a: seq<string>)
    ensures a == [] <==> Elements(a) == {}
  {
    if a != [] {
      assert a[0] in Elements(a);
    }
  }

  lemma {:induction false} LeastFirst(a: seq<string>, b: seq<string>)
    requires StrictlySorted(a) && a != [] && b != [] && Elements(a) == Elements(b)
    ensures Leq(a[0], b[0])
  {
    assert b[0] in Elements(b);
    var i :| 0 <= i < |a| && a[i] == b[0];
    LeqTotal(a[0], a[0]);
  }

  lemma TailElements(a: seq<string>)
    requires StrictlySorted(a) && a != []
    ensures Elements(a[1..]) == Elements(a) - {a[0]}
  {
  }

  lemma {:induction false} Least(s: set<string>) returns (m: string)
    requires s != {}
    ensures m in s && forall x :: x in s ==> Leq(m, x)
  {
    var x0 :| x0 in s;
    var rest := s - {x0};
    LeqTotal(x0, x0);
    if rest == {} {
      m := x0;
      assert forall x :: x in s ==> x == x0 by { assert forall x :: x in s && x != x0 ==> x in rest; }
    } else {
      var n := Least(rest);
      LeqTotal(x0, n);
      m := if Leq(x0, n) then x0 else n;
      forall x | x in s
        ensures Leq(m, x)
      {
        if x != x0 {
          assert x in rest;
          if Leq(x0, n) { LeqTransitive(x0, n, x); }
        }
      }
    }
  }

  /** The strictly sorted list of a set. */
  ghost function SortedList(s: set<string>): (r: seq<string>)
    ensures StrictlySorted(r)
    ensures Elements(r) == s
  {
    if s == {} then [] else
      assert exists m :: m in s && forall x :: x in s ==> Leq(m, x) by { var m := Least(s); }
      var m :| m in s && forall x :: x in s ==> Leq(m, x);
      var r := SortedList(s - {m});
      assert forall x :: x in r ==> x in Elements(r);
      assert Elements([m] + r) == {m} + Elements(r);
      [m] + r
  }

  // ----- sorting, as the standard library's sort package does

  ghost predicate SortedBy<T>(s: seq<T>, key: T -> string) {
    forall i, j :: 0 <= i < j < |s| ==> Leq(key(s[i]), key(s[j]))
  }

  function Insert<T>(x: T, s: seq<T>, key: T -> string): (r: seq<T>)
    ensures multiset(r) == multiset{x} + multiset(s)
  {
    if s == [] then [x]
    else if Leq(key(x), key(s[0])) then
      assert multiset([x] + s) == multiset{x} + multiset(s);
      [x] + s
    else
      assert s == [s[0]] + s[1..];
      [s[0]] + Insert(x, s[1..], key)
  }

  function Sort<T>(s: seq<T>, key: T -> string): (r: seq<T>)
    ensures multiset(r) == multiset(s)
  {
    if s == [] then [] else
      assert s == [s[0]] + s[1..];
      Insert(s[0], Sort(s[1..], key), key)
  }

  lemma {:induction false} InsertSorted<T>(x: T, s: seq<T>, key: T -> string)
    requires SortedBy(s, key)
    ensures SortedBy(Insert(x, s, key), key)
  {
    LeqTotal(key(x), key(x));
    if s != [] {
      LeqTotal(key(x), key(s[0]));
      if Leq(key(x), key(s[0])) {
        forall j | 0 <= j < |s|
          ensures Leq(key(x), key(s[j]))
        {
          if j > 0 { LeqTransitive(key(x), key(s[0]), key(s[j])); }
        }
      } else {
        InsertSorted(x, s[1..], key);
        var r := Insert(x, s[1..], key);
        forall j | 0 <= j < |r|
          ensures Leq(key(s[0]), key(r[j]))
        {
          assert r[j] in multiset(r);
          if r[j] != x {
            assert r[j] in s[1..];
          }
        }
      }
    }
  }

  lemma {:induction false} SortSorts<T>(s: seq<T>, key: T -> string)
    ensures SortedBy(Sort(s, key), key)
  {
    if s != [] {
      SortSorts(s[1..], key);
      InsertSorted(s[0], Sort(s[1..], key), key);
    }
  }
}
