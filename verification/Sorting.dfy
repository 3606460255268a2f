/**
 * `sort.Slice`, `sort.Strings` and `sort.Ints`: the result is some sorted permutation of the input.
 * When no two elements tie, that permutation is unique, so everything computed from it is too.
 */
module Sorting {
  import Text

  /** A strict weak order, as `sort.Slice` asks of its comparison. */
  ghost predicate StrictOrder<T(!new)>(lt: (T, T) -> bool) {
    && (forall a :: !lt(a, a))
    && (forall a, b, c :: lt(a, b) && lt(b, c) ==> lt(a, c))
    && (forall a, b, c :: lt(a, c) ==> lt(a, b) || lt(b, c))
  }

  ghost predicate Sorted<T(!new)>(lt: (T, T) -> bool, s: seq<T>) {
    forall i, j :: 0 <= i < j < |s| ==> !lt(s[j], s[i])
  }

  ghost predicate StrictlySorted<T(!new)>(lt: (T, T) -> bool, s: seq<T>) {
    forall i, j :: 0 <= i < j < |s| ==> lt(s[i], s[j])
  }

  function Insert<T>(lt: (T, T) -> bool, x: T, s: seq<T>): seq<T> {
    if s == [] then [x]
    else if lt(s[0], x) then [s[0]] + Insert(lt, x, s[1..])
    else [x] + s
  }

  function Sort<T>(lt: (T, T) -> bool, s: seq<T>): seq<T> {
    if s == [] then [] else Insert(lt, s[0], Sort(lt, s[1..]))
  }

  lemma {:induction false} InsertElements<T(!new)>(lt: (T, T) -> bool, x: T, s: seq<T>)
    ensures multiset(Insert(lt, x, s)) == multiset(s) + multiset{x}
  {
    if s != [] {
      assert s == [s[0]] + s[1..];
      InsertElements(lt, x, s[1..]);
    }
  }

  lemma SortedCons<T(!new)>(lt: (T, T) -> bool, x: T, s: seq<T>)
    requires Sorted(lt, s)
    requires forall y :: y in s ==> !lt(y, x)
    ensures Sorted(lt, [x] + s)
  {
  }

  lemma {:induction false} InsertSorted<T(!new)>(lt: (T, T) -> bool, x: T, s: seq<T>)
    requires StrictOrder(lt) && Sorted(lt, s)
    ensures Sorted(lt, Insert(lt, x, s))
  {
    if s != [] {
      if lt(s[0], x) {
        InsertSorted(lt, x, s[1..]);
        InsertElements(lt, x, s[1..]);
        var r := Insert(lt, x, s[1..]);
        forall y | y in r ensures !lt(y, s[0]) {
          assert y in multiset(r);
        }
        SortedCons(lt, s[0], r);
      } else {
        SortedCons(lt, x, s);
      }
    }
  }

  lemma {:induction false} SortSorts<T(!new)>(lt: (T, T) -> bool, s: seq<T>)
    requires StrictOrder(lt)
    ensures Sorted(lt, Sort(lt, s))
    ensures multiset(Sort(lt, s)) == multiset(s)
    ensures |Sort(lt, s)| == |s|
  {
    if s != [] {
      SortSorts(lt, s[1..]);
      InsertSorted(lt, s[0], Sort(lt, s[1..]));
      InsertElements(lt, s[0], Sort(lt, s[1..]));
      assert s == [s[0]] + s[1..];
    }
    assert |multiset(Sort(lt, s))| == |multiset(s)|;
  }

  /** Two strictly sorted sequences with the same elements are the same sequence. */
  lemma {:induction false} StrictlySortedUnique<T(!new)>(lt: (T, T) -> bool, s: seq<T>, t: seq<T>)
    requires StrictOrder(lt) && StrictlySorted(lt, s) && StrictlySorted(lt, t)
    requires forall x :: x in s <==> x in t
    ensures s == t
  {
    assert |t| > 0 ==> t[0] in s;
    if s != [] {
      assert s[0] in t;
      assert t[0] in s;
      assert s[0] == t[0];
      forall x ensures x in s[1..] <==> x in t[1..] {
        TailMembership(lt, s, x);
        TailMembership(lt, t, x);
      }
      StrictlySortedUnique(lt, s[1..], t[1..]);
      assert s == [s[0]] + s[1..] && t == [t[0]] + t[1..];
    }
  }

  lemma TailMembership<T(!new)>(lt: (T, T) -> bool, s: seq<T>, x: T)
    requires StrictOrder(lt) && StrictlySorted(lt, s) && s != []
    ensures x in s[1..] <==> x in s && x != s[0]
  {
    assert s == [s[0]] + s[1..];
    if x in s[1..] {
      var i :| 0 <= i < |s[1..]| && s[1..][i] == x;
      assert lt(s[0], s[i + 1]);
    }
  }

  lemma AnElement<T(!new)>(s: set<T>) returns (x: T)
    requires s != {}
    ensures x in s
  {
    x :| x in s;
  }

  predicate NoDuplicates<T(==)>(s: seq<T>) {
    forall i, j :: 0 <= i < j < |s| ==> s[i] != s[j]
  }

  /** A sorted sequence whose elements are pairwise comparable is strictly sorted. */
  lemma SortedDistinct<T(!new)>(lt: (T, T) -> bool, s: seq<T>)
    requires StrictOrder(lt) && Sorted(lt, s) && NoDuplicates(s)
    requires forall x, y :: x in s && y in s && x != y ==> lt(x, y) || lt(y, x)
    ensures StrictlySorted(lt, s)
  {
  }

  /** Multiset equality carries over membership and distinctness. */
  lemma SameElements<T(!new)>(s: seq<T>, t: seq<T>)
    requires multiset(s) == multiset(t)
    ensures |s| == |t|
    ensures forall x :: x in s <==> x in t
    ensures NoDuplicates(s) ==> NoDuplicates(t)
  {
    assert |multiset(s)| == |multiset(t)|;
    forall x ensures x in s <==> x in t {
      assert x in s <==> x in multiset(s);
      assert x in t <==> x in multiset(t);
    }
    if NoDuplicates(s) && !NoDuplicates(t) {
      var i, j :| 0 <= i < j < |t| && t[i] == t[j];
      TwiceCounted(t, i, j);
      OnceCounted(s, t[i]);
    }
  }

  lemma TwiceCounted<T>(t: seq<T>, i: nat, j: nat)
    requires i < j < |t| && t[i] == t[j]
    ensures multiset(t)[t[i]] >= 2
  {
    assert t == t[..j] + [t[j]] + t[j + 1..];
    assert t[..j][i] in multiset(t[..j]);
  }

  lemma {:induction false} OnceCounted<T>(s: seq<T>, x: T)
    requires NoDuplicates(s)
    ensures multiset(s)[x] <= 1
  {
    if s != [] {
      assert s == [s[0]] + s[1..];
      OnceCounted(s[1..], x);
      assert s[0] !in s[1..];
    }
  }

  ghost predicate TotalOrder<T(!new)>(lt: (T, T) -> bool) {
    StrictOrder(lt) && forall a, b :: a == b || lt(a, b) || lt(b, a)
  }

  /** Under a total order sorting is canonical, even with repeated elements. */
  lemma {:induction false} SortedUnique<T(!new)>(lt: (T, T) -> bool, s: seq<T>, t: seq<T>)
    requires TotalOrder(lt) && Sorted(lt, s) && Sorted(lt, t) && multiset(s) == multiset(t)
    ensures s == t
  {
    if s == [] {
      assert |multiset(t)| == 0;
    } else {
      assert |multiset(t)| == |s|;
      SameHead(lt, s, t);
      SameTail(s, t);
      SortedUnique(lt, s[1..], t[1..]);
      assert s == [s[0]] + s[1..] && t == [t[0]] + t[1..];
    }
  }

  lemma SameTail<T>(s: seq<T>, t: seq<T>)
    requires s != [] && t != [] && s[0] == t[0] && multiset(s) == multiset(t)
    ensures multiset(s[1..]) == multiset(t[1..])
  {
    assert s == [s[0]] + s[1..] && t == [t[0]] + t[1..];
    assert multiset(s[1..]) == multiset(s) - multiset{s[0]};
    assert multiset(t[1..]) == multiset(t) - multiset{t[0]};
  }

  lemma SameHead<T(!new)>(lt: (T, T) -> bool, s: seq<T>, t: seq<T>)
    requires s != [] && t != [] && multiset(s) == multiset(t)
    requires TotalOrder(lt) && Sorted(lt, s) && Sorted(lt, t)
    ensures s[0] == t[0]
  {
    assert s[0] in multiset(t) && t[0] in multiset(s);
    var i :| 0 <= i < |t| && t[i] == s[0];
    var j :| 0 <= j < |s| && s[j] == t[0];
    assert i == 0 || !lt(t[i], t[0]);
    assert j == 0 || !lt(s[j], s[0]);
  }

  /** Go's string order is a total order. */
  lemma LessIsTotal()
    ensures TotalOrder(Text.Less)
  {
    forall a ensures !Text.Less(a, a) { Text.LessIrreflexive(a); }
    forall a, b ensures a == b || Text.Less(a, b) || Text.Less(b, a) { Text.LessTotal(a, b); }
    forall a, b, c | Text.Less(a, b) && Text.Less(b, c) ensures Text.Less(a, c) { Text.LessTransitive(a, b, c); }
    forall a, b, c | Text.Less(a, c) ensures Text.Less(a, b) || Text.Less(b, c) {
      Text.LessTotal(a, b);
      if Text.Less(b, a) { Text.LessTransitive(b, a, c); }
    }
  }

  /** Sorting distinct strings leaves them strictly increasing. */
  lemma SortDistinctStrings(s: seq<string>, t: seq<string>)
    requires NoDuplicates(s) && Sorted(Text.Less, t) && multiset(t) == multiset(s)
    ensures StrictlySorted(Text.Less, t)
    ensures forall x :: x in t <==> x in s
  {
    LessIsTotal();
    SameElements(s, t);
    SortedDistinct(Text.Less, t);
  }

  lemma {:induction false} SortedElementsExist(elements: set<string>) returns (r: seq<string>)
    ensures StrictlySorted(Text.Less, r)
    ensures forall x :: x in r <==> x in elements
  {
    if elements == {} {
      r := [];
    } else {
      var x :| x in elements;
      var rest := SortedElementsExist(elements - {x});
      r := Sort(Text.Less, [x] + rest);
      LessIsTotal();
      SortSorts(Text.Less, [x] + rest);
      SortDistinctStrings([x] + rest, r);
    }
  }

  /** The elements of a set of strings in Go's order. */
  ghost function SortedElements(elements: set<string>): (r: seq<string>)
    ensures StrictlySorted(Text.Less, r)
    ensures forall x :: x in r <==> x in elements
  {
    SortedElementsWitness(elements);
    var r :| StrictlySorted(Text.Less, r) && forall x :: x in r <==> x in elements;
    r
  }

  lemma SortedElementsWitness(elements: set<string>)
    ensures exists r :: StrictlySorted(Text.Less, r) && forall x :: x in r <==> x in elements
  {
    var r := SortedElementsExist(elements);
  }

  /** The names of a set in Go's order, from a walk over them in any order. */
  method SortedNames(names: set<string>) returns (sorted: seq<string>)
    ensures sorted == SortedElements(names)
    ensures NoDuplicates(sorted) && forall n :: n in sorted <==> n in names
  {
    hide Text.Less;
    var walk := AnyOrder(names);
    LessIsTotal();
    sorted := SortSlice(Text.Less, walk);
    SortDistinctStrings(walk, sorted);
    StrictlySortedUnique(Text.Less, sorted, SortedElements(names));
  }

  /** `sort.Slice`: only the order of the result is promised, not stability. */
  method SortSlice<T(!new)>(lt: (T, T) -> bool, s: seq<T>) returns (r: seq<T>)
    requires StrictOrder(lt)
    ensures Sorted(lt, r) && multiset(r) == multiset(s)
  {
    SortSorts(lt, s);
    r := Sort(lt, s);
  }

  /**
   * The order in which Go walks the elements of a set or the keys of a map: any order, each element once.
   */
  method AnyOrder<T(!new, ==)>(elements: set<T>) returns (walk: seq<T>)
    ensures NoDuplicates(walk)
    ensures forall x :: x in walk <==> x in elements
  {
    walk := [];
    var rest := elements;
    while rest != {}
      invariant rest <= elements
      invariant NoDuplicates(walk)
      invariant forall x :: x in walk <==> x in elements - rest
      decreases rest
    {
      var x :| x in rest;
      assert x !in walk;
      walk := walk + [x];
      rest := rest - {x};
    }
  }
}
