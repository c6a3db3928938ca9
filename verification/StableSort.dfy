/** Array.prototype.sort: the stable sort, what determines it, and two of them in a row. */
module StableSort {

  ghost predicate TotalPreorder<T(!new)>(le: (T, T) -> bool) {
    && (forall a, b :: le(a, b) || le(b, a))
    && (forall a, b, c :: le(a, b) && le(b, c) ==> le(a, c))
  }

  predicate Equivalent<T>(le: (T, T) -> bool, a: T, b: T) {
    le(a, b) && le(b, a)
  }

  predicate Sorted<T>(le: (T, T) -> bool, s: seq<T>) {
    forall i, j | 0 <= i < j < |s| :: le(s[i], s[j])
  }

  /** The elements of `s` equivalent to `x`, in their order. */
  function Class<T>(le: (T, T) -> bool, x: T, s: seq<T>): seq<T> {
    if s == [] then []
    else if Equivalent(le, x, s[0]) then [s[0]] + Class(le, x, s[1..])
    else Class(le, x, s[1..])
  }

  function Insert<T>(le: (T, T) -> bool, x: T, s: seq<T>): seq<T> {
    if s == [] || le(x, s[0]) then [x] + s else [s[0]] + Insert(le, x, s[1..])
  }

  function Sort<T>(le: (T, T) -> bool, s: seq<T>): seq<T> {
    if s == [] then [] else Insert(le, s[0], Sort(le, s[1..]))
  }

  lemma ConsSorted<T>(le: (T, T) -> bool, x: T, s: seq<T>)
    requires Sorted(le, s) && forall y | y in s :: le(x, y)
    ensures Sorted(le, [x] + s)
  {
  }

  lemma {:induction false} InsertMembers<T>(le: (T, T) -> bool, x: T, s: seq<T>)
    ensures multiset(Insert(le, x, s)) == multiset(s) + multiset{x}
    decreases |s|
  {
    if s != [] && !le(x, s[0]) {
      InsertMembers(le, x, s[1..]);
      assert s == [s[0]] + s[1..];
    }
  }

  lemma {:induction false} InsertKeepsSorted<T(!new)>(le: (T, T) -> bool, x: T, s: seq<T>)
    requires TotalPreorder(le) && Sorted(le, s)
    ensures Sorted(le, Insert(le, x, s))
    decreases |s|
  {
    if s == [] || le(x, s[0]) {
      forall y | y in s ensures le(x, y) {
        var j :| 0 <= j < |s| && s[j] == y;
        assert j > 0 ==> le(s[0], s[j]);
      }
      ConsSorted(le, x, s);
    } else {
      InsertKeepsSorted(le, x, s[1..]);
      InsertMembers(le, x, s[1..]);
      forall y | y in Insert(le, x, s[1..]) ensures le(s[0], y) {
        assert y in multiset(Insert(le, x, s[1..]));
        assert y == x || y in s[1..];
      }
      ConsSorted(le, s[0], Insert(le, x, s[1..]));
    }
  }

  lemma ClassCons<T>(le: (T, T) -> bool, y: T, x: T, s: seq<T>)
    ensures Class(le, y, [x] + s) == if Equivalent(le, y, x) then [x] + Class(le, y, s) else Class(le, y, s)
  {
    assert ([x] + s)[1..] == s;
  }

  lemma {:induction false} InsertIsStable<T(!new)>(le: (T, T) -> bool, y: T, x: T, s: seq<T>)
    requires TotalPreorder(le)
    ensures Class(le, y, Insert(le, x, s)) == if Equivalent(le, y, x) then [x] + Class(le, y, s) else Class(le, y, s)
    decreases |s|
  {
    if s == [] || le(x, s[0]) {
      ClassCons(le, y, x, s);
    } else {
      InsertIsStable(le, y, x, s[1..]);
      ClassCons(le, y, s[0], Insert(le, x, s[1..]));
    }
  }

  lemma {:induction false} SortIsSorted<T(!new)>(le: (T, T) -> bool, s: seq<T>)
    requires TotalPreorder(le)
    ensures Sorted(le, Sort(le, s)) && multiset(Sort(le, s)) == multiset(s)
    decreases |s|
  {
    if s != [] {
      SortIsSorted(le, s[1..]);
      InsertKeepsSorted(le, s[0], Sort(le, s[1..]));
      InsertMembers(le, s[0], Sort(le, s[1..]));
      assert s == [s[0]] + s[1..];
    }
  }

  lemma {:induction false} SortIsStable<T(!new)>(le: (T, T) -> bool, y: T, s: seq<T>)
    requires TotalPreorder(le)
    ensures Class(le, y, Sort(le, s)) == Class(le, y, s)
    decreases |s|
  {
    if s != [] {
      SortIsStable(le, y, s[1..]);
      InsertIsStable(le, y, s[0], Sort(le, s[1..]));
    }
  }

  lemma {:induction false} ClassMembers<T(!new)>(le: (T, T) -> bool, x: T, s: seq<T>)
    ensures forall y :: y in Class(le, x, s) <==> y in s && Equivalent(le, x, y)
    decreases |s|
  {
    if s != [] {
      ClassMembers(le, x, s[1..]);
      assert s == [s[0]] + s[1..];
    }
  }

  /** Sorted sequences with the same classes are the same: stability leaves sort no choice. */
  lemma {:induction false} StableSortIsUnique<T(!new)>(le: (T, T) -> bool, r: seq<T>, t: seq<T>)
    requires TotalPreorder(le) && Sorted(le, r) && Sorted(le, t)
    requires forall x :: Class(le, x, r) == Class(le, x, t)
    ensures r == t
    decreases |r|
  {
    if r == [] {
      HeadHasClass(le, t);
    } else {
      SameHead(le, r, t);
      forall x ensures Class(le, x, r[1..]) == Class(le, x, t[1..]) {
        assert Class(le, x, r) == Class(le, x, t);
        if Equivalent(le, x, r[0]) {
          assert Class(le, x, r[1..]) == Class(le, x, r)[1..];
          assert Class(le, x, t[1..]) == Class(le, x, t)[1..];
        }
      }
      StableSortIsUnique(le, r[1..], t[1..]);
      assert r == [r[0]] + r[1..] && t == [t[0]] + t[1..];
    }
  }

  lemma HeadHasClass<T(!new)>(le: (T, T) -> bool, t: seq<T>)
    requires TotalPreorder(le)
    ensures t == [] || Class(le, t[0], t) != []
  {
  }

  lemma SameHead<T(!new)>(le: (T, T) -> bool, r: seq<T>, t: seq<T>)
    requires TotalPreorder(le) && Sorted(le, r) && Sorted(le, t) && r != []
    requires forall x :: Class(le, x, r) == Class(le, x, t)
    ensures t != [] && t[0] == r[0]
  {
    assert Equivalent(le, r[0], r[0]);
    assert Class(le, r[0], r)[0] == r[0];
    assert r[0] in Class(le, r[0], t);
    ClassMembers(le, r[0], t);
    assert r[0] in t;
    assert le(t[0], r[0]);
    assert Equivalent(le, t[0], t[0]);
    assert t[0] in Class(le, t[0], t);
    assert Class(le, t[0], r) == Class(le, t[0], t);
    ClassMembers(le, t[0], r);
    assert le(r[0], t[0]);
    assert Class(le, r[0], t)[0] == t[0];
  }

  // ----- one stable sort after another -----

  /** First by `major`, then by `minor`. */
  ghost predicate IsLexicographic<T(!new)>(lex: (T, T) -> bool, major: (T, T) -> bool, minor: (T, T) -> bool) {
    forall a, b :: lex(a, b) <==> major(a, b) && (major(b, a) ==> minor(a, b))
  }

  lemma {:induction false} ClassOfClass<T(!new)>(lex: (T, T) -> bool, major: (T, T) -> bool, minor: (T, T) -> bool,
    x: T, s: seq<T>)
    requires IsLexicographic(lex, major, minor)
    ensures Class(minor, x, Class(major, x, s)) == Class(lex, x, s)
    ensures Class(major, x, Class(minor, x, s)) == Class(lex, x, s)
    decreases |s|
  {
    if s != [] {
      ClassOfClass(lex, major, minor, x, s[1..]);
      assert Equivalent(lex, x, s[0]) <==> Equivalent(major, x, s[0]) && Equivalent(minor, x, s[0]);
      ClassCons(minor, x, s[0], Class(major, x, s[1..]));
      ClassCons(major, x, s[0], Class(minor, x, s[1..]));
    }
  }

  lemma {:induction false} ClassIsSorted<T(!new)>(le: (T, T) -> bool, key: (T, T) -> bool, x: T, s: seq<T>)
    requires Sorted(le, s)
    ensures Sorted(le, Class(key, x, s))
    decreases |s|
  {
    if s != [] {
      var rest := Class(key, x, s[1..]);
      ClassIsSorted(le, key, x, s[1..]);
      ClassMembers(key, x, s[1..]);
      forall y | y in rest ensures le(s[0], y) {
        assert y in Class(key, x, s[1..]) && y in s[1..];
        var j :| 0 <= j < |s[1..]| && s[1..][j] == y;
        assert s[j + 1] == y;
      }
      ConsSorted(le, s[0], rest);
    }
  }

  /** Within a class, the order of the class is the order of the sequence. */
  lemma {:induction false} SortedClassOrders<T(!new)>(le: (T, T) -> bool, key: (T, T) -> bool, x: T, s: seq<T>,
    i: nat, j: nat)
    requires Sorted(le, Class(key, x, s)) && i < j < |s| && Equivalent(key, x, s[i]) && Equivalent(key, x, s[j])
    ensures le(s[i], s[j])
    decreases |s|
  {
    var rest := Class(key, x, s[1..]);
    var whole := Class(key, x, s);
    if i == 0 {
      ClassMembers(key, x, s[1..]);
      assert s[j] == s[1..][j - 1];
      assert s[j] in rest;
      var k :| 0 <= k < |rest| && rest[k] == s[j];
      assert whole == [s[0]] + rest;
      assert whole[0] == s[0] && whole[k + 1] == s[j];
    } else {
      TailSorted(le, key, x, s);
      SortedClassOrders(le, key, x, s[1..], i - 1, j - 1);
    }
  }

  lemma TailSorted<T>(le: (T, T) -> bool, key: (T, T) -> bool, x: T, s: seq<T>)
    requires s != [] && Sorted(le, Class(key, x, s))
    ensures Sorted(le, Class(key, x, s[1..]))
  {
    var rest, whole := Class(key, x, s[1..]), Class(key, x, s);
    if Equivalent(key, x, s[0]) {
      assert forall i | 0 <= i < |rest| :: rest[i] == whole[i + 1];
    }
  }

  /** Sorting by `minor` and then, stably, by `major` is one sort by the combined order. */
  lemma SortsCompose<T(!new)>(lex: (T, T) -> bool, major: (T, T) -> bool, minor: (T, T) -> bool, s: seq<T>)
    requires TotalPreorder(lex) && TotalPreorder(major) && TotalPreorder(minor) && IsLexicographic(lex, major, minor)
    ensures Sort(major, Sort(minor, s)) == Sort(lex, s)
  {
    var m := Sort(minor, s);
    var r := Sort(major, m);
    SortIsSorted(minor, s);
    SortIsSorted(major, m);
    SortIsSorted(lex, s);
    forall i, j | 0 <= i < j < |r| ensures lex(r[i], r[j]) {
      if major(r[j], r[i]) {
        SortIsStable(major, r[i], m);
        ClassIsSorted(minor, major, r[i], m);
        SortedClassOrders(minor, major, r[i], r, i, j);
      }
    }
    forall x ensures Class(lex, x, r) == Class(lex, x, Sort(lex, s)) {
      ClassOfClass(lex, major, minor, x, r);
      SortIsStable(major, x, m);
      ClassOfClass(lex, major, minor, x, m);
      SortIsStable(minor, x, s);
      ClassOfClass(lex, major, minor, x, s);
      SortIsStable(lex, x, s);
    }
    StableSortIsUnique(lex, r, Sort(lex, s));
  }

  /** A sort asks its order about the members of the sequence only. */
  lemma {:induction false} SortUsesOnlyItsMembers<T(!new)>(le1: (T, T) -> bool, le2: (T, T) -> bool, s: seq<T>)
    requires forall a, b | a in s && b in s :: le1(a, b) == le2(a, b)
    ensures Sort(le1, s) == Sort(le2, s)
    decreases |s|
  {
    if s != [] {
      SortUsesOnlyItsMembers(le1, le2, s[1..]);
      forall y | y in Sort(le1, s[1..]) ensures y in s {
        SortMember(le1, s[1..], y);
      }
      InsertUsesOnlyItsMembers(le1, le2, s[0], Sort(le1, s[1..]));
    }
  }

  lemma {:induction false} SortMember<T>(le: (T, T) -> bool, s: seq<T>, y: T)
    requires y in Sort(le, s)
    ensures y in s
    decreases |s|
  {
    if s != [] {
      InsertMember(le, s[0], Sort(le, s[1..]), y);
      if y != s[0] {
        SortMember(le, s[1..], y);
      }
    }
  }

  lemma {:induction false} InsertMember<T>(le: (T, T) -> bool, x: T, s: seq<T>, y: T)
    requires y in Insert(le, x, s)
    ensures y == x || y in s
    decreases |s|
  {
    if s != [] && !le(x, s[0]) && y != s[0] {
      InsertMember(le, x, s[1..], y);
    }
  }

  lemma {:induction false} InsertUsesOnlyItsMembers<T>(le1: (T, T) -> bool, le2: (T, T) -> bool, x: T, s: seq<T>)
    requires forall y | y in s :: le1(x, y) == le2(x, y)
    ensures Insert(le1, x, s) == Insert(le2, x, s)
    decreases |s|
  {
    if s != [] {
      InsertUsesOnlyItsMembers(le1, le2, x, s[1..]);
    }
  }

  lemma SortOfPair<T(!new)>(le: (T, T) -> bool, a: T, b: T)
    ensures Sort(le, [a, b]) == if le(a, b) then [a, b] else [b, a]
  {
    assert [a, b][1..] == [b] && [b][1..] == [];
    assert Sort(le, [b]) == [b];
    assert Insert(le, a, []) == [a];
  }

  // ----- independence of the input order -----

  /** No two different members of `s` tie. */
  ghost predicate TieFree<T(!new)>(le: (T, T) -> bool, s: multiset<T>) {
    forall a, b | a in s && b in s && Equivalent(le, a, b) :: a == b
  }

  lemma {:induction false} SortedPermutationIsUnique<T(!new)>(le: (T, T) -> bool, r: seq<T>, t: seq<T>)
    requires TotalPreorder(le) && Sorted(le, r) && Sorted(le, t) && multiset(r) == multiset(t)
    requires TieFree(le, multiset(r))
    ensures r == t
    decreases |r|
  {
    assert |r| == |multiset(r)| == |multiset(t)| == |t|;
    if r != [] {
      SameSmallest(le, r, t);
      RemoveHead(r);
      RemoveHead(t);
      SortedPermutationIsUnique(le, r[1..], t[1..]);
    }
  }

  lemma SameSmallest<T(!new)>(le: (T, T) -> bool, r: seq<T>, t: seq<T>)
    requires TotalPreorder(le) && Sorted(le, r) && Sorted(le, t) && r != [] && t != []
    requires multiset(r) == multiset(t) && TieFree(le, multiset(r))
    ensures r[0] == t[0]
  {
    assert r[0] in multiset(t) && t[0] in multiset(r);
    SmallestFirst(le, r, t[0]);
    SmallestFirst(le, t, r[0]);
    assert Equivalent(le, r[0], t[0]);
  }

  lemma SmallestFirst<T(!new)>(le: (T, T) -> bool, s: seq<T>, y: T)
    requires TotalPreorder(le) && Sorted(le, s) && y in s
    ensures le(s[0], y)
  {
    var i :| 0 <= i < |s| && s[i] == y;
  }

  lemma RemoveHead<T>(s: seq<T>)
    requires s != []
    ensures s == [s[0]] + s[1..] && multiset(s[1..]) == multiset(s) - multiset{s[0]}
    ensures forall y | y in multiset(s[1..]) :: y in multiset(s)
  {
    assert s == [s[0]] + s[1..];
  }
}
