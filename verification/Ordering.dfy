/**
 Total orders and the standard library operations built on them: the stable sort, and the removal
 of adjacent duplicates from a sorted vector.
 */
module Ordering {

  ghost predicate TotalPreorder<T(!new)>(le: (T, T) -> bool) {
    && (forall x, y :: le(x, y) || le(y, x))
    && (forall x, y, z :: le(x, y) && le(y, z) ==> le(x, z))
  }

  ghost predicate TotalOrder<T(!new)>(le: (T, T) -> bool) {
    TotalPreorder(le) && forall x, y :: le(x, y) && le(y, x) ==> x == y
  }

  ghost predicate Sorted<T(!new)>(s: seq<T>, le: (T, T) -> bool) {
    forall i, j | 0 <= i < j < |s| :: le(s[i], s[j])
  }

  ghost predicate Distinct<T(!new)>(s: seq<T>) {
    forall i, j | 0 <= i < j < |s| :: s[i] != s[j]
  }

  ghost function Elements<T(!new)>(s: seq<T>): set<T> {
    set x | x in s
  }

  /** Inserts `x` before the first element it may precede. */
  function Insert<T>(x: T, s: seq<T>, le: (T, T) -> bool): seq<T> {
    if s == [] then [x]
    else if le(x, s[0]) then [x] + s
    else [s[0]] + Insert(x, s[1..], le)
  }

  /** The stable sort: equal elements keep their order. */
  function Sort<T>(s: seq<T>, le: (T, T) -> bool): seq<T> {
    if s == [] then [] else Insert(s[0], Sort(s[1..], le), le)
  }

  lemma {:induction false} InsertContents<T>(x: T, s: seq<T>, le: (T, T) -> bool)
    ensures multiset(Insert(x, s, le)) == multiset{x} + multiset(s)
  {
    if s == [] {
    } else if le(x, s[0]) {
    } else {
      InsertContents(x, s[1..], le);
      assert s == [s[0]] + s[1..];
    }
  }

  lemma {:induction false} SortContents<T>(s: seq<T>, le: (T, T) -> bool)
    ensures multiset(Sort(s, le)) == multiset(s)
    ensures |Sort(s, le)| == |s|
    ensures forall x :: x in Sort(s, le) <==> x in s
  {
    if s == [] {
    } else {
      SortContents(s[1..], le);
      InsertContents(s[0], Sort(s[1..], le), le);
      assert s == [s[0]] + s[1..];
    }
    SameContents(Sort(s, le), s);
  }

  lemma SameContents<T>(s: seq<T>, t: seq<T>)
    requires multiset(s) == multiset(t)
    ensures |s| == |t|
    ensures forall x :: x in s <==> x in t
  {
    assert |s| == |multiset(s)| && |t| == |multiset(t)|;
    forall x
      ensures x in s <==> x in t
    {
      assert x in s <==> x in multiset(s);
      assert x in t <==> x in multiset(t);
    }
  }

  lemma {:induction false} InsertSorted<T(!new)>(x: T, s: seq<T>, le: (T, T) -> bool)
    requires TotalPreorder(le) && Sorted(s, le)
    ensures Sorted(Insert(x, s, le), le)
  {
    if s == [] {
    } else if le(x, s[0]) {
    } else {
      var rest := Insert(x, s[1..], le);
      InsertSorted(x, s[1..], le);
      InsertContents(x, s[1..], le);
      forall y | y in rest
        ensures le(s[0], y)
      {
        assert y in multiset(rest);
        assert y == x || y in s[1..];
      }
    }
  }

  lemma {:induction false} SortSorted<T(!new)>(s: seq<T>, le: (T, T) -> bool)
    requires TotalPreorder(le)
    ensures Sorted(Sort(s, le), le)
  {
    if s == [] {
    } else {
      SortSorted(s[1..], le);
      InsertSorted(s[0], Sort(s[1..], le), le);
    }
  }

  /** The order tells any two different elements of `s` apart. */
  ghost predicate TellsApart<T(!new)>(s: seq<T>, le: (T, T) -> bool) {
    forall x, y | x in s && y in s && le(x, y) && le(y, x) :: x == y
  }

  lemma HeadsAgree<T(!new)>(s: seq<T>, t: seq<T>, le: (T, T) -> bool)
    requires TotalPreorder(le) && TellsApart(s, le) && Sorted(s, le) && Sorted(t, le) && s != []
    requires multiset(s) == multiset(t)
    ensures t != [] && s[0] == t[0] && multiset(s[1..]) == multiset(t[1..])
  {
    SameContents(s, t);
    assert s[0] in t && t[0] in s;
    assert le(s[0], t[0]) && le(t[0], s[0]);
    assert s == [s[0]] + s[1..] && t == [t[0]] + t[1..];
    assert multiset(s[1..]) == multiset(s) - multiset{s[0]};
    assert multiset(t[1..]) == multiset(t) - multiset{t[0]};
  }

  /** A sorted vector is determined by its contents, so sorting forgets the order of its input. */
  lemma {:induction false} SortedUnique<T(!new)>(s: seq<T>, t: seq<T>, le: (T, T) -> bool)
    requires TotalPreorder(le) && TellsApart(s, le) && Sorted(s, le) && Sorted(t, le)
    requires multiset(s) == multiset(t)
    ensures s == t
  {
    if s == [] {
      SameContents(s, t);
    } else {
      HeadsAgree(s, t, le);
      SortedUnique(s[1..], t[1..], le);
    }
  }

  lemma SortForgetsOrder<T(!new)>(s: seq<T>, t: seq<T>, le: (T, T) -> bool)
    requires TotalPreorder(le) && TellsApart(s, le) && multiset(s) == multiset(t)
    ensures Sort(s, le) == Sort(t, le)
  {
    SortContents(s, le);
    SortContents(t, le);
    SortSorted(s, le);
    SortSorted(t, le);
    SortedUnique(Sort(s, le), Sort(t, le), le);
  }

  lemma {:induction false} DistinctCounts<T(!new)>(s: seq<T>)
    ensures Distinct(s) <==> forall x :: multiset(s)[x] <= 1
  {
    if s != [] {
      var rest := s[1..];
      DistinctCounts(rest);
      assert s == [s[0]] + rest;
      if Distinct(s) {
        assert s[0] !in rest;
      }
      if forall x :: multiset(s)[x] <= 1 {
        forall x
          ensures multiset(rest)[x] <= 1
        {
          assert multiset(s)[x] <= 1;
        }
        assert s[0] !in rest by {
          assert multiset(s)[s[0]] <= 1;
        }
      }
    }
  }

  lemma PermutedDistinct<T(!new)>(s: seq<T>, t: seq<T>)
    requires Distinct(s) && multiset(s) == multiset(t)
    ensures Distinct(t)
  {
    DistinctCounts(s);
    DistinctCounts(t);
  }

  lemma HeadMakesTheDifference<T>(t: seq<T>)
    requires t != []
    ensures exists x :: x in t
  {
    assert t[0] in t;
  }

  /** A sorted vector without duplicates is determined by the set of its elements. */
  lemma {:induction false} SortedDistinctUnique<T(!new)>(s: seq<T>, t: seq<T>, le: (T, T) -> bool)
    requires TotalOrder(le) && Sorted(s, le) && Sorted(t, le) && Distinct(s) && Distinct(t)
    requires forall x :: x in s <==> x in t
    ensures s == t
  {
    if s == [] {
      if t != [] {
        HeadMakesTheDifference(t);
        assert false;
      }
    } else {
      assert s[0] in s && t[0] in s by { assert s[0] in t; assert t[0] in t; }
      assert s[0] == t[0];
      forall x
        ensures x in s[1..] <==> x in t[1..]
      {
        assert x in s <==> x == s[0] || x in s[1..];
        assert x in t <==> x == t[0] || x in t[1..];
        assert s[0] !in s[1..] && t[0] !in t[1..];
      }
      SortedDistinctUnique(s[1..], t[1..], le);
      assert s == [s[0]] + s[1..] && t == [t[0]] + t[1..];
    }
  }

  /** Removes the second of each pair of equal neighbours. */
  function Dedup<T(==)>(s: seq<T>): seq<T> {
    if |s| < 2 then s
    else if s[0] == s[1] then Dedup(s[1..])
    else [s[0]] + Dedup(s[1..])
  }

  lemma {:induction false} DedupContents<T(!new)>(s: seq<T>)
    ensures forall x :: x in Dedup(s) <==> x in s
    ensures s != [] ==> Dedup(s) != [] && Dedup(s)[0] == s[0]
  {
    if |s| < 2 {
    } else {
      DedupContents(s[1..]);
      assert s == [s[0]] + s[1..];
    }
  }

  /** On a sorted vector, removing adjacent duplicates leaves it sorted without any duplicate. */
  lemma {:induction false} DedupSorted<T(!new)>(s: seq<T>, le: (T, T) -> bool)
    requires TotalOrder(le) && Sorted(s, le)
    ensures Sorted(Dedup(s), le) && Distinct(Dedup(s))
  {
    if |s| < 2 {
    } else {
      DedupSorted(s[1..], le);
      DedupContents(s[1..]);
      if s[0] != s[1] {
        forall y | y in Dedup(s[1..])
          ensures le(s[0], y) && y != s[0]
        {
          assert y in s[1..];
          var k :| 0 <= k < |s[1..]| && s[1..][k] == y;
          assert le(s[1], y) by { if k > 0 { assert s[k + 1] == y; } }
          assert le(s[0], s[1]);
        }
      }
    }
  }

  /** The lexicographic order on vectors, a proper prefix first. */
  function LexLe<T(==)>(le: (T, T) -> bool): ((seq<T>, seq<T>) -> bool) {
    (s, t) => LexPrecedes(s, t, le)
  }

  predicate LexPrecedes<T(==)>(s: seq<T>, t: seq<T>, le: (T, T) -> bool) {
    s == [] || (t != [] && (if s[0] == t[0] then LexPrecedes(s[1..], t[1..], le) else le(s[0], t[0])))
  }

  lemma {:induction false} LexTotal<T(!new)>(s: seq<T>, t: seq<T>, le: (T, T) -> bool)
    requires TotalOrder(le)
    ensures LexPrecedes(s, t, le) || LexPrecedes(t, s, le)
    ensures LexPrecedes(s, t, le) && LexPrecedes(t, s, le) ==> s == t
  {
    if s != [] && t != [] && s[0] == t[0] {
      LexTotal(s[1..], t[1..], le);
      assert s == [s[0]] + s[1..] && t == [t[0]] + t[1..];
    }
  }

  lemma {:induction false} LexTrans<T(!new)>(s: seq<T>, t: seq<T>, u: seq<T>, le: (T, T) -> bool)
    requires TotalOrder(le)
    requires LexPrecedes(s, t, le) && LexPrecedes(t, u, le)
    ensures LexPrecedes(s, u, le)
  {
    if s != [] {
      if s[0] == t[0] && t[0] == u[0] {
        LexTrans(s[1..], t[1..], u[1..], le);
      }
    }
  }

  lemma LexIsTotalOrder<T(!new)>(le: (T, T) -> bool)
    requires TotalOrder(le)
    ensures TotalOrder(LexLe(le))
  {
    var lex := LexLe(le);
    forall s, t
      ensures lex(s, t) || lex(t, s)
      ensures lex(s, t) && lex(t, s) ==> s == t
    {
      LexTotal(s, t, le);
    }
    forall s, t, u | lex(s, t) && lex(t, u)
      ensures lex(s, u)
    {
      LexTrans(s, t, u, le);
    }
  }

  /** The natural order of indices. */
  function NatLe(): ((nat, nat) -> bool) {
    (x, y) => x <= y
  }

  lemma NatIsTotalOrder()
    ensures TotalOrder(NatLe())
  {
  }

  /** The order of characters, and of text: by code point, which is also the order of its bytes. */
  function CharLe(): ((char, char) -> bool) {
    (x, y) => x <= y
  }

  lemma CharIsTotalOrder()
    ensures TotalOrder(CharLe())
  {
  }

  function StringLe(): ((string, string) -> bool) {
    LexLe(CharLe())
  }

  lemma StringIsTotalOrder()
    ensures TotalOrder(StringLe())
  {
    CharIsTotalOrder();
    LexIsTotalOrder(CharLe());
  }

  lemma {:induction false} LexicographicExactly<T(!new)>(s: seq<T>, t: seq<T>, le: (T, T) -> bool)
    ensures LexPrecedes(s, t, le) <==> s <= t || DiffersUpwards(s, t, le)
  {
    if s != [] && t != [] {
      if s[0] == t[0] {
        LexicographicExactly(s[1..], t[1..], le);
        TailDecides(s, t, le);
      } else {
        assert DiffersUpwards(s, t, le) <==> le(s[0], t[0]) by {
          if le(s[0], t[0]) {
            assert DiffersAt(s, t, 0);
          }
        }
      }
    }
  }

  /** The first place where the two differ. */
  ghost predicate DiffersAt<T(!new)>(s: seq<T>, t: seq<T>, k: nat) {
    k < |s| && k < |t| && s[k] != t[k] && forall i | 0 <= i < k :: s[i] == t[i]
  }

  ghost predicate DiffersUpwards<T(!new)>(s: seq<T>, t: seq<T>, le: (T, T) -> bool) {
    exists k: nat :: DiffersAt(s, t, k) && le(s[k], t[k])
  }

  lemma TailDecides<T(!new)>(s: seq<T>, t: seq<T>, le: (T, T) -> bool)
    requires s != [] && t != [] && s[0] == t[0]
    ensures s <= t <==> s[1..] <= t[1..]
    ensures DiffersUpwards(s, t, le) <==> DiffersUpwards(s[1..], t[1..], le)
  {
    assert s == [s[0]] + s[1..] && t == [t[0]] + t[1..];
    if DiffersUpwards(s, t, le) {
      var k: nat :| DiffersAt(s, t, k) && le(s[k], t[k]);
      assert DiffersAt(s[1..], t[1..], k - 1);
    }
    if DiffersUpwards(s[1..], t[1..], le) {
      var k: nat :| DiffersAt(s[1..], t[1..], k) && le(s[1..][k], t[1..][k]);
      assert DiffersAt(s, t, k + 1);
    }
  }

  /** Strings are ordered by their first different character, and a beginning of a string stands before it. */
  lemma StringOrderIsLexicographic(s: string, t: string)
    ensures StringLe()(s, t) <==> s <= t || exists k: nat :: DiffersAt(s, t, k) && s[k] < t[k]
  {
    LexicographicExactly(s, t, CharLe());
  }

  // ----- stability

  /** The elements that neither stand before `x` nor behind it, in their order. */
  ghost function TiedWith<T(!new)>(s: seq<T>, x: T, le: (T, T) -> bool): seq<T> {
    if s == [] then []
    else (if le(s[0], x) && le(x, s[0]) then [s[0]] else []) + TiedWith(s[1..], x, le)
  }

  lemma {:induction false} InsertIsStable<T(!new)>(x: T, s: seq<T>, y: T, le: (T, T) -> bool)
    requires TotalPreorder(le)
    ensures TiedWith(Insert(x, s, le), y, le) == TiedWith([x] + s, y, le)
  {
    assert ([x] + s)[1..] == s;
    if s != [] && !le(x, s[0]) {
      InsertIsStable(x, s[1..], y, le);
      assert ([x] + s[1..])[1..] == s[1..];
      assert ([s[0]] + Insert(x, s[1..], le))[1..] == Insert(x, s[1..], le);
    }
  }

  /** The sort is stable: elements that are tied keep their order. */
  lemma {:induction false} SortIsStable<T(!new)>(s: seq<T>, y: T, le: (T, T) -> bool)
    requires TotalPreorder(le)
    ensures TiedWith(Sort(s, le), y, le) == TiedWith(s, y, le)
  {
    if s != [] {
      SortIsStable(s[1..], y, le);
      InsertIsStable(s[0], Sort(s[1..], le), y, le);
      assert ([s[0]] + Sort(s[1..], le))[1..] == Sort(s[1..], le);
    }
  }

  function PairLe(): (((string, string), (string, string)) -> bool) {
    (x: (string, string), y: (string, string)) => if x.0 == y.0 then StringLe()(x.1, y.1) else StringLe()(x.0, y.0)
  }

  /** Pairs are ordered by their first strings, and by their second ones where the first are equal. */
  lemma PairOrderIsByFirst(x: (string, string), y: (string, string))
    ensures x.0 != y.0 ==> (PairLe()(x, y) <==> StringLe()(x.0, y.0))
    ensures x.0 == y.0 ==> (PairLe()(x, y) <==> StringLe()(x.1, y.1))
  {
  }

  lemma PairIsTotalOrder()
    ensures TotalOrder(PairLe())
  {
    StringIsTotalOrder();
    var le := PairLe();
    forall x, y, z | le(x, y) && le(y, z)
      ensures le(x, z)
    {
      if x.0 == y.0 && y.0 == z.0 {
        assert StringLe()(x.1, y.1) && StringLe()(y.1, z.1);
      } else {
        assert StringLe()(x.0, y.0) && StringLe()(y.0, z.0);
      }
    }
    forall x, y
      ensures le(x, y) || le(y, x)
      ensures le(x, y) && le(y, x) ==> x == y
    {
      assert StringLe()(x.0, y.0) || StringLe()(y.0, x.0);
      assert StringLe()(x.1, y.1) || StringLe()(y.1, x.1);
    }
  }

  /** The elements of a set in order: how an ordered set is read out. */
  method ReadOut<T(==, !new)>(elements: set<T>, le: (T, T) -> bool) returns (sorted: seq<T>)
    requires TotalOrder(le)
    ensures ReadsOut(elements, sorted, le)
  {
    sorted := [];
    var rest := elements;
    while rest != {}
      invariant rest <= elements
      invariant ReadsOut(elements - rest, sorted, le)
      decreases rest
    {
      var x :| x in rest;
      InsertContents(x, sorted, le);
      InsertSorted(x, sorted, le);
      InsertDistinct(x, sorted, le);
      ghost var before := sorted;
      sorted := Insert(x, sorted, le);
      forall y
        ensures y in sorted <==> y in elements - (rest - {x})
      {
        assert y in sorted <==> y in multiset(sorted);
        assert y in before <==> y in multiset(before);
      }
      rest := rest - {x};
    }
  }

  ghost predicate ReadsOut<T(!new)>(elements: set<T>, sorted: seq<T>, le: (T, T) -> bool) {
    Sorted(sorted, le) && Distinct(sorted) && forall x :: x in sorted <==> x in elements
  }

  lemma ReadOutUnique<T(!new)>(elements: set<T>, s: seq<T>, t: seq<T>, le: (T, T) -> bool)
    requires TotalOrder(le) && ReadsOut(elements, s, le) && ReadsOut(elements, t, le)
    ensures s == t
  {
    SortedDistinctUnique(s, t, le);
  }

  lemma {:induction false} InsertDistinct<T(!new)>(x: T, s: seq<T>, le: (T, T) -> bool)
    requires Distinct(s) && x !in s
    ensures Distinct(Insert(x, s, le))
  {
    if s != [] && !le(x, s[0]) {
      InsertDistinct(x, s[1..], le);
      InsertContents(x, s[1..], le);
      var rest := Insert(x, s[1..], le);
      assert s[0] !in rest by {
        assert s[0] in rest <==> s[0] in multiset(rest);
        assert s[0] !in s[1..];
      }
    }
  }
}
