/** Comparison and sorting: strings compare character by character, and sorting is insertion into a sorted list. */
module Order {

  datatype Ordering = Less | Same | Greater

  function Reverse(o: Ordering): Ordering {
    match o case Less => Greater case Same => Same case Greater => Less
  }

  /** Compare by the first criterion that tells the two apart. */
  function Then(first: Ordering, second: Ordering): Ordering {
    if first == Same then second else first
  }

  function Compare(a: string, b: string): Ordering {
    if |a| == 0 then (if |b| == 0 then Same else Less)
    else if |b| == 0 then Greater
    else if a[0] < b[0] then Less
    else if a[0] > b[0] then Greater
    else Compare(a[1..], b[1..])
  }

  function CompareSizes(a: nat, b: nat): Ordering {
    if a < b then Less else if a > b then Greater else Same
  }

  lemma {:induction false} CompareIsOrder(a: string, b: string)
    ensures Compare(a, b) == Reverse(Compare(b, a)) && (Compare(a, b) == Same <==> a == b)
  {
    if |a| > 0 && |b| > 0 && a[0] == b[0] {
      CompareIsOrder(a[1..], b[1..]);
      assert a == [a[0]] + a[1..] && b == [b[0]] + b[1..];
    }
  }

  lemma {:induction false} CompareIsTransitive(a: string, b: string, c: string)
    requires Compare(a, b) == Less && Compare(b, c) == Less
    ensures Compare(a, c) == Less
  {
    if |a| > 0 && a[0] == b[0] && b[0] == c[0] {
      CompareIsTransitive(a[1..], b[1..], c[1..]);
    }
  }

  lemma Transitive(a: string, b: string, c: string)
    requires Compare(a, b) != Greater && Compare(b, c) != Greater
    ensures Compare(a, c) != Greater && (Compare(a, c) == Same <==> Compare(a, b) == Same && Compare(b, c) == Same)
  {
    CompareIsOrder(a, b);
    CompareIsOrder(b, c);
    CompareIsOrder(a, c);
    if Compare(a, b) == Less && Compare(b, c) == Less { CompareIsTransitive(a, b, c); }
  }

  // ---------------------------------------------------------------- sorting

  /** The comparison reverses with its arguments and is transitive. */
  ghost predicate Consistent<T(!new)>(compare: (T, T) -> Ordering) {
    && (forall a, b :: compare(a, b) == Reverse(compare(b, a)))
    && (forall a, b, c :: compare(a, b) != Greater && compare(b, c) != Greater ==> compare(a, c) != Greater)
  }

  /** Only equal things compare as the same. */
  ghost predicate Distinguishes<T(!new)>(compare: (T, T) -> Ordering) {
    forall a, b :: compare(a, b) == Same ==> a == b
  }

  ghost predicate Sorted<T>(compare: (T, T) -> Ordering, s: seq<T>) {
    forall i, j :: 0 <= i < j < |s| ==> compare(s[i], s[j]) != Greater
  }

  function Insert<T>(compare: (T, T) -> Ordering, s: seq<T>, a: T): seq<T> {
    if |s| == 0 || compare(s[|s| - 1], a) != Greater then s + [a]
    else Insert(compare, s[..|s| - 1], a) + [s[|s| - 1]]
  }

  function Sort<T>(compare: (T, T) -> Ordering, s: seq<T>): seq<T> {
    if |s| == 0 then [] else Insert(compare, Sort(compare, s[..|s| - 1]), s[|s| - 1])
  }

  lemma {:induction false} InsertSorts<T(!new)>(compare: (T, T) -> Ordering, s: seq<T>, a: T)
    requires Consistent(compare) && Sorted(compare, s)
    ensures Sorted(compare, Insert(compare, s, a)) && multiset(Insert(compare, s, a)) == multiset(s) + multiset{a}
  {
    if |s| > 0 {
      var init, last := s[..|s| - 1], s[|s| - 1];
      assert s == init + [last];
      if compare(last, a) == Greater {
        InsertSorts(compare, init, a);
        forall x <- Insert(compare, init, a) ensures compare(x, last) != Greater {
          assert x in multiset(Insert(compare, init, a));
          if x != a { assert x in init; }
        }
      }
    }
  }

  /** Sorting orders the elements and loses none. */
  lemma {:induction false} SortSorts<T(!new)>(compare: (T, T) -> Ordering, s: seq<T>)
    requires Consistent(compare)
    ensures Sorted(compare, Sort(compare, s)) && multiset(Sort(compare, s)) == multiset(s)
  {
    hide Insert, Consistent;
    if |s| > 0 {
      SortSorts(compare, s[..|s| - 1]);
      InsertSorts(compare, Sort(compare, s[..|s| - 1]), s[|s| - 1]);
      assert s == s[..|s| - 1] + [s[|s| - 1]];
    }
  }

  /** There is one way to sort a collection by a comparison that tells its elements apart. */
  lemma {:induction false} SortedIsUnique<T(!new)>(compare: (T, T) -> Ordering, s: seq<T>, t: seq<T>)
    requires Consistent(compare) && Distinguishes(compare)
    requires Sorted(compare, s) && Sorted(compare, t) && multiset(s) == multiset(t)
    ensures s == t
  {
    if |s| == 0 {
      assert |multiset(t)| == 0;
    } else {
      assert |multiset(s)| == |s| && |multiset(t)| == |t|;
      var x, y := s[|s| - 1], t[|t| - 1];
      DropLast(compare, s);
      DropLast(compare, t);
      assert x in multiset(t) && y in multiset(s);
      LastIsGreatest(compare, s, y);
      LastIsGreatest(compare, t, x);
      SortedIsUnique(compare, s[..|s| - 1], t[..|t| - 1]);
    }
  }

  lemma DropLast<T>(compare: (T, T) -> Ordering, s: seq<T>)
    requires |s| > 0
    ensures var init, last := s[..|s| - 1], s[|s| - 1];
            s == init + [last] && multiset(init) == multiset(s) - multiset{last}
                && (Sorted(compare, s) ==> Sorted(compare, init))
  {
    assert s == s[..|s| - 1] + [s[|s| - 1]];
  }

  lemma LastIsGreatest<T(!new)>(compare: (T, T) -> Ordering, s: seq<T>, y: T)
    requires Consistent(compare) && Sorted(compare, s) && y in s
    ensures compare(y, s[|s| - 1]) != Greater
  {
    assert compare(y, y) == Reverse(compare(y, y));
  }

  /** Two collections sort alike exactly when they are the same collection. */
  lemma SortsAlike<T(!new)>(compare: (T, T) -> Ordering, s: seq<T>, t: seq<T>)
    requires Consistent(compare) && Distinguishes(compare)
    ensures Sort(compare, s) == Sort(compare, t) <==> multiset(s) == multiset(t)
  {
    SortSorts(compare, s);
    SortSorts(compare, t);
    if multiset(s) == multiset(t) { SortedIsUnique(compare, Sort(compare, s), Sort(compare, t)); }
  }
}
