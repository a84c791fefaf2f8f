/** Sorting with a caller-supplied strict order, and the fact the program leans on:
    an ascending arrangement of a multiset is unique. */
module Sorting {

  /** `less` is irreflexive, transitive and decides any two different members of `elems`. */
  ghost predicate StrictTotalOn<T(!new)>(less: (T, T) -> bool, elems: set<T>) {
    && (forall x :: x in elems ==> !less(x, x))
    && (forall x, y, z :: x in elems && y in elems && z in elems && less(x, y) && less(y, z) ==> less(x, z))
    && (forall x, y :: x in elems && y in elems && x != y ==> less(x, y) || less(y, x))
  }

  ghost predicate Ascending<T>(less: (T, T) -> bool, s: seq<T>) {
    forall i, j :: 0 <= i < j < |s| ==> !less(s[j], s[i])
  }

  ghost function Elements<T>(s: seq<T>): set<T> {
    set x | x in s
  }

  /** Puts `x` after every element that is not greater: equal elements keep their order. */
  function Insert<T>(less: (T, T) -> bool, x: T, s: seq<T>): seq<T> {
    if s == [] || !less(x, s[|s| - 1]) then s + [x]
    else Insert(less, x, s[..|s| - 1]) + [s[|s| - 1]]
  }

  function Sort<T>(less: (T, T) -> bool, s: seq<T>): seq<T> {
    if s == [] then [] else Insert(less, s[|s| - 1], Sort(less, s[..|s| - 1]))
  }

  lemma {:induction false} InsertKeepsElements<T>(less: (T, T) -> bool, x: T, s: seq<T>)
    ensures multiset(Insert(less, x, s)) == multiset(s) + multiset{x}
  {
    if s != [] && less(x, s[|s| - 1]) {
      InsertKeepsElements(less, x, s[..|s| - 1]);
      assert s == s[..|s| - 1] + [s[|s| - 1]];
    }
  }

  lemma {:induction false} InsertKeepsAscending<T(!new)>(less: (T, T) -> bool, x: T, s: seq<T>, elems: set<T>)
    requires StrictTotalOn(less, elems) && x in elems && Elements(s) <= elems
    requires Ascending(less, s)
    ensures Ascending(less, Insert(less, x, s))
  {
    if s == [] {
    } else if !less(x, s[|s| - 1]) {
      var t := s + [x];
      forall i, j | 0 <= i < j < |t| ensures !less(t[j], t[i]) {
        if j == |s| && i < |s| - 1 {
          assert s[i] in Elements(s) && s[|s| - 1] in Elements(s);
          assert !less(s[|s| - 1], s[i]);
        }
      }
    } else {
      var front, last := s[..|s| - 1], s[|s| - 1];
      assert Elements(front) <= Elements(s);
      InsertKeepsAscending(less, x, front, elems);
      InsertKeepsElements(less, x, front);
      var t := Insert(less, x, front) + [last];
      forall i, j | 0 <= i < j < |t| ensures !less(t[j], t[i]) {
        if j == |t| - 1 {
          var inserted := Insert(less, x, front);
          assert inserted[i] in multiset(inserted);
          assert t[i] == x || t[i] in front;
          if t[i] == x {
            assert last in Elements(s);
          } else {
            var k :| 0 <= k < |front| && front[k] == t[i];
            assert !less(s[|s| - 1], s[k]);
          }
        }
      }
    }
  }

  /** Sorting permutes its input. */
  lemma {:induction false} SortPermutes<T>(less: (T, T) -> bool, s: seq<T>)
    ensures multiset(Sort(less, s)) == multiset(s)
    ensures |Sort(less, s)| == |s|
    ensures forall x :: x in Sort(less, s) <==> x in s
  {
    if s != [] {
      var front := s[..|s| - 1];
      SortPermutes(less, front);
      InsertKeepsElements(less, s[|s| - 1], Sort(less, front));
      assert s == front + [s[|s| - 1]];
    }
    var t := Sort(less, s);
    assert multiset(t) == multiset(s);
    assert |multiset(t)| == |t| && |multiset(s)| == |s|;
    forall x ensures x in t <==> x in s {
      assert x in t <==> x in multiset(t);
      assert x in s <==> x in multiset(s);
    }
  }

  /** Sorting puts its input in order. */
  lemma {:induction false} SortAscends<T(!new)>(less: (T, T) -> bool, s: seq<T>, elems: set<T>)
    requires StrictTotalOn(less, elems) && Elements(s) <= elems
    ensures Ascending(less, Sort(less, s))
  {
    if s != [] {
      var front := s[..|s| - 1];
      assert Elements(front) <= Elements(s);
      SortAscends(less, front, elems);
      SortPermutes(less, front);
      assert s[|s| - 1] in Elements(s);
      assert Elements(Sort(less, front)) <= Elements(s);
      InsertKeepsAscending(less, s[|s| - 1], Sort(less, front), elems);
    }
  }

  /** The head of an ascending sequence is its least member. */
  lemma AscendingHeads<T(!new)>(less: (T, T) -> bool, s: seq<T>, t: seq<T>, elems: set<T>)
    requires StrictTotalOn(less, elems) && Elements(s) <= elems
    requires s != [] && t != [] && t[0] in s && s[0] in t
    requires Ascending(less, s) && Ascending(less, t)
    ensures s[0] == t[0]
  {
    var i :| 0 <= i < |t| && t[i] == s[0];
    var j :| 0 <= j < |s| && s[j] == t[0];
    assert s[0] in Elements(s) && s[j] in Elements(s);
    assert i > 0 ==> !less(t[i], t[0]);
    assert j > 0 ==> !less(s[j], s[0]);
  }

  lemma TailMultiset<T>(s: seq<T>)
    requires s != []
    ensures multiset(s[1..]) == multiset(s) - multiset{s[0]}
  {
    assert s == [s[0]] + s[1..];
  }

  lemma AscendingTail<T>(less: (T, T) -> bool, s: seq<T>)
    requires s != [] && Ascending(less, s)
    ensures Ascending(less, s[1..]) && Elements(s[1..]) <= Elements(s)
  {
    var s' := s[1..];
    forall i, j | 0 <= i < j < |s'| ensures !less(s'[j], s'[i]) {
      assert !less(s[j + 1], s[i + 1]);
    }
  }

  /** Two ascending arrangements of one multiset are the same sequence. */
  lemma {:induction false} AscendingIsUnique<T(!new)>(less: (T, T) -> bool, s: seq<T>, t: seq<T>, elems: set<T>)
    requires StrictTotalOn(less, elems) && Elements(s) <= elems
    requires multiset(s) == multiset(t)
    requires Ascending(less, s) && Ascending(less, t)
    ensures s == t
    decreases |s|
  {
    hide StrictTotalOn, Ascending, Elements;
    assert |s| == |multiset(s)| == |multiset(t)| == |t|;
    if s != [] {
      assert s[0] in multiset(t) && t[0] in multiset(s);
      AscendingHeads(less, s, t, elems);
      TailMultiset(s);
      TailMultiset(t);
      AscendingTail(less, s);
      AscendingTail(less, t);
      AscendingIsUnique(less, s[1..], t[1..], elems);
      assert s == [s[0]] + s[1..] && t == [t[0]] + t[1..];
    }
  }

  /** Sorting two arrangements of one multiset gives one sequence. */
  lemma SortIgnoresOrder<T(!new)>(less: (T, T) -> bool, s: seq<T>, t: seq<T>, elems: set<T>)
    requires StrictTotalOn(less, elems) && Elements(s) <= elems
    requires multiset(s) == multiset(t)
    ensures Sort(less, s) == Sort(less, t)
  {
    forall x | x in t ensures x in s {
      assert x in multiset(t);
    }
    SortAscends(less, s, elems);
    SortAscends(less, t, elems);
    SortPermutes(less, s);
    SortPermutes(less, t);
    AscendingIsUnique(less, Sort(less, s), Sort(less, t), elems);
  }

  /** Byte order on strings, as Go compares them. */
  predicate StringLess(a: string, b: string) {
    b != "" && (a == "" || a[0] < b[0] || (a[0] == b[0] && StringLess(a[1..], b[1..])))
  }

  lemma {:induction false} StringLessTransitive(a: string, b: string, c: string)
    requires StringLess(a, b) && StringLess(b, c)
    ensures StringLess(a, c)
  {
    if a != "" && a[0] == b[0] && b[0] == c[0] {
      StringLessTransitive(a[1..], b[1..], c[1..]);
    }
  }

  lemma {:induction false} StringLessIrreflexive(a: string)
    ensures !StringLess(a, a)
  {
    if a != "" {
      StringLessIrreflexive(a[1..]);
    }
  }

  lemma {:induction false} StringLessTotal(a: string, b: string)
    requires a != b
    ensures StringLess(a, b) || StringLess(b, a)
  {
    if a != "" && b != "" && a[0] == b[0] {
      assert a == [a[0]] + a[1..] && b == [b[0]] + b[1..];
      StringLessTotal(a[1..], b[1..]);
    }
  }

  /** The strings agree up to k, where `a` ends or has the smaller character. */
  predicate SmallerAt(a: string, b: string, k: int) {
    0 <= k <= |a| && k < |b| && a[..k] == b[..k] && (k == |a| || a[k] < b[k])
  }

  lemma HeadsAgree(a: string, b: string, k: int)
    requires SmallerAt(a, b, k) && k > 0
    ensures a != "" && b != "" && a[0] == b[0]
  {
    assert a[..k][0] == a[0] && b[..k][0] == b[0];
  }

  /** The order is that of the first difference, a proper prefix coming first. */
  lemma {:induction false} StringLessByFirstDifference(a: string, b: string)
    ensures StringLess(a, b) <==> exists k :: SmallerAt(a, b, k)
  {
    if a == "" || b == "" || a[0] != b[0] {
      assert b != "" && (a == "" || a[0] < b[0]) ==> SmallerAt(a, b, 0);
      forall k | SmallerAt(a, b, k) ensures k == 0 {
        if k > 0 {
          HeadsAgree(a, b, k);
        }
      }
    } else {
      StringLessByFirstDifference(a[1..], b[1..]);
      forall k | SmallerAt(a[1..], b[1..], k) ensures SmallerAt(a, b, k + 1) {
        assert a[..k + 1] == [a[0]] + a[1..][..k] && b[..k + 1] == [b[0]] + b[1..][..k];
      }
      forall k | SmallerAt(a, b, k) ensures k > 0 && SmallerAt(a[1..], b[1..], k - 1) {
        assert a[1..][..k - 1] == a[..k][1..] && b[1..][..k - 1] == b[..k][1..];
      }
    }
  }

  lemma StringsAreOrdered(elems: set<string>)
    ensures StrictTotalOn(StringLess, elems)
  {
    forall x | x in elems ensures !StringLess(x, x) {
      StringLessIrreflexive(x);
    }
    forall x, y, z | StringLess(x, y) && StringLess(y, z) ensures StringLess(x, z) {
      StringLessTransitive(x, y, z);
    }
    forall x, y | x in elems && y in elems && x != y ensures StringLess(x, y) || StringLess(y, x) {
      StringLessTotal(x, y);
    }
  }
}
