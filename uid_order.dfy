/**
  The UID universe of a sync run: `(db1.uid_list + db2.uid_list).sort.uniq`.
  UIDs are strings. Ruby's `String#<=>` compares their bytes; for UTF-8
  strings that is the order of their characters' code points, which is what
  `Below` compares, a proper prefix coming first. Other encodings are not
  part of this model.
 */
module UidOrder {

  type Uid = string

  /** `a <= b` in lexicographic order. */
  predicate Below(a: Uid, b: Uid)
  {
    |a| == 0 || (|b| > 0 && (a[0] < b[0] || (a[0] == b[0] && Below(a[1..], b[1..]))))
  }

  lemma {:induction false} BelowTotal(a: Uid, b: Uid)
    ensures Below(a, b) || Below(b, a)
  {
    if |a| > 0 && |b| > 0 && a[0] == b[0] {
      BelowTotal(a[1..], b[1..]);
    }
  }

  lemma {:induction false} BelowTransitive(a: Uid, b: Uid, c: Uid)
    requires Below(a, b) && Below(b, c)
    ensures Below(a, c)
  {
    if |a| > 0 && a[0] == b[0] && b[0] == c[0] {
      BelowTransitive(a[1..], b[1..], c[1..]);
    }
  }

  lemma {:induction false} BelowAntisymmetric(a: Uid, b: Uid)
    requires Below(a, b) && Below(b, a)
    ensures a == b
  {
    if |a| > 0 {
      BelowAntisymmetric(a[1..], b[1..]);
      assert a == [a[0]] + a[1..] && b == [b[0]] + b[1..];
    }
  }

  ghost predicate Sorted(s: seq<Uid>)
  {
    forall i, j :: 0 <= i < j < |s| ==> Below(s[i], s[j])
  }

  ghost predicate Distinct(s: seq<Uid>)
  {
    forall i, j :: 0 <= i < j < |s| ==> s[i] != s[j]
  }

  /** Putting `h` in front of a sorted list whose every element is at or above `h` keeps it sorted. */
  lemma SortedCons(h: Uid, t: seq<Uid>)
    requires Sorted(t)
    requires forall y :: y in t ==> Below(h, y)
    ensures Sorted([h] + t)
  {
    forall i, j | 0 <= i < j < |[h] + t|
      ensures Below(([h] + t)[i], ([h] + t)[j])
    {
      if i > 0 {
        assert ([h] + t)[i] == t[i - 1] && ([h] + t)[j] == t[j - 1];
      } else {
        assert ([h] + t)[j] == t[j - 1];
      }
    }
  }

  /** One step of insertion sort. */
  function Insert(x: Uid, s: seq<Uid>): (r: seq<Uid>)
    requires Sorted(s)
    ensures Sorted(r)
    ensures multiset(r) == multiset(s) + multiset{x}
  {
    if s == [] then [x]
    else if Below(x, s[0]) then
      InsertFront(x, s);
      [x] + s
    else
      var t := Insert(x, s[1..]);
      InsertBehind(x, s, t);
      [s[0]] + t
  }

  lemma InsertFront(x: Uid, s: seq<Uid>)
    requires s != [] && Sorted(s) && Below(x, s[0])
    ensures Sorted([x] + s)
  {
    forall y | y in s
      ensures Below(x, y)
    {
      var k :| 0 <= k < |s| && s[k] == y;
      if k > 0 {
        BelowTransitive(x, s[0], y);
      }
    }
    SortedCons(x, s);
  }

  lemma InsertBehind(x: Uid, s: seq<Uid>, t: seq<Uid>)
    requires s != [] && Sorted(s) && !Below(x, s[0])
    requires Sorted(t) && multiset(t) == multiset(s[1..]) + multiset{x}
    ensures Sorted([s[0]] + t)
    ensures multiset([s[0]] + t) == multiset(s) + multiset{x}
  {
    BelowTotal(x, s[0]);
    forall y | y in t
      ensures Below(s[0], y)
    {
      assert y in multiset(t);
      if y != x {
        assert y in multiset(s[1..]);
        var k :| 0 <= k < |s[1..]| && s[1..][k] == y;
        assert s[k + 1] == y;
      }
    }
    SortedCons(s[0], t);
    assert s == [s[0]] + s[1..];
  }

  /** Ruby's `Array#sort` on UIDs: a sorted permutation of `s`. */
  function Sort(s: seq<Uid>): (r: seq<Uid>)
    ensures Sorted(r)
    ensures multiset(r) == multiset(s)
  {
    if s == [] then []
    else
      assert s == [s[0]] + s[1..];
      Insert(s[0], Sort(s[1..]))
  }

  /** Ruby's `Array#uniq`: the first occurrence of every element, in order. */
  function Uniq(s: seq<Uid>): (r: seq<Uid>)
    ensures forall x :: x in r <==> x in s
    ensures Distinct(r)
    ensures Sorted(s) ==> Sorted(r)
  {
    if s == [] then []
    else
      var init, last := s[..|s| - 1], s[|s| - 1];
      assert s == init + [last];
      var u := Uniq(init);
      if last in init then u
      else
        assert Sorted(s) ==> forall y :: y in u ==> Below(y, last) by {
          if Sorted(s) {
            forall y | y in u
              ensures Below(y, last)
            {
              var k :| 0 <= k < |init| && init[k] == y;
            }
          }
        }
        u + [last]
  }

  /** `uid_list`: every UID either database lists, once each, in ascending order. */
  function Universe(l1: seq<Uid>, l2: seq<Uid>): (r: seq<Uid>)
    ensures Sorted(r) && Distinct(r)
    ensures forall u :: u in r <==> u in l1 || u in l2
  {
    var sorted := Sort(l1 + l2);
    assert forall u :: u in sorted <==> u in multiset(l1 + l2);
    Uniq(sorted)
  }

  /** A sorted list without repetitions is determined by the set of its elements. */
  lemma {:induction false} SortedDistinctUnique(a: seq<Uid>, b: seq<Uid>)
    requires Sorted(a) && Distinct(a) && Sorted(b) && Distinct(b)
    requires forall u :: u in a <==> u in b
    ensures a == b
  {
    assert a != [] ==> a[0] in b;
    assert b != [] ==> b[0] in a;
    if a != [] {
      var k :| 0 <= k < |b| && b[k] == a[0];
      var m :| 0 <= m < |a| && a[m] == b[0];
      if a[0] != b[0] {
        assert k > 0 && m > 0;
        BelowAntisymmetric(a[0], b[0]);
      }
      forall u
        ensures u in a[1..] <==> u in b[1..]
      {
        if u in a[1..] {
          var i :| 0 <= i < |a[1..]| && a[1..][i] == u;
          assert a[i + 1] == u;
          assert u in b;
          var j :| 0 <= j < |b| && b[j] == u;
          assert j != 0;
          assert b[1..][j - 1] == u;
        }
        if u in b[1..] {
          var j :| 0 <= j < |b[1..]| && b[1..][j] == u;
          assert b[j + 1] == u;
          assert u in a;
          var i :| 0 <= i < |a| && a[i] == u;
          assert i != 0;
          assert a[1..][i - 1] == u;
        }
      }
      SortedDistinctUnique(a[1..], b[1..]);
      assert a == [a[0]] + a[1..] && b == [b[0]] + b[1..];
    }
  }

  /** The universe depends only on which UIDs each side lists, not on their order or repetitions. */
  lemma UniverseDependsOnSetsOnly(l1: seq<Uid>, l2: seq<Uid>, m1: seq<Uid>, m2: seq<Uid>)
    requires forall u :: u in l1 <==> u in m1
    requires forall u :: u in l2 <==> u in m2
    ensures Universe(l1, l2) == Universe(m1, m2)
  {
    SortedDistinctUnique(Universe(l1, l2), Universe(m1, m2));
  }
}
