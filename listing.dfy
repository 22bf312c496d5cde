/**
 * Python's ordering of `str` values and `sorted(...)` over a directory
 * listing, as the scripts use it to visit frames in name order.
 */
module Listing {

  /** `a < b` on Python strings: lexicographic comparison by code point. */
  predicate Below(a: string, b: string)
    decreases |a|
  {
    if a == [] then b != []
    else b != [] && (a[0] < b[0] || (a[0] == b[0] && Below(a[1..], b[1..])))
  }

  lemma {:induction false} BelowIrreflexive(a: string)
    ensures !Below(a, a)
    decreases |a|
  {
    if a != [] {
      BelowIrreflexive(a[1..]);
    }
  }

  lemma {:induction false} BelowTransitive(a: string, b: string, c: string)
    requires Below(a, b) && Below(b, c)
    ensures Below(a, c)
    decreases |a|
  {
    if a != [] && a[0] == b[0] == c[0] {
      BelowTransitive(a[1..], b[1..], c[1..]);
    }
  }

  /** Two different strings are always ordered one way or the other. */
  lemma {:induction false} BelowTotal(a: string, b: string)
    ensures a == b || Below(a, b) || Below(b, a)
    decreases |a|
  {
    if a != [] && b != [] && a[0] == b[0] {
      BelowTotal(a[1..], b[1..]);
      if a[1..] == b[1..] {
        assert a == [a[0]] + a[1..] && b == [b[0]] + b[1..];
      }
    }
  }

  lemma BelowAsymmetric(a: string, b: string)
    requires Below(a, b)
    ensures !Below(b, a)
  {
    if Below(b, a) {
      BelowTransitive(a, b, a);
      BelowIrreflexive(a);
    }
  }

  /** Strings of one length keep their order whatever is appended to each. */
  lemma {:induction false} BelowExtend(a: string, b: string, x: string, y: string)
    requires |a| == |b| && Below(a, b)
    ensures Below(a + x, b + y)
    decreases |a|
  {
    assert a != [] && b != [];
    if a[0] == b[0] {
      assert (a + x)[1..] == a[1..] + x && (b + y)[1..] == b[1..] + y;
      BelowExtend(a[1..], b[1..], x, y);
    }
  }

  /** A common prefix does not change the order. */
  lemma {:induction false} BelowPrefix(p: string, a: string, b: string)
    requires Below(a, b)
    ensures Below(p + a, p + b)
    decreases |p|
  {
    if p != [] {
      assert (p + a)[0] == (p + b)[0] == p[0];
      assert (p + a)[1..] == p[1..] + a && (p + b)[1..] == p[1..] + b;
      BelowPrefix(p[1..], a, b);
    } else {
      assert p + a == a && p + b == b;
    }
  }

  /** `a <= b` chains. */
  lemma AtMostTransitive(a: string, b: string, c: string)
    requires !Below(b, a) && !Below(c, b)
    ensures !Below(c, a)
  {
    BelowTotal(a, b);
    BelowTotal(b, c);
    if Below(c, a) {
      if a == b {
      } else if b == c {
      } else {
        BelowTransitive(a, b, c);
        BelowAsymmetric(a, c);
      }
    }
  }

  /** Non-descending, as `sorted` leaves a list. */
  predicate Ordered(s: seq<string>)
  {
    forall i, j :: 0 <= i < j < |s| ==> !Below(s[j], s[i])
  }

  predicate StrictlyAscending(s: seq<string>)
  {
    forall i, j :: 0 <= i < j < |s| ==> Below(s[i], s[j])
  }

  predicate NoDuplicates(s: seq<string>)
  {
    forall i, j :: 0 <= i < j < |s| ==> s[i] != s[j]
  }

  /** One insertion step of sorting. */
  function Insert(x: string, s: seq<string>): (r: seq<string>)
    ensures multiset(r) == multiset(s) + multiset{x}
  {
    if s == [] then [x]
    else if Below(s[0], x) then
      assert s == [s[0]] + s[1..];
      [s[0]] + Insert(x, s[1..])
    else [x] + s
  }

  /** Every element of `Insert(x, s)` is `x` or an element of `s`. */
  lemma InsertElements(x: string, s: seq<string>, y: string)
    requires y in Insert(x, s)
    ensures y == x || y in s
  {
    assert y in multiset(Insert(x, s));
  }

  lemma {:induction false} InsertOrdered(x: string, s: seq<string>)
    requires Ordered(s)
    ensures Ordered(Insert(x, s))
    decreases |s|
  {
    if s != [] {
      var r := Insert(x, s);
      if Below(s[0], x) {
        InsertOrdered(x, s[1..]);
        BelowAsymmetric(s[0], x);
        forall j | 1 <= j < |r|
          ensures !Below(r[j], s[0])
        {
          assert r[j] in Insert(x, s[1..]);
          InsertElements(x, s[1..], r[j]);
        }
      } else {
        BelowTotal(s[0], x);
        forall j | 1 <= j < |r|
          ensures !Below(r[j], x)
        {
          if j > 1 {
            assert r[j] == s[j - 1];
          } else {
            BelowIrreflexive(s[0]);
          }
          AtMostTransitive(x, s[0], r[j]);
        }
      }
    }
  }

  lemma {:induction false} InsertAscending(x: string, s: seq<string>)
    requires StrictlyAscending(s) && x !in s
    ensures StrictlyAscending(Insert(x, s))
    decreases |s|
  {
    if s != [] {
      var r := Insert(x, s);
      if Below(s[0], x) {
        InsertAscending(x, s[1..]);
        forall j | 1 <= j < |r|
          ensures Below(s[0], r[j])
        {
          assert r[j] in Insert(x, s[1..]);
          InsertElements(x, s[1..], r[j]);
        }
      } else {
        BelowTotal(s[0], x);
        forall j | 1 <= j < |r|
          ensures Below(x, r[j])
        {
          if j > 1 {
            BelowTransitive(x, s[0], r[j]);
          }
        }
      }
    }
  }

  /** `sorted(entries)`: insertion sort on Python's string order. */
  function Sort(s: seq<string>): (r: seq<string>)
    ensures multiset(r) == multiset(s)
    ensures Ordered(r)
    ensures NoDuplicates(s) ==> StrictlyAscending(r)
  {
    if s == [] then []
    else
      var t := Sort(s[1..]);
      assert s == [s[0]] + s[1..];
      InsertOrdered(s[0], t);
      InsertKeepsDistinct(s, t);
      Insert(s[0], t)
  }

  /** The step of `Sort` that keeps a listing without repeats strictly ascending. */
  lemma InsertKeepsDistinct(s: seq<string>, t: seq<string>)
    requires s != [] && multiset(t) == multiset(s[1..])
    requires NoDuplicates(s[1..]) ==> StrictlyAscending(t)
    ensures NoDuplicates(s) ==> StrictlyAscending(Insert(s[0], t))
  {
    if NoDuplicates(s) {
      assert NoDuplicates(s[1..]);
      assert s[0] !in s[1..];
      assert s[0] !in multiset(t);
      InsertAscending(s[0], t);
    }
  }

  /**
   * A strictly ascending sequence is determined by its elements: two of them
   * holding the same strings are equal.
   */
  lemma {:induction false} AscendingUnique(a: seq<string>, b: seq<string>)
    requires StrictlyAscending(a) && StrictlyAscending(b)
    requires forall x :: x in a <==> x in b
    ensures a == b
    decreases |a|
  {
    if a == [] {
      assert forall i :: 0 <= i < |b| ==> b[i] in b;
    } else {
      assert b != [] by { assert a[0] in b; }
      assert a[0] == b[0] by {
        assert b[0] in a && a[0] in b;
        if a[0] != b[0] {
          var i :| 0 <= i < |a| && a[i] == b[0];
          var j :| 0 <= j < |b| && b[j] == a[0];
          assert Below(a[0], b[0]) && Below(b[0], a[0]);
          BelowAsymmetric(a[0], b[0]);
        }
      }
      forall x
        ensures x in a[1..] <==> x in b[1..]
      {
        if x in a[1..] {
          var i :| 1 <= i < |a| && a[i] == x;
          BelowAsymmetric(a[0], x);
          assert x in b;
        }
        if x in b[1..] {
          var j :| 1 <= j < |b| && b[j] == x;
          BelowAsymmetric(b[0], x);
          assert x in a;
        }
      }
      AscendingUnique(a[1..], b[1..]);
      assert a == [a[0]] + a[1..] && b == [b[0]] + b[1..];
    }
  }

  /**
   * `sorted` of a listing without repeated names is the unique strictly
   * ascending arrangement of those names.
   */
  lemma SortIsAscendingArrangement(listing: seq<string>, t: seq<string>)
    requires NoDuplicates(listing) && StrictlyAscending(t)
    requires forall x :: x in listing <==> x in t
    ensures Sort(listing) == t
  {
    var r := Sort(listing);
    forall x
      ensures x in r <==> x in t
    {
      assert x in r <==> x in multiset(r);
      assert x in listing <==> x in multiset(listing);
    }
    AscendingUnique(r, t);
  }
}
