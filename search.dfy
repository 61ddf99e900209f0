/** Searching a table held in storage order.

    An ORM `search` with a domain returns the rows of a table that satisfy
    every term of the domain, in the table's order. Both components of this
    model are built on that one operation, `Filter`, and on the way its
    result is then used: tested for emptiness, for having exactly one row, or
    read at its first row. */
module Search {

  /** The elements of `s` that satisfy `p`, in the order of `s`. */
  function Filter<T(!new)>(s: seq<T>, p: T -> bool): (r: seq<T>)
    ensures |r| <= |s|
    ensures forall x :: x in r <==> x in s && p(x)
  {
    if s == [] then []
    else if p(s[0]) then [s[0]] + Filter(s[1..], p)
    else Filter(s[1..], p)
  }

  /** No element of `s` satisfies `p`. */
  ghost predicate NoneSatisfy<T(!new)>(s: seq<T>, p: T -> bool)
  {
    forall i :: 0 <= i < |s| ==> !p(s[i])
  }

  /** `s[i]` is the first element of `s` that satisfies `p`. */
  ghost predicate FirstAt<T(!new)>(s: seq<T>, p: T -> bool, i: int)
  {
    0 <= i < |s| && p(s[i]) && forall j :: 0 <= j < i ==> !p(s[j])
  }

  /** `s[i]` is the only element of `s` (by position) that satisfies `p`. */
  ghost predicate OnlyAt<T(!new)>(s: seq<T>, p: T -> bool, i: int)
  {
    0 <= i < |s| && p(s[i]) && forall j :: 0 <= j < |s| && j != i ==> !p(s[j])
  }

  /** Two different positions of `s` hold elements that satisfy `p`. */
  ghost predicate SeveralSatisfy<T(!new)>(s: seq<T>, p: T -> bool)
  {
    exists i, j :: 0 <= i < j < |s| && p(s[i]) && p(s[j])
  }

  /** A search result is empty exactly when no element qualifies. This is the
      step the inductions below and the tax lemmas call on one predicate;
      `FilterCases` repeats it beside the other two outcomes. */
  lemma FilterEmpty<T(!new)>(s: seq<T>, p: T -> bool)
    ensures Filter(s, p) == [] <==> NoneSatisfy(s, p)
  {
    if Filter(s, p) == [] {
      forall i | 0 <= i < |s|
        ensures !p(s[i])
      {
        assert s[i] in s;
      }
    } else {
      var x := Filter(s, p)[0];
      assert x in Filter(s, p);
      var i :| 0 <= i < |s| && s[i] == x;
      assert p(s[i]);
    }
  }

  lemma {:induction false} FilterFirst<T(!new)>(s: seq<T>, p: T -> bool, i: int)
    requires FirstAt(s, p, i)
    ensures Filter(s, p) != [] && Filter(s, p)[0] == s[i]
  {
    if i > 0 {
      assert !p(s[0]);
      assert FirstAt(s[1..], p, i - 1) by {
        forall j | 0 <= j < i - 1
          ensures !p(s[1..][j])
        {
          assert s[1..][j] == s[j + 1];
        }
      }
      FilterFirst(s[1..], p, i - 1);
    }
  }

  lemma {:induction false} FilterOnly<T(!new)>(s: seq<T>, p: T -> bool, i: int)
    requires OnlyAt(s, p, i)
    ensures Filter(s, p) == [s[i]]
  {
    if i == 0 {
      assert NoneSatisfy(s[1..], p) by {
        forall j | 0 <= j < |s[1..]|
          ensures !p(s[1..][j])
        {
          assert s[1..][j] == s[j + 1];
        }
      }
      FilterEmpty(s[1..], p);
    } else {
      assert !p(s[0]);
      assert OnlyAt(s[1..], p, i - 1) by {
        forall j | 0 <= j < |s[1..]| && j != i - 1
          ensures !p(s[1..][j])
        {
          assert s[1..][j] == s[j + 1];
        }
      }
      FilterOnly(s[1..], p, i - 1);
    }
  }

  lemma {:induction false} FilterSeveral<T(!new)>(s: seq<T>, p: T -> bool)
    ensures |Filter(s, p)| >= 2 <==> SeveralSatisfy(s, p)
  {
    if s != [] {
      var t := s[1..];
      FilterSeveral(t, p);
      FilterEmpty(t, p);
      if p(s[0]) {
        if |Filter(s, p)| >= 2 {
          assert !NoneSatisfy(t, p);
          var j :| 0 <= j < |t| && p(t[j]);
          assert s[j + 1] == t[j];
        }
        if SeveralSatisfy(s, p) {
          var i, j :| 0 <= i < j < |s| && p(s[i]) && p(s[j]);
          assert t[j - 1] == s[j];
        }
      } else {
        if SeveralSatisfy(t, p) {
          var i, j :| 0 <= i < j < |t| && p(t[i]) && p(t[j]);
          assert s[i + 1] == t[i] && s[j + 1] == t[j];
        }
        if SeveralSatisfy(s, p) {
          var i, j :| 0 <= i < j < |s| && p(s[i]) && p(s[j]);
          assert t[i - 1] == s[i] && t[j - 1] == s[j];
        }
      }
    }
  }

  /** When some element satisfies `p` but no two do, exactly one does. */
  lemma ExactlyOne<T(!new)>(s: seq<T>, p: T -> bool)
    requires !NoneSatisfy(s, p) && !SeveralSatisfy(s, p)
    ensures exists i :: OnlyAt(s, p, i)
  {
    var i :| 0 <= i < |s| && p(s[i]);
    forall j | 0 <= j < |s| && j != i
      ensures !p(s[j])
    {
      assert i < j ==> !p(s[j]);
      assert j < i ==> !p(s[j]);
    }
    assert OnlyAt(s, p, i);
  }

  /** The three outcomes of a search that callers branch on: no row, one
      row, several rows. It is the single call a function body makes before
      branching, since an expression cannot hold the `forall` statement that
      turns `FilterOnly` into the third clause. */
  lemma FilterCases<T(!new)>(s: seq<T>, p: T -> bool)
    ensures Filter(s, p) == [] <==> NoneSatisfy(s, p)
    ensures |Filter(s, p)| >= 2 <==> SeveralSatisfy(s, p)
    ensures forall i :: OnlyAt(s, p, i) ==> Filter(s, p) == [s[i]]
  {
    FilterEmpty(s, p);
    FilterSeveral(s, p);
    forall i | OnlyAt(s, p, i)
      ensures Filter(s, p) == [s[i]]
    {
      FilterOnly(s, p, i);
    }
  }
}
