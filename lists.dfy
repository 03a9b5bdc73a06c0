/** Python list idioms the scene code uses: `list(set(xs))` and first-seen
    de-duplication. */
module Lists {

  datatype Option<T> = None | Some(value: T)

  function Elems<T>(s: seq<T>): set<T>
  {
    set x | x in s
  }

  /** No element occurs twice. */
  predicate Distinct<T(==)>(s: seq<T>)
  {
    forall i, j :: 0 <= i < j < |s| ==> s[i] != s[j]
  }

  /** `list(s)` for a Python set: every element once, in an order the
      language leaves unspecified (here: whatever the choice picks). */
  method ListOfSet<T(==)>(s: set<T>) returns (r: seq<T>)
    ensures Distinct(r)
    ensures Elems(r) == s
    ensures |r| == |s|
  {
    r := [];
    var rest := s;
    while rest != {}
      invariant Distinct(r)
      invariant Elems(r) !! rest
      invariant Elems(r) + rest == s
      invariant |r| + |rest| == |s|
      decreases rest
    {
      var x :| x in rest;
      r := r + [x];
      rest := rest - {x};
    }
  }

  /** The elements of `s` not already in `seen`, each once, in the order of
      their first occurrence. */
  function AppendNew<T(==)>(seen: seq<T>, s: seq<T>): (r: seq<T>)
    decreases |s|
  {
    if s == [] then seen
    else if s[0] in seen then AppendNew(seen, s[1..])
    else AppendNew(seen + [s[0]], s[1..])
  }

  /** `AppendNew` keeps what was seen, adds exactly the missing elements and
      never creates a duplicate. */
  lemma {:induction false} AppendNewSpec<T>(seen: seq<T>, s: seq<T>)
    requires Distinct(seen)
    ensures Distinct(AppendNew(seen, s))
    ensures |seen| <= |AppendNew(seen, s)|
    ensures AppendNew(seen, s)[..|seen|] == seen
    ensures Elems(AppendNew(seen, s)) == Elems(seen) + Elems(s)
    decreases |s|
  {
    if s != [] {
      if s[0] in seen {
        AppendNewSpec(seen, s[1..]);
        assert Elems(s) == {s[0]} + Elems(s[1..]);
      } else {
        var seen' := seen + [s[0]];
        assert Distinct(seen');
        AppendNewSpec(seen', s[1..]);
        var r := AppendNew(seen', s[1..]);
        assert r[..|seen|] == r[..|seen'|][..|seen|];
        assert Elems(s) == {s[0]} + Elems(s[1..]);
        assert Elems(seen') == Elems(seen) + {s[0]};
      }
    }
  }

  /** Position of the first occurrence of `x` in `s`; |s| when absent. */
  function IndexOf<T(==)>(s: seq<T>, x: T): (k: nat)
    ensures k <= |s|
    ensures k < |s| <==> x in s
    ensures k < |s| ==> s[k] == x
    ensures forall m :: 0 <= m < k ==> s[m] != x
  {
    if s == [] then 0
    else if s[0] == x then 0
    else 1 + IndexOf(s[1..], x)
  }

  /** In a duplicate-free list that starts with `p`, the elements of `p` keep
      their positions and every other element comes after them. */
  lemma IndexInPrefix<T>(r: seq<T>, p: seq<T>, x: T)
    requires Distinct(r) && |p| <= |r| && r[..|p|] == p
    ensures x in p ==> IndexOf(r, x) == IndexOf(p, x) < |p|
    ensures x !in p && x in r ==> |p| <= IndexOf(r, x)
  {
    if x in p {
      var m := IndexOf(p, x);
      assert r[m] == x;
    }
  }

  /** First-seen order: among the elements `AppendNew` adds, one comes before
      another exactly when its first occurrence in the input does. */
  lemma {:induction false} AppendNewOrder<T>(seen: seq<T>, s: seq<T>, x: T, y: T)
    requires Distinct(seen)
    requires x in s && y in s && x !in seen && y !in seen
    ensures IndexOf(AppendNew(seen, s), x) < IndexOf(AppendNew(seen, s), y)
        <==> IndexOf(s, x) < IndexOf(s, y)
    decreases |s|
  {
    var r := AppendNew(seen, s);
    AppendNewSpec(seen, s);
    if s[0] in seen {
      assert x != s[0] && y != s[0];
      assert x in s[1..] && y in s[1..];
      AppendNewOrder(seen, s[1..], x, y);
    } else {
      var seen' := seen + [s[0]];
      assert Distinct(seen');
      assert r == AppendNew(seen', s[1..]);
      AppendNewSpec(seen', s[1..]);
      assert x in Elems(s) && y in Elems(s);
      IndexInPrefix(r, seen', x);
      IndexInPrefix(r, seen', y);
      if x != s[0] && y != s[0] {
        assert x in s[1..] && y in s[1..];
        AppendNewOrder(seen', s[1..], x, y);
      } else if x == s[0] {
        assert IndexOf(seen', x) == |seen|;
      }
    }
  }

  lemma ElemsAppend<T>(r: seq<T>, more: seq<T>)
    ensures Elems(r + more) == Elems(r) + Elems(more)
  {
  }

  /** Two duplicate-free lists with no common element concatenate to a
      duplicate-free list. */
  lemma DistinctAppend<T>(r: seq<T>, more: seq<T>)
    requires Distinct(r) && Distinct(more) && Elems(r) !! Elems(more)
    ensures Distinct(r + more)
  {
    var r' := r + more;
    forall a, b | 0 <= a < b < |r'| ensures r'[a] != r'[b] {
      if b >= |r| && a < |r| {
        assert r'[b] == more[b - |r|] && r'[b] in Elems(more) && r'[a] == r[a] && r'[a] in Elems(r);
      } else if a >= |r| {
        assert r'[a] == more[a - |r|] && r'[b] == more[b - |r|];
      }
    }
  }

  /** Adding new elements to the visited part of a finite universe leaves
      strictly fewer unvisited ones. */
  lemma DifferenceShrinks<T>(all: set<T>, seen: set<T>, add: set<T>)
    requires add <= all && add !! seen && add != {}
    ensures all - (seen + add) < all - seen
  {
    var x :| x in add;
    assert x in all - seen;
  }

  /** The elements of `s` that `keep` accepts, in their order in `s`. */
  function Filter<T(!new)>(s: seq<T>, keep: T -> bool): (r: seq<T>)
    ensures |r| <= |s|
    ensures forall x :: x in r <==> x in s && keep(x)
  {
    if s == [] then []
    else
      assert forall x :: x in s <==> x == s[0] || x in s[1..];
      (if keep(s[0]) then [s[0]] else []) + Filter(s[1..], keep)
  }

  /** Filtering one more element at the end. */
  lemma {:induction false} FilterSnoc<T(!new)>(s: seq<T>, x: T, keep: T -> bool)
    ensures Filter(s + [x], keep) == Filter(s, keep) + (if keep(x) then [x] else [])
  {
    if s != [] {
      assert (s + [x])[0] == s[0] && (s + [x])[1..] == s[1..] + [x];
      FilterSnoc(s[1..], x, keep);
    } else {
      assert [x][1..] == [];
    }
  }

  /** Filtering keeps the relative order of what it keeps. */
  lemma {:induction false} FilterOrder<T(!new)>(s: seq<T>, keep: T -> bool, x: T, y: T)
    requires x in Filter(s, keep) && y in Filter(s, keep)
    ensures IndexOf(Filter(s, keep), x) < IndexOf(Filter(s, keep), y) <==> IndexOf(s, x) < IndexOf(s, y)
  {
    var r := Filter(s, keep);
    var rest := Filter(s[1..], keep);
    var front: seq<T> := if keep(s[0]) then [s[0]] else [];
    assert r == front + rest;
    if x != s[0] && y != s[0] {
      assert x in rest && y in rest;
      FilterOrder(s[1..], keep, x, y);
      IndexOfAfter(front, rest, x);
      IndexOfAfter(front, rest, y);
    } else if x == s[0] && y != s[0] {
      assert r[0] == x;
    } else if x != s[0] && y == s[0] {
      assert r[0] == y;
    }
  }

  lemma IndexOfAfter<T>(front: seq<T>, rest: seq<T>, x: T)
    requires |front| <= 1 && x !in front
    ensures IndexOf(front + rest, x) == |front| + IndexOf(rest, x)
  {
    if front != [] {
      assert (front + rest)[1..] == rest;
    } else {
      assert front + rest == rest;
    }
  }
}
