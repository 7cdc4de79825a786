/**
 * Row selection by a boolean mask, `df[mask]`: the rows for which the mask
 * holds, in their original order, unchanged.
 */
module Select {

  /** The rows of `s` that satisfy `keep`, in order. */
  function Where<T(!new)>(s: seq<T>, keep: T -> bool): (r: seq<T>)
    ensures |r| <= |s|
  {
    if s == [] then [] else (if keep(s[0]) then [s[0]] else []) + Where(s[1..], keep)
  }

  /** A row is kept exactly when it is a row of the input and the mask holds of it. */
  lemma {:induction false} WhereMembership<T(!new)>(s: seq<T>, keep: T -> bool)
    ensures forall x :: x in Where(s, keep) <==> x in s && keep(x)
  {
    if s != [] {
      WhereMembership(s[1..], keep);
      assert s == [s[0]] + s[1..];
    }
  }

  /** Number of rows of `s` that satisfy `keep`. */
  function Count<T(!new)>(s: seq<T>, keep: T -> bool): nat
  {
    |Where(s, keep)|
  }

  /** Masking distributes over concatenation, so relative order is kept. */
  lemma {:induction false} WhereAppend<T(!new)>(a: seq<T>, b: seq<T>, keep: T -> bool)
    ensures Where(a + b, keep) == Where(a, keep) + Where(b, keep)
  {
    if a == [] {
      assert a + b == b;
    } else {
      var head := if keep(a[0]) then [a[0]] else [];
      assert (a + b)[0] == a[0];
      assert (a + b)[1..] == a[1..] + b;
      assert Where(a + b, keep) == head + Where(a[1..] + b, keep);
      WhereAppend(a[1..], b, keep);
      assert Where(a, keep) == head + Where(a[1..], keep);
    }
  }

  /** A single row is kept exactly when the mask holds of it. */
  lemma WhereSingle<T(!new)>(x: T, keep: T -> bool)
    ensures Where([x], keep) == if keep(x) then [x] else []
  {
    assert [x][1..] == [];
  }

  /** The mask leaves a sequence unchanged exactly when every row satisfies it. */
  lemma {:induction false} WhereAllKept<T(!new)>(s: seq<T>, keep: T -> bool)
    ensures Where(s, keep) == s <==> forall i :: 0 <= i < |s| ==> keep(s[i])
  {
    if forall i :: 0 <= i < |s| ==> keep(s[i]) {
      if s != [] {
        assert forall i :: 0 <= i < |s[1..]| ==> keep(s[1..][i]) by {
          forall i | 0 <= i < |s[1..]| ensures keep(s[1..][i]) {
            assert s[1..][i] == s[i + 1];
          }
        }
        WhereAllKept(s[1..], keep);
        assert s == [s[0]] + s[1..];
      }
    } else {
      var i :| 0 <= i < |s| && !keep(s[i]);
      WhereMembership(s, keep);
      assert s[i] in s;
      assert s[i] !in Where(s, keep);
    }
  }

  /** When no row satisfies the mask, nothing is kept. */
  lemma WhereNoneKept<T(!new)>(s: seq<T>, keep: T -> bool)
    requires forall i :: 0 <= i < |s| ==> !keep(s[i])
    ensures Where(s, keep) == []
  {
    WhereMembership(s, keep);
  }

  /** Reordering the input does not change how many rows are kept. */
  lemma {:induction false} CountPermutation<T(!new)>(s: seq<T>, t: seq<T>, keep: T -> bool)
    requires multiset(s) == multiset(t)
    ensures Count(s, keep) == Count(t, keep)
    decreases |s|
  {
    if s == [] {
      assert |t| == |multiset(t)| == 0;
    } else {
      var x := s[0];
      var j := MatchFirst(s, t);
      var a, b, rest := t[..j], t[j + 1..], s[1..];
      CountPermutation(rest, a + b, keep);
      assert Count(t, keep) == Count(a + b, keep) + Count([x], keep) by {
        assert t == a + [x] + b;
        WhereRemove(a, x, b, keep);
      }
      assert Count(s, keep) == Count([x], keep) + Count(rest, keep) by {
        assert s == [x] + rest;
        WhereAppend([x], rest, keep);
      }
    }
  }

  /** Where the first row of `s` sits in a reordering `t`, and what is left of both. */
  lemma MatchFirst<T>(s: seq<T>, t: seq<T>) returns (j: nat)
    requires s != [] && multiset(s) == multiset(t)
    ensures j < |t| && t[j] == s[0]
    ensures multiset(s[1..]) == multiset(t[..j] + t[j + 1..])
  {
    assert s[0] in multiset(t);
    j :| 0 <= j < |t| && t[j] == s[0];
    RemoveAt(t, j);
    assert s == [s[0]] + s[1..];
  }

  /** Removing the row at position j removes one occurrence of it. */
  lemma RemoveAt<T>(t: seq<T>, j: nat)
    requires j < |t|
    ensures multiset(t[..j] + t[j + 1..]) == multiset(t) - multiset{t[j]}
  {
    assert t == t[..j] + [t[j]] + t[j + 1..];
  }

  /** Removing one row from between two others loses only that row's contribution. */
  lemma WhereRemove<T(!new)>(a: seq<T>, x: T, b: seq<T>, keep: T -> bool)
    ensures Count(a + [x] + b, keep) == Count(a + b, keep) + Count([x], keep)
  {
    WhereAppend(a + [x], b, keep);
    WhereAppend(a, [x], keep);
    WhereAppend(a, b, keep);
  }

  /** If every row of a prefix satisfies the mask, at least that many rows are kept. */
  lemma CountAtLeastPrefix<T(!new)>(s: seq<T>, m: nat, keep: T -> bool)
    requires m <= |s|
    requires forall i :: 0 <= i < m ==> keep(s[i])
    ensures Count(s, keep) >= m
  {
    assert s == s[..m] + s[m..];
    WhereAppend(s[..m], s[m..], keep);
    WhereAllKept(s[..m], keep);
  }

  /** If no row after position m satisfies the mask, at most m rows are kept. */
  lemma CountAtMostPrefix<T(!new)>(s: seq<T>, m: nat, keep: T -> bool)
    requires m <= |s|
    requires forall i :: m <= i < |s| ==> !keep(s[i])
    ensures Count(s, keep) <= m
  {
    assert s == s[..m] + s[m..];
    WhereAppend(s[..m], s[m..], keep);
    WhereNoneKept(s[m..], keep);
  }
}
