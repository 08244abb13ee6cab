/**
 * Tables as sequences of rows in insertion order, and the few relational
 * operations the server's SQL statements need: filtering by a condition
 * (SELECT ... WHERE, DELETE ... WHERE), reversing (ORDER BY ... DESC over rows
 * kept in ascending order) and pairwise row constraints (uniqueness, order).
 */
module Tables {

  /** The rows of `s` satisfying `keep`, in table order. */
  function Where<T>(s: seq<T>, keep: T -> bool): (r: seq<T>)
    ensures |r| <= |s|
  {
    if s == [] then []
    else if keep(s[0]) then [s[0]] + Where(s[1..], keep)
    else Where(s[1..], keep)
  }

  /** A row survives the filter exactly when it was in the table and satisfies the condition. */
  lemma {:induction false} WhereMembers<T>(s: seq<T>, keep: T -> bool)
    ensures forall x :: x in Where(s, keep) <==> x in s && keep(x)
    ensures forall i :: 0 <= i < |Where(s, keep)| ==> Where(s, keep)[i] in s && keep(Where(s, keep)[i])
  {
    if s != [] {
      WhereMembers(s[1..], keep);
      assert s == [s[0]] + s[1..];
      var r, tail := Where(s, keep), Where(s[1..], keep);
      forall i | 0 <= i < |r| ensures r[i] in s && keep(r[i]) {
        if keep(s[0]) {
          if i > 0 { assert r[i] == tail[i - 1]; }
        } else {
          assert r[i] == tail[i];
        }
      }
    }
  }

  /** Each row occurs in the result as often as in the table if it satisfies the condition, else never. */
  lemma {:induction false} WhereCounts<T>(s: seq<T>, keep: T -> bool)
    ensures forall x :: multiset(Where(s, keep))[x] == if keep(x) then multiset(s)[x] else 0
  {
    if s != [] {
      WhereCounts(s[1..], keep);
      assert s == [s[0]] + s[1..];
    }
  }

  /** A filter that keeps every row returns the table unchanged. */
  lemma {:induction false} WhereKeepsAll<T>(s: seq<T>, keep: T -> bool)
    requires forall i :: 0 <= i < |s| ==> keep(s[i])
    ensures Where(s, keep) == s
  {
    if s != [] {
      WhereKeepsAll(s[1..], keep);
    }
  }

  /** `rel` holds of every pair of rows, taken in table order. */
  ghost predicate Pairwise<T>(s: seq<T>, rel: (T, T) -> bool) {
    forall i, j :: 0 <= i < j < |s| ==> rel(s[i], s[j])
  }

  /** A filtered table keeps every pairwise constraint of the table it came from. */
  lemma {:induction false} WherePairwise<T>(s: seq<T>, keep: T -> bool, rel: (T, T) -> bool)
    requires Pairwise(s, rel)
    ensures Pairwise(Where(s, keep), rel)
  {
    if s != [] {
      var tail := Where(s[1..], keep);
      assert Pairwise(s[1..], rel) by {
        forall i, j | 0 <= i < j < |s[1..]| ensures rel(s[1..][i], s[1..][j]) {
          assert s[1..][i] == s[i + 1] && s[1..][j] == s[j + 1];
        }
      }
      WherePairwise(s[1..], keep, rel);
      if keep(s[0]) {
        WhereMembers(s[1..], keep);
        forall j | 0 <= j < |tail| ensures rel(s[0], tail[j]) {
          assert tail[j] in s[1..];
          var k :| 0 <= k < |s[1..]| && s[1..][k] == tail[j];
          assert s[k + 1] == tail[j];
        }
        var r := [s[0]] + tail;
        forall i, j | 0 <= i < j < |r| ensures rel(r[i], r[j]) {
          if i > 0 {
            assert r[i] == tail[i - 1] && r[j] == tail[j - 1];
          } else {
            assert r[j] == tail[j - 1];
          }
        }
      }
    }
  }

  /** Appending a row that is related to every earlier row keeps a pairwise constraint. */
  lemma PairwiseAppend<T>(s: seq<T>, x: T, rel: (T, T) -> bool)
    requires Pairwise(s, rel)
    requires forall i :: 0 <= i < |s| ==> rel(s[i], x)
    ensures Pairwise(s + [x], rel)
  {
    var t := s + [x];
    forall i, j | 0 <= i < j < |t| ensures rel(t[i], t[j]) {
      if j < |s| {
        assert t[i] == s[i] && t[j] == s[j];
      } else {
        assert t[i] == s[i] && t[j] == x;
      }
    }
  }

  /** The rows of `s`, last first. */
  function Reverse<T>(s: seq<T>): (r: seq<T>)
    ensures |r| == |s|
    ensures forall i :: 0 <= i < |s| ==> r[i] == s[|s| - 1 - i]
  {
    seq(|s|, i requires 0 <= i < |s| => s[|s| - 1 - i])
  }

  /** Reversing neither adds nor drops a row. */
  lemma ReverseMembers<T>(s: seq<T>)
    ensures forall x :: x in Reverse(s) <==> x in s
  {
    var r := Reverse(s);
    forall x | x in s ensures x in r {
      var i :| 0 <= i < |s| && s[i] == x;
      assert r[|s| - 1 - i] == x;
    }
  }

  /** A pairwise constraint on a table holds with its arguments swapped on the reversed table. */
  lemma ReversePairwise<T>(s: seq<T>, rel: (T, T) -> bool)
    requires Pairwise(s, rel)
    ensures forall i, j :: 0 <= i < j < |s| ==> rel(Reverse(s)[j], Reverse(s)[i])
  {
    var r := Reverse(s);
    forall i, j | 0 <= i < j < |s| ensures rel(r[j], r[i]) {
      assert r[j] == s[|s| - 1 - j] && r[i] == s[|s| - 1 - i];
    }
  }
}
