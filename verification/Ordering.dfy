/** `ORDER BY` over a finite set of rows, on a sort key without ties. */
module Ordering {

  ghost predicate NoTies<T(!new)>(rows: set<T>, rank: T -> int) {
    forall a, b | a in rows && b in rows && rank(a) == rank(b) :: a == b
  }

  ghost predicate Increasing<T>(s: seq<T>, rank: T -> int) {
    forall i, j | 0 <= i < j < |s| :: rank(s[i]) < rank(s[j])
  }

  function Elements<T>(s: seq<T>): set<T> {
    set x | x in s
  }

  lemma FirstKeepOrder<T>(s: seq<T>, n: nat, rank: T -> int)
    requires Increasing(s, rank) && n <= |s|
    ensures Increasing(s[..n], rank) && Elements(s[..n]) <= Elements(s)
  {
    forall i, j | 0 <= i < j < n ensures rank(s[..n][i]) < rank(s[..n][j]) {
      assert s[..n][i] == s[i] && s[..n][j] == s[j];
    }
  }

  ghost predicate IsLeast<T(!new)>(r: T, rows: set<T>, rank: T -> int) {
    r in rows && forall other | other in rows :: rank(r) <= rank(other)
  }

  lemma {:induction false} LeastExists<T(!new)>(rows: set<T>, rank: T -> int) returns (r: T)
    requires rows != {}
    ensures IsLeast(r, rows, rank)
  {
    var some :| some in rows;
    var rest := rows - {some};
    r := some;
    if rest != {} {
      var best := LeastExists(rest, rank);
      r := if rank(some) <= rank(best) then some else best;
    }
    forall other | other in rows ensures rank(r) <= rank(other) {
      assert other == some || other in rest;
    }
  }

  lemma LeastFirst<T(!new)>(r: T, rest: seq<T>, rows: set<T>, rank: T -> int)
    requires NoTies(rows, rank) && IsLeast(r, rows, rank)
    requires Increasing(rest, rank) && Elements(rest) == rows - {r}
    ensures Increasing([r] + rest, rank) && Elements([r] + rest) == rows
  {
    assert Elements([r] + rest) == {r} + Elements(rest);
    forall x | x in rest ensures rank(r) < rank(x) {
      assert x in Elements(rest);
    }
  }

  lemma {:induction false} OrderExists<T(!new)>(rows: set<T>, rank: T -> int) returns (s: seq<T>)
    requires NoTies(rows, rank)
    ensures Increasing(s, rank) && Elements(s) == rows
  {
    if rows == {} {
      s := [];
    } else {
      var r := LeastExists(rows, rank);
      var rest := OrderExists(rows - {r}, rank);
      LeastFirst(r, rest, rows, rank);
      s := [r] + rest;
    }
  }

  lemma HasOrder<T(!new)>(rows: set<T>, rank: T -> int)
    requires NoTies(rows, rank)
    ensures exists s: seq<T> :: Increasing(s, rank) && Elements(s) == rows
  {
    var s := OrderExists(rows, rank);
  }

  /** The rows in increasing order; by `OneOrder` there is no other such sequence. */
  ghost function SortBy<T(!new)>(rows: set<T>, rank: T -> int): (s: seq<T>)
    requires NoTies(rows, rank)
    ensures Increasing(s, rank) && Elements(s) == rows
  {
    HasOrder(rows, rank);
    var s: seq<T> :| Increasing(s, rank) && Elements(s) == rows;
    s
  }

  lemma NoElements<T>(t: seq<T>)
    ensures t == [] <==> Elements(t) == {}
  {
    if t != [] {
      assert t[0] in Elements(t);
    }
  }

  /** A set has one increasing order only. */
  lemma {:induction false} OneOrder<T(!new)>(s: seq<T>, t: seq<T>, rank: T -> int)
    requires Increasing(s, rank) && Increasing(t, rank) && Elements(s) == Elements(t)
    ensures s == t
  {
    if s == [] {
      NoElements(t);
    } else {
      assert s[0] in Elements(t) && (t != [] ==> t[0] in Elements(s));
      assert rank(s[0]) <= rank(t[0]) <= rank(s[0]);
      assert s[0] == t[0] by {
        var i :| 0 <= i < |t| && t[i] == s[0];
      }
      forall x ensures x in Elements(s[1..]) <==> x in Elements(s) && x != s[0] {
      }
      forall x ensures x in Elements(t[1..]) <==> x in Elements(t) && x != t[0] {
      }
      OneOrder(s[1..], t[1..], rank);
    }
  }

  lemma {:induction false} IncreasingSize<T>(s: seq<T>, rank: T -> int)
    requires Increasing(s, rank)
    ensures |Elements(s)| == |s|
  {
    if s == [] {
    } else {
      var last := |s| - 1;
      IncreasingSize(s[..last], rank);
      assert Elements(s) == Elements(s[..last]) + {s[last]};
      assert s[last] !in Elements(s[..last]);
    }
  }
}
