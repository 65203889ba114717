/** The order sort.Strings sorts by, and the sorted list of a set of names. */
module StringOrder {

  predicate Less(a: string, b: string) {
    if b == "" then false
    else if a == "" then true
    else if a[0] != b[0] then a[0] < b[0]
    else Less(a[1..], b[1..])
  }

  lemma {:induction false} LessTotal(a: string, b: string)
    ensures a == b || Less(a, b) || Less(b, a)
    ensures !(Less(a, b) && Less(b, a))
    ensures !Less(a, a)
  {
    if a != "" {
      LessTotal(a[1..], if b == "" then "" else b[1..]);
    }
    if a != "" && b != "" && a[0] == b[0] && a[1..] == b[1..] {
      assert a == [a[0]] + a[1..] && b == [b[0]] + b[1..];
    }
  }

  lemma {:induction false} LessTransitive(a: string, b: string, c: string)
    requires Less(a, b) && Less(b, c)
    ensures Less(a, c)
  {
    if a != "" && a[0] == b[0] == c[0] {
      LessTransitive(a[1..], b[1..], c[1..]);
    }
  }

  /** Up to i the two agree; there the first ends, or has the smaller character. */
  predicate SmallerAt(a: string, b: string, i: nat) {
    i <= |a| && i < |b| && a[..i] == b[..i] && (i == |a| || a[i] < b[i])
  }

  /** The order is that of a dictionary. */
  lemma {:induction false} LessIs(a: string, b: string)
    ensures Less(a, b) <==> exists i: nat :: SmallerAt(a, b, i)
    decreases |a|
  {
    if a == "" || b == "" || a[0] != b[0] {
      assert b != "" ==> (SmallerAt(a, b, 0) <==> a == "" || a[0] < b[0]);
      forall i: nat
        ensures SmallerAt(a, b, i) ==> i == 0
      {
        if 0 < i <= |a| && i <= |b| {
          assert a[..i][0] == a[0] && b[..i][0] == b[0];
        }
      }
    } else {
      LessIs(a[1..], b[1..]);
      if i: nat :| SmallerAt(a[1..], b[1..], i) {
        SmallerLater(a, b, i);
      }
      if i: nat :| SmallerAt(a, b, i) {
        assert i > 0;
        SmallerLater(a, b, i - 1);
        assert SmallerAt(a[1..], b[1..], i - 1);
      }
    }
  }

  lemma SmallerLater(a: string, b: string, i: nat)
    requires a != "" && b != "" && a[0] == b[0]
    ensures SmallerAt(a, b, i + 1) <==> SmallerAt(a[1..], b[1..], i)
  {
    if i + 1 <= |a| && i + 1 <= |b| {
      assert a[..i + 1] == [a[0]] + a[1..][..i] && b[..i + 1] == [b[0]] + b[1..][..i];
      assert a[..i + 1][1..] == a[1..][..i] && b[..i + 1][1..] == b[1..][..i];
    }
  }

  ghost predicate Ascending(names: seq<string>) {
    forall i, j :: 0 <= i < j < |names| ==> Less(names[i], names[j])
  }

  ghost predicate IsLeast(x: string, names: set<string>) {
    x in names && forall y <- names :: y == x || Less(x, y)
  }

  lemma {:induction false} LeastExists(names: set<string>)
    requires names != {}
    ensures exists x :: IsLeast(x, names)
    decreases names
  {
    var x :| x in names;
    if names != {x} {
      LeastExists(names - {x});
      var y :| IsLeast(y, names - {x});
      LessTotal(x, y);
      if Less(y, x) {
        x := y;
      } else {
        forall z | z in names && z != x
          ensures Less(x, z)
        {
          if z != y {
            LessTransitive(x, y, z);
          }
        }
      }
    }
    assert IsLeast(x, names);
  }

  lemma LeastIsUnique(x: string, y: string, names: set<string>)
    requires IsLeast(x, names) && IsLeast(y, names)
    ensures x == y
  {
    LessTotal(x, y);
  }

  ghost function Least(names: set<string>): (x: string)
    requires names != {}
    ensures IsLeast(x, names)
  {
    LeastExists(names);
    var x :| IsLeast(x, names);
    x
  }

  /** The names of a set in ascending order. */
  ghost function Sorted(names: set<string>): (r: seq<string>)
    ensures forall x :: x in r <==> x in names
    ensures Ascending(r)
  {
    if names == {} then []
    else
      var x := Least(names);
      [x] + Sorted(names - {x})
  }

  /** Selects the least name of a set, looking at each of them. */
  method PickLeast(names: set<string>) returns (x: string)
    requires names != {}
    ensures x == Least(names)
  {
    x :| x in names;
    var todo := names - {x};
    while todo != {}
      invariant todo <= names && IsLeast(x, names - todo)
      decreases todo
    {
      var y :| y in todo;
      LessTotal(x, y);
      if Less(y, x) {
        forall z | z in names - todo && z != x
          ensures Less(y, z)
        {
          LessTransitive(y, x, z);
        }
        x := y;
      }
      todo := todo - {y};
    }
    assert names - todo == names;
    LeastIsUnique(x, Least(names), names);
  }

  method Sort(names: set<string>) returns (r: seq<string>)
    ensures r == Sorted(names)
  {
    r := [];
    var todo := names;
    while todo != {}
      invariant Sorted(names) == r + Sorted(todo)
      decreases todo
    {
      var x := PickLeast(todo);
      assert r + ([x] + Sorted(todo - {x})) == (r + [x]) + Sorted(todo - {x});
      r := r + [x];
      todo := todo - {x};
    }
    assert r + [] == r;
  }
}
