/** The order in which JavaScript's default `sort` puts strings: lexicographic on code units. */
module LexOrder {

  /** `a` sorts strictly before `b`. */
  predicate Below(a: string, b: string)
    decreases |a|
  {
    if |a| == 0 then |b| > 0
    else if |b| == 0 then false
    else a[0] < b[0] || (a[0] == b[0] && Below(a[1..], b[1..]))
  }

  lemma {:induction false} BelowIrreflexive(a: string)
    ensures !Below(a, a)
    decreases |a|
  {
    if |a| > 0 {
      BelowIrreflexive(a[1..]);
    }
  }

  lemma {:induction false} BelowAsymmetric(a: string, b: string)
    ensures Below(a, b) ==> !Below(b, a)
    decreases |a|
  {
    if |a| > 0 && |b| > 0 && a[0] == b[0] {
      BelowAsymmetric(a[1..], b[1..]);
    }
  }

  lemma {:induction false} BelowTransitive(a: string, b: string, c: string)
    requires Below(a, b) && Below(b, c)
    ensures Below(a, c)
    decreases |a|
  {
    if |a| > 0 && a[0] == b[0] && b[0] == c[0] {
      BelowTransitive(a[1..], b[1..], c[1..]);
    }
  }

  lemma {:induction false} BelowTotal(a: string, b: string)
    requires a != b
    ensures Below(a, b) || Below(b, a)
    decreases |a|
  {
    if |a| > 0 && |b| > 0 && a[0] == b[0] {
      BelowTotal(a[1..], b[1..]);
    }
  }

  /** `m` is the smallest element of `s`. */
  predicate IsLeast(m: string, s: set<string>) {
    m in s && forall e :: e in s && e != m ==> Below(m, e)
  }

  lemma {:induction false} LeastExists(s: set<string>)
    requires s != {}
    ensures exists m :: IsLeast(m, s)
    decreases |s|
  {
    var x :| x in s;
    if s == {x} {
      assert IsLeast(x, s);
    } else {
      var rest := s - {x};
      LeastExists(rest);
      var m :| IsLeast(m, rest);
      if Below(x, m) {
        forall e | e in s && e != x ensures Below(x, e) {
          if e != m { BelowTransitive(x, m, e); }
        }
        assert IsLeast(x, s);
      } else {
        BelowTotal(x, m);
        assert IsLeast(m, s);
      }
    }
  }

  /** Every element sorts strictly before every later one (so no element repeats). */
  predicate Increasing(ds: seq<string>) {
    forall i, j :: 0 <= i < j < |ds| ==> Below(ds[i], ds[j])
  }

  function Elems(ds: seq<string>): set<string> {
    set d | d in ds
  }

  lemma {:induction false} IncreasingDistinct(ds: seq<string>)
    requires Increasing(ds)
    ensures |Elems(ds)| == |ds|
    decreases |ds|
  {
    if |ds| > 0 {
      IncreasingDistinct(ds[1..]);
      assert Elems(ds) == {ds[0]} + Elems(ds[1..]);
      if ds[0] in Elems(ds[1..]) {
        var j :| 0 <= j < |ds[1..]| && ds[1..][j] == ds[0];
        assert Below(ds[0], ds[j + 1]);
        BelowIrreflexive(ds[0]);
        assert false;
      }
    }
  }

  /** In an increasing sequence, the same element cannot stand at two positions. */
  lemma IncreasingIndexUnique(ds: seq<string>, i: int, j: int)
    requires Increasing(ds) && 0 <= i < |ds| && 0 <= j < |ds| && ds[i] == ds[j]
    ensures i == j
  {
    BelowIrreflexive(ds[i]);
  }

  /** Putting the least element of `s` in front of an ascending listing of the rest lists `s` in ascending order. */
  lemma LeastCons(m: string, s: set<string>, tail: seq<string>)
    requires IsLeast(m, s) && Increasing(tail) && Elems(tail) == s - {m} && |tail| == |s - {m}|
    ensures Increasing([m] + tail) && Elems([m] + tail) == s && |[m] + tail| == |s|
  {
    var ds := [m] + tail;
    assert Increasing(ds) by {
      forall i, j | 0 <= i < j < |ds| ensures Below(ds[i], ds[j]) {
        assert ds[j] == tail[j - 1];
        if i > 0 {
          assert ds[i] == tail[i - 1];
        } else {
          assert tail[j - 1] in Elems(tail);
        }
      }
    }
    assert Elems(ds) == s by {
      assert Elems(ds) == {m} + Elems(tail);
    }
  }

  /** The elements of `s` in ascending order, as `Object.keys(..).sort()` lists them. */
  ghost function SortedOf(s: set<string>): (ds: seq<string>)
    ensures Increasing(ds) && Elems(ds) == s && |ds| == |s|
    decreases |s|
  {
    if s == {} then []
    else
      LeastExists(s);
      var m :| IsLeast(m, s);
      var tail := SortedOf(s - {m});
      LeastCons(m, s, tail);
      [m] + tail
  }
}
