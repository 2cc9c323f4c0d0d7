/** The order in which modules are reconciled (import-analyzer.py:396): Python's
    `sorted` on `(module, path)` tuples, that is lexicographic on the module name and
    then on the path. */
module Ordering {
  import opened Strings

  /** A module to check: its dotted name as written in the import and its resolved path. */
  type Key = (string, string)

  /** Tuple comparison: first components, then second components. */
  predicate KeyLess(a: Key, b: Key)
  {
    Less(a.0, b.0) || (a.0 == b.0 && Less(a.1, b.1))
  }

  lemma KeyLessIrreflexive(a: Key)
    ensures !KeyLess(a, a)
  {
    LessIrreflexive(a.0);
    LessIrreflexive(a.1);
  }

  lemma KeyLessTransitive(a: Key, b: Key, c: Key)
    requires KeyLess(a, b) && KeyLess(b, c)
    ensures KeyLess(a, c)
  {
    if Less(a.0, b.0) && Less(b.0, c.0) {
      LessTransitive(a.0, b.0, c.0);
    } else if a.0 == b.0 && b.0 == c.0 {
      LessTransitive(a.1, b.1, c.1);
    }
  }

  lemma KeyLessTotal(a: Key, b: Key)
    ensures a == b || KeyLess(a, b) || KeyLess(b, a)
  {
    LessTotal(a.0, b.0);
    LessTotal(a.1, b.1);
  }

  lemma KeyLessAsymmetric(a: Key, b: Key)
    requires KeyLess(a, b)
    ensures !KeyLess(b, a)
  {
    if KeyLess(b, a) {
      KeyLessTransitive(a, b, a);
      KeyLessIrreflexive(a);
    }
  }

  /** `k` is the smallest element of `s`. */
  predicate IsLeast(k: Key, s: set<Key>)
  {
    k in s && forall o :: o in s && o != k ==> KeyLess(k, o)
  }

  /** Every non-empty finite set of keys has a least element. */
  lemma {:induction false} LeastExists(s: set<Key>)
    requires s != {}
    ensures exists k :: IsLeast(k, s)
    decreases |s|
  {
    var x :| x in s;
    if s == {x} {
      assert IsLeast(x, s);
    } else {
      var rest := s - {x};
      LeastExists(rest);
      var m :| IsLeast(m, rest);
      KeyLessTotal(x, m);
      if KeyLess(x, m) {
        forall o | o in s && o != x
          ensures KeyLess(x, o)
        {
          if o != m {
            KeyLessTransitive(x, m, o);
          }
        }
        assert IsLeast(x, s);
      } else {
        assert IsLeast(m, s);
      }
    }
  }

  lemma LeastUnique(s: set<Key>)
    ensures forall a, b :: IsLeast(a, s) && IsLeast(b, s) ==> a == b
  {
    forall a, b | IsLeast(a, s) && IsLeast(b, s)
      ensures a == b
    {
      if a != b {
        KeyLessAsymmetric(a, b);
      }
    }
  }

  /** `sorted(s)`: the elements of `s`, each once, in strictly increasing order. */
  function SortedKeys(s: set<Key>): (r: seq<Key>)
    ensures |r| == |s|
    ensures forall k :: k in r <==> k in s
    ensures forall i, j :: 0 <= i < j < |r| ==> KeyLess(r[i], r[j])
    decreases |s|
  {
    if s == {} then []
    else
      LeastExists(s);
      LeastUnique(s);
      var k :| IsLeast(k, s);
      var rest := SortedKeys(s - {k});
      [k] + rest
  }
}
