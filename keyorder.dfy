/**
 The order in which an object store hands out its records: ascending key
 order, which for string keys is lexicographic comparison of characters.
 */
module KeyOrder {
  import opened Records

  /** `a` sorts before or equal to `b`: a prefix of `b`, or smaller at the
      first character where they differ. */
  function KeyLe(a: Id, b: Id): (le: bool)
    ensures a <= b ==> le
    ensures le && |a| > 0 ==> |b| > 0 && a[0] <= b[0]
    decreases |a|
  {
    |a| == 0 || (|b| > 0 && (a[0] < b[0] || (a[0] == b[0] && KeyLe(a[1..], b[1..]))))
  }

  lemma {:induction false} KeyLeReflexive(a: Id)
    ensures KeyLe(a, a)
    decreases |a|
  {
    if |a| > 0 { KeyLeReflexive(a[1..]); }
  }

  lemma {:induction false} KeyLeTotal(a: Id, b: Id)
    ensures KeyLe(a, b) || KeyLe(b, a)
    decreases |a|
  {
    if |a| > 0 && |b| > 0 && a[0] == b[0] { KeyLeTotal(a[1..], b[1..]); }
  }

  lemma {:induction false} KeyLeAntisymmetric(a: Id, b: Id)
    requires KeyLe(a, b) && KeyLe(b, a)
    ensures a == b
    decreases |a|
  {
    if |a| > 0 {
      KeyLeAntisymmetric(a[1..], b[1..]);
      assert a == [a[0]] + a[1..] && b == [b[0]] + b[1..];
    }
  }

  lemma {:induction false} KeyLeTransitive(a: Id, b: Id, c: Id)
    requires KeyLe(a, b) && KeyLe(b, c)
    ensures KeyLe(a, c)
    decreases |a|
  {
    if |a| > 0 && a[0] == b[0] && b[0] == c[0] {
      KeyLeTransitive(a[1..], b[1..], c[1..]);
    }
  }

  /** `a` and `b` agree up to some index where `a` has the smaller character. */
  predicate FirstDifferenceLess(a: Id, b: Id) {
    exists i :: 0 <= i < |a| && i < |b| && a[..i] == b[..i] && a[i] < b[i]
  }

  /** Strings with the same first character compare as their tails do. */
  lemma FirstDifferenceTail(a: Id, b: Id)
    requires |a| > 0 && |b| > 0 && a[0] == b[0]
    ensures FirstDifferenceLess(a, b) <==> FirstDifferenceLess(a[1..], b[1..])
    ensures a <= b <==> a[1..] <= b[1..]
  {
    var a', b' := a[1..], b[1..];
    assert a == [a[0]] + a' && b == [b[0]] + b';
    if i :| 0 <= i < |a| && i < |b| && a[..i] == b[..i] && a[i] < b[i] {
      assert i > 0 && a'[..i - 1] == b'[..i - 1] && a'[i - 1] == a[i] && b'[i - 1] == b[i];
    }
    if j :| 0 <= j < |a'| && j < |b'| && a'[..j] == b'[..j] && a'[j] < b'[j] {
      assert a[..j + 1] == [a[0]] + a'[..j] && b[..j + 1] == [b[0]] + b'[..j];
      assert a[j + 1] == a'[j] && b[j + 1] == b'[j];
    }
  }

  /** A larger first character rules out a smaller first difference. */
  lemma FirstDifferenceGreater(a: Id, b: Id)
    requires |a| > 0 && |b| > 0 && a[0] > b[0]
    ensures !FirstDifferenceLess(a, b)
  {
    forall i | 0 < i <= |a| && i <= |b| ensures a[..i] != b[..i] {
      assert a[..i][0] == a[0] && b[..i][0] == b[0];
    }
  }

  /** The key order is the lexicographic order on strings: `a` is a prefix of
      `b`, or the two agree up to some index where `a` has the smaller character. */
  lemma {:induction false} KeyLeLexicographic(a: Id, b: Id)
    ensures KeyLe(a, b) <==> (a <= b || exists i :: 0 <= i < |a| && i < |b| && a[..i] == b[..i] && a[i] < b[i])
    decreases |a|
  {
    assert FirstDifferenceLess(a, b) <==> exists i :: 0 <= i < |a| && i < |b| && a[..i] == b[..i] && a[i] < b[i];
    if |a| == 0 || |b| == 0 {
    } else if a[0] < b[0] {
      assert a[..0] == b[..0];
    } else if a[0] > b[0] {
      FirstDifferenceGreater(a, b);
    } else {
      KeyLeLexicographic(a[1..], b[1..]);
      FirstDifferenceTail(a, b);
    }
  }

  /** Records listed in ascending order of their ids. */
  predicate SortedByKey(xs: seq<Article>) {
    forall i, j :: 0 <= i < j < |xs| ==> KeyLe(xs[i].id, xs[j].id)
  }

  /** The smallest key of a non-empty set of keys. */
  method MinKey(keys: set<Id>) returns (k: Id)
    requires keys != {}
    ensures k in keys
    ensures forall x :: x in keys ==> KeyLe(k, x)
  {
    k :| k in keys;
    KeyLeReflexive(k);
    var rest := keys - {k};
    while rest != {}
      invariant rest <= keys && k in keys
      invariant forall x :: x in keys - rest ==> KeyLe(k, x)
      decreases rest
    {
      var x :| x in rest;
      if !KeyLe(k, x) {
        KeyLeTotal(k, x);
        forall y | y in keys - rest ensures KeyLe(x, y) {
          KeyLeTransitive(x, k, y);
        }
        k := x;
        KeyLeReflexive(k);
      }
      rest := rest - {x};
    }
  }
}
