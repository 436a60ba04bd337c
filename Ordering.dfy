/**
 The orders a `TreeMap` walks its keys in: `String.compareTo` for the cities
 and numeric order for the floor counts, and the ascending walk itself.
 */
module Ordering {

  /** `less` is a strict total order: irreflexive, transitive and total. */
  ghost predicate IsStrictTotalOrder<T(!new)>(less: (T, T) -> bool)
  {
    && (forall a :: !less(a, a))
    && (forall a, b, c :: less(a, b) && less(b, c) ==> less(a, c))
    && (forall a, b :: a != b ==> less(a, b) || less(b, a))
  }

  /** Every key of `ks` is below every later one. */
  ghost predicate Ascending<T>(ks: seq<T>, less: (T, T) -> bool)
  {
    forall i, j :: 0 <= i < j < |ks| ==> less(ks[i], ks[j])
  }

  /**
   The lexicographic order as `String.compareTo` documents it: at the first
   index where the strings differ the character of `a` is smaller, or `a` is
   a proper prefix of `b`.
   */
  ghost predicate LexLess(a: string, b: string)
  {
    || (exists k :: 0 <= k < |a| && k < |b| && a[..k] == b[..k] && a[k] < b[k])
    || (|a| < |b| && a == b[..|a|])
  }

  /**
   `a.compareTo(b) < 0` for Java strings, computed character by character
   from the front; it is exactly the documented lexicographic order.
   */
  predicate StrLess(a: string, b: string)
    ensures StrLess(a, b) <==> LexLess(a, b)
  {
    if a == [] then LexFromEmpty(b); b != []
    else if b == [] then LexToEmpty(a); false
    else if a[0] != b[0] then LexHeadsDiffer(a, b); a[0] < b[0]
    else LexTail(a, b); StrLess(a[1..], b[1..])
  }

  lemma LexFromEmpty(b: string)
    ensures LexLess([], b) <==> b != []
  {
    if b != [] {
      assert [] == b[..0];
    }
  }

  lemma LexToEmpty(a: string)
    requires a != []
    ensures !LexLess(a, [])
  {
  }

  lemma LexHeadsDiffer(a: string, b: string)
    requires a != [] && b != [] && a[0] != b[0]
    ensures LexLess(a, b) <==> a[0] < b[0]
  {
    if a[0] < b[0] {
      assert a[..0] == b[..0];
    }
  }

  lemma LexTail(a: string, b: string)
    requires a != [] && b != [] && a[0] == b[0]
    ensures LexLess(a, b) <==> LexLess(a[1..], b[1..])
  {
    if LexLess(a, b) {
      LexTailDown(a, b);
    }
    if LexLess(a[1..], b[1..]) {
      LexTailUp(a, b);
    }
  }

  lemma LexTailDown(a: string, b: string)
    requires a != [] && b != [] && a[0] == b[0]
    requires LexLess(a, b)
    ensures LexLess(a[1..], b[1..])
  {
    var a', b' := a[1..], b[1..];
    if |a| < |b| && a == b[..|a|] {
      assert a' == b'[..|a'|];
    } else {
      var k :| 0 <= k < |a| && k < |b| && a[..k] == b[..k] && a[k] < b[k];
      assert a'[..k - 1] == a[..k][1..] == b[..k][1..] == b'[..k - 1];
      assert a'[k - 1] < b'[k - 1];
    }
  }

  lemma LexTailUp(a: string, b: string)
    requires a != [] && b != [] && a[0] == b[0]
    requires LexLess(a[1..], b[1..])
    ensures LexLess(a, b)
  {
    var a', b' := a[1..], b[1..];
    if |a'| < |b'| && a' == b'[..|a'|] {
      assert a == [a[0]] + a' && b[..|a|] == [b[0]] + b'[..|a'|];
    } else {
      var k :| 0 <= k < |a'| && k < |b'| && a'[..k] == b'[..k] && a'[k] < b'[k];
      assert a[..k + 1] == [a[0]] + a'[..k] && b[..k + 1] == [b[0]] + b'[..k];
      assert a[k + 1] < b[k + 1];
    }
  }

  lemma {:induction false} StrLessIrreflexive(a: string)
    ensures !StrLess(a, a)
  {
    if a != [] {
      StrLessIrreflexive(a[1..]);
    }
  }

  lemma {:induction false} StrLessTransitive(a: string, b: string, c: string)
    requires StrLess(a, b) && StrLess(b, c)
    ensures StrLess(a, c)
  {
    if a != [] && a[0] == b[0] && b[0] == c[0] {
      StrLessTransitive(a[1..], b[1..], c[1..]);
    }
  }

  lemma {:induction false} StrLessTotal(a: string, b: string)
    requires a != b
    ensures StrLess(a, b) || StrLess(b, a)
  {
    if a != [] && b != [] && a[0] == b[0] {
      assert a == [a[0]] + a[1..] && b == [b[0]] + b[1..];
      StrLessTotal(a[1..], b[1..]);
    }
  }

  /** The natural order of `String`, as a `TreeMap<String, _>` uses it. */
  lemma StringOrder()
    ensures IsStrictTotalOrder(StrLess)
  {
    forall a ensures !StrLess(a, a) {
      StrLessIrreflexive(a);
    }
    forall a, b, c | StrLess(a, b) && StrLess(b, c) ensures StrLess(a, c) {
      StrLessTransitive(a, b, c);
    }
    forall a, b | a != b ensures StrLess(a, b) || StrLess(b, a) {
      StrLessTotal(a, b);
    }
  }

  /** The least key of a non-empty key set: the one a `TreeMap` visits first. */
  method Least<T(==,!new)>(keys: set<T>, less: (T, T) -> bool) returns (m: T)
    requires keys != {}
    requires IsStrictTotalOrder(less)
    ensures m in keys
    ensures forall k :: k in keys && k != m ==> less(m, k)
  {
    m :| m in keys;
    var rest := keys - {m};
    while rest != {}
      invariant m in keys && m !in rest && rest <= keys
      invariant forall k :: k in keys && k !in rest && k != m ==> less(m, k)
      decreases rest
    {
      var k :| k in rest;
      if less(k, m) {
        m := k;
      }
      rest := rest - {k};
    }
  }

  /**
   The keys of a sorted map in the order its entry set yields them: every key
   exactly once, in ascending order.
   */
  method AscendingKeys<T(==,!new)>(keys: set<T>, less: (T, T) -> bool) returns (ks: seq<T>)
    requires IsStrictTotalOrder(less)
    ensures Ascending(ks, less)
    ensures forall k :: k in keys <==> k in ks
    ensures |ks| == |keys|
  {
    ks := [];
    var rest := keys;
    while rest != {}
      invariant rest <= keys
      invariant forall k :: k in keys <==> k in ks || k in rest
      invariant forall k :: k in ks ==> k !in rest
      invariant |ks| + |rest| == |keys|
      invariant Ascending(ks, less)
      invariant forall i, k :: 0 <= i < |ks| && k in rest ==> less(ks[i], k)
      decreases rest
    {
      var m := Least(rest, less);
      ks := ks + [m];
      rest := rest - {m};
    }
  }
}
