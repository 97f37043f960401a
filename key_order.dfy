/**
 * The order in which IndexedDB hands out string keys: element by element,
 * a proper prefix before any of its extensions.  An object-store cursor
 * opened in the default direction visits keys in this ascending order.
 */
module KeyOrder {

  /** `a` sorts strictly before `b`. */
  predicate Precedes(a: string, b: string)
    decreases |a|
  {
    if a == [] then b != []
    else if b == [] then false
    else if a[0] != b[0] then a[0] < b[0]
    else Precedes(a[1..], b[1..])
  }

  lemma {:induction false} PrecedesIrreflexive(a: string)
    ensures !Precedes(a, a)
    decreases |a|
  {
    if a != [] {
      PrecedesIrreflexive(a[1..]);
    }
  }

  lemma {:induction false} PrecedesAsymmetric(a: string, b: string)
    requires Precedes(a, b)
    ensures !Precedes(b, a)
    decreases |a|
  {
    if a != [] && b != [] && a[0] == b[0] {
      PrecedesAsymmetric(a[1..], b[1..]);
    }
  }

  lemma {:induction false} PrecedesTransitive(a: string, b: string, c: string)
    requires Precedes(a, b) && Precedes(b, c)
    ensures Precedes(a, c)
    decreases |a|
  {
    if a != [] && a[0] == b[0] && b[0] == c[0] {
      PrecedesTransitive(a[1..], b[1..], c[1..]);
    }
  }

  lemma {:induction false} PrecedesTotal(a: string, b: string)
    requires a != b
    ensures Precedes(a, b) || Precedes(b, a)
    decreases |a|
  {
    if a != [] && b != [] && a[0] == b[0] {
      assert a == [a[0]] + a[1..] && b == [b[0]] + b[1..];
      PrecedesTotal(a[1..], b[1..]);
    }
  }

  /** `m` comes before every other member of `s`. */
  predicate IsLeast(m: string, s: set<string>)
  {
    m in s && forall x :: x in s && x != m ==> Precedes(m, x)
  }

  /** Every non-empty finite set of keys has a first key. */
  lemma {:induction false} LeastExists(s: set<string>)
    requires s != {}
    ensures exists m :: IsLeast(m, s)
    decreases |s|
  {
    var y :| y in s;
    if s != {y} {
      var rest := s - {y};
      LeastExists(rest);
      var m :| IsLeast(m, rest);
      if Precedes(y, m) {
        forall x | x in s && x != y
          ensures Precedes(y, x)
        {
          if x != m {
            PrecedesTransitive(y, m, x);
          }
        }
        assert IsLeast(y, s);
      } else {
        PrecedesTotal(y, m);
        assert IsLeast(m, s);
      }
    } else {
      assert IsLeast(y, s);
    }
  }

  /** Each key comes strictly before every later one. */
  ghost predicate StrictlyAscending(ks: seq<string>)
  {
    forall i, j :: 0 <= i < j < |ks| ==> Precedes(ks[i], ks[j])
  }

  /** The keys that occur in `ks`. */
  function KeySet(ks: seq<string>): (keys: set<string>)
  {
    set x | x in ks
  }

  lemma KeySetAppend(ks: seq<string>, x: string)
    ensures KeySet(ks + [x]) == KeySet(ks) + {x}
  {
  }

  /** Appending a key that comes after all earlier ones keeps the order strict. */
  lemma AscendingAppend(ks: seq<string>, x: string)
    requires StrictlyAscending(ks)
    requires forall i :: 0 <= i < |ks| ==> Precedes(ks[i], x)
    ensures StrictlyAscending(ks + [x])
  {
  }

  /** In a sequence without repeats, no key reappears among the keys before it. */
  lemma DistinctPrefixExcludes(ks: seq<string>, i: nat, j: nat)
    requires Distinct(ks) && i <= j < |ks|
    ensures ks[j] !in KeySet(ks[..i])
  {
  }

  lemma KeySetEmpty(ks: seq<string>)
    ensures KeySet(ks) == {} <==> ks == []
  {
    if ks != [] {
      assert ks[0] in KeySet(ks);
    }
  }

  /** No key occurs twice. */
  ghost predicate Distinct(ks: seq<string>)
  {
    forall i, j :: 0 <= i < j < |ks| ==> ks[i] != ks[j]
  }

  lemma AscendingIsDistinct(ks: seq<string>)
    requires StrictlyAscending(ks)
    ensures Distinct(ks)
  {
    forall i, j | 0 <= i < j < |ks|
      ensures ks[i] != ks[j]
    {
      if ks[i] == ks[j] {
        PrecedesIrreflexive(ks[i]);
      }
    }
  }

  /** A set of keys has exactly one ascending enumeration. */
  lemma {:induction false} AscendingUnique(a: seq<string>, b: seq<string>)
    requires StrictlyAscending(a) && StrictlyAscending(b)
    requires KeySet(a) == KeySet(b)
    ensures a == b
    decreases |a|
  {
    if a == [] {
      KeySetEmpty(b);
    } else {
      assert a[0] in KeySet(a);
      assert b != [];
      assert b[0] in KeySet(b);
      if a[0] != b[0] {
        var i :| 0 <= i < |a| && a[i] == b[0];
        var j :| 0 <= j < |b| && b[j] == a[0];
        assert Precedes(a[0], b[0]);
        assert Precedes(b[0], a[0]);
        PrecedesAsymmetric(a[0], b[0]);
      }
      AscendingIsDistinct(a);
      AscendingIsDistinct(b);
      var ta, tb := a[1..], b[1..];
      forall x | x in ta
        ensures x in tb
      {
        var i :| 1 <= i < |a| && a[i] == x;
        assert x in KeySet(a);
        assert x in KeySet(b);
        var j :| 0 <= j < |b| && b[j] == x;
        assert j != 0;
      }
      forall x | x in tb
        ensures x in ta
      {
        var j :| 1 <= j < |b| && b[j] == x;
        assert x in KeySet(b);
        assert x in KeySet(a);
        var i :| 0 <= i < |a| && a[i] == x;
        assert i != 0;
      }
      assert KeySet(ta) == KeySet(tb);
      AscendingUnique(ta, tb);
      assert a == [a[0]] + ta && b == [b[0]] + tb;
    }
  }
}
