/** Cardinality and counting facts shared by the other modules. */
module Counting {

  ghost predicate Injective<K, V>(m: map<K, V>) {
    forall a, b :: a in m && b in m && m[a] == m[b] ==> a == b
  }

  /** The naturals below `n`. */
  ghost function Below(n: nat): (s: set<nat>)
    ensures forall i: nat :: i in s <==> i < n
  {
    if n == 0 then {} else Below(n - 1) + {n - 1}
  }

  lemma {:induction false} BelowSize(n: nat)
    ensures |Below(n)| == n
  {
    if n > 0 {
      BelowSize(n - 1);
    }
  }

  /** An injective map has as many values as keys. */
  lemma {:induction false} ImageSize<K, V>(m: map<K, V>)
    requires Injective(m)
    ensures |m.Keys| == |m.Values|
    decreases |m|
  {
    if m.Keys != {} {
      var k :| k in m.Keys;
      var rest := m - {k};
      assert m.Keys == rest.Keys + {k};
      assert m.Values == rest.Values + {m[k]} by {
        forall v | v in m.Values ensures v in rest.Values + {m[k]} {
          var a :| a in m && m[a] == v;
          if a != k { assert a in rest && rest[a] == v; }
        }
      }
      ImageSize(rest);
    }
  }

  /** Indices below `n` used by an injective map: all of them exactly when it has `n` keys. */
  lemma Pigeonhole<K>(m: map<K, nat>, n: nat)
    requires Injective(m)
    requires forall k :: k in m ==> m[k] < n
    ensures |m| <= n
    ensures |m| == n <==> forall i: nat :: i < n ==> i in m.Values
  {
    ImageSize(m);
    BelowSize(n);
    assert m.Values <= Below(n);
    SubsetSize(m.Values, Below(n));
    if forall i: nat :: i < n ==> i in m.Values {
      assert m.Values == Below(n);
    }
  }

  lemma {:induction false} SubsetSize<T>(a: set<T>, b: set<T>)
    requires a <= b
    ensures |a| <= |b|
    ensures |a| == |b| ==> a == b
  {
    assert b == a + (b - a);
    assert |b| == |a| + |b - a|;
  }

  /** How many elements of `s` satisfy `p`. */
  ghost function Count<T>(s: seq<T>, p: T -> bool): (c: nat)
    ensures c <= |s|
  {
    if s == [] then 0 else Count(s[..|s| - 1], p) + if p(s[|s| - 1]) then 1 else 0
  }

  lemma {:induction false} CountUpdate<T>(s: seq<T>, p: T -> bool, i: nat, x: T)
    requires i < |s|
    ensures Count(s[i := x], p) == Count(s, p) - (if p(s[i]) then 1 else 0) + (if p(x) then 1 else 0)
  {
    var n := |s| - 1;
    if i == n {
      assert s[i := x][..n] == s[..n];
    } else {
      assert s[i := x][..n] == s[..n][i := x];
      CountUpdate(s[..n], p, i, x);
    }
  }

  lemma {:induction false} CountPositive<T>(s: seq<T>, p: T -> bool, i: nat)
    requires i < |s| && p(s[i])
    ensures Count(s, p) >= 1
  {
    if i < |s| - 1 { CountPositive(s[..|s| - 1], p, i); }
  }

  lemma {:induction false} CountZero<T>(s: seq<T>, p: T -> bool)
    ensures Count(s, p) == 0 <==> forall i :: 0 <= i < |s| ==> !p(s[i])
  {
    if s != [] {
      var t := s[..|s| - 1];
      CountZero(t, p);
      if forall i :: 0 <= i < |t| ==> !p(t[i]) {
        assert forall i :: 0 <= i < |s| - 1 ==> s[i] == t[i];
      } else {
        var i :| 0 <= i < |t| && p(t[i]);
        assert p(s[i]);
      }
    }
  }

  /** Two different positions that satisfy `p` count for two. */
  lemma {:induction false} CountTwo<T>(s: seq<T>, p: T -> bool, i: nat, j: nat)
    requires i < j < |s| && p(s[i]) && p(s[j])
    ensures Count(s, p) >= 2
  {
    if j < |s| - 1 {
      CountTwo(s[..|s| - 1], p, i, j);
    } else {
      CountPositive(s[..|s| - 1], p, i);
    }
  }

  ghost function Pick<T>(s: set<T>): (x: T)
    requires s != {}
    ensures x in s
  {
    var x :| x in s;
    x
  }

  lemma Smaller<K, V>(m: map<K, V>, k: K)
    requires k in m
    ensures |m - {k}| == |m| - 1
  {
    assert m.Keys == (m - {k}).Keys + {k};
  }

  /** The sum of the values of a map. */
  ghost function Sum<K>(m: map<K, nat>): (total: nat)
    decreases |m|
  {
    if m.Keys == {} then 0 else
    var k := Pick(m.Keys);
    Smaller(m, k);
    m[k] + Sum(m - {k})
  }

  lemma {:induction false} SumWithout<K>(m: map<K, nat>, k: K)
    requires k in m
    ensures Sum(m) == m[k] + Sum(m - {k})
    decreases |m|
  {
    var c := Pick(m.Keys);
    if c != k {
      var mc, mk := m - {c}, m - {k};
      Smaller(m, c);
      SumWithout(mc, k);
      Smaller(m, k);
      SumWithout(mk, c);
      assert mc - {k} == mk - {c};
    }
  }

  lemma SumUpdate<K>(m: map<K, nat>, k: K, v: nat)
    ensures Sum(m[k := v]) == Sum(m) + v - if k in m then m[k] else 0
  {
    SumWithout(m[k := v], k);
    assert m[k := v] - {k} == m - {k};
    if k in m { SumWithout(m, k); } else { assert m - {k} == m; }
  }

  lemma SumPositive<K>(m: map<K, nat>) returns (k: K)
    requires Sum(m) > 0
    ensures k in m && m[k] > 0
    decreases |m|
  {
    k := Pick(m.Keys);
    if m[k] == 0 {
      Smaller(m, k);
      k := SumPositive(m - {k});
    }
  }

  lemma MulNext(a: nat, b: nat)
    ensures (a + 1) * b == a * b + b
  {
  }
}
