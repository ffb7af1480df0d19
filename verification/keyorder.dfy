/** The order in which Go's text/template visits the keys of a string-keyed map:
    byte-wise lexicographic order of the keys, which for UTF-8 text is the
    lexicographic order of code points. */
module KeyOrder {

  /** `a` sorts before or equal to `b`. */
  predicate LessEq(a: string, b: string)
    decreases |a|
  {
    |a| == 0 || (|b| > 0 && (a[0] < b[0] || (a[0] == b[0] && LessEq(a[1..], b[1..]))))
  }

  predicate Less(a: string, b: string) {
    LessEq(a, b) && a != b
  }

  /** Any two elements appear in strictly ascending order (so no key repeats). */
  predicate StrictlySorted(ks: seq<string>) {
    forall i, j :: 0 <= i < j < |ks| ==> Less(ks[i], ks[j])
  }

  lemma {:induction false} LessEqReflexive(a: string)
    ensures LessEq(a, a)
    decreases |a|
  {
    if |a| > 0 {
      LessEqReflexive(a[1..]);
    }
  }

  lemma {:induction false} LessEqAntisymmetric(a: string, b: string)
    requires LessEq(a, b) && LessEq(b, a)
    ensures a == b
    decreases |a|
  {
    if |a| > 0 {
      LessEqAntisymmetric(a[1..], b[1..]);
      assert a == [a[0]] + a[1..];
      assert b == [b[0]] + b[1..];
    }
  }

  lemma {:induction false} LessEqTransitive(a: string, b: string, c: string)
    requires LessEq(a, b) && LessEq(b, c)
    ensures LessEq(a, c)
    decreases |a|
  {
    if |a| > 0 && a[0] == b[0] && b[0] == c[0] {
      LessEqTransitive(a[1..], b[1..], c[1..]);
    }
  }

  lemma {:induction false} LessEqTotal(a: string, b: string)
    ensures LessEq(a, b) || LessEq(b, a)
    decreases |a|
  {
    if |a| > 0 && |b| > 0 && a[0] == b[0] {
      LessEqTotal(a[1..], b[1..]);
    }
  }

  lemma AntisymmetricAll()
    ensures forall a, b :: LessEq(a, b) && LessEq(b, a) ==> a == b
  {
    forall a, b | LessEq(a, b) && LessEq(b, a)
      ensures a == b
    {
      LessEqAntisymmetric(a, b);
    }
  }

  /** Every finite non-empty set of strings has a least element. */
  lemma {:induction false} LeastOf(s: set<string>) returns (m: string)
    requires s != {}
    ensures m in s
    ensures forall j :: j in s ==> LessEq(m, j)
    decreases |s|
  {
    var x :| x in s;
    LessEqReflexive(x);
    if s == {x} {
      m := x;
    } else {
      var r := LeastOf(s - {x});
      LessEqTotal(x, r);
      if LessEq(x, r) {
        forall j | j in s - {x}
          ensures LessEq(x, j)
        {
          LessEqTransitive(x, r, j);
        }
        m := x;
      } else {
        m := r;
      }
    }
  }

  lemma MinExists(s: set<string>)
    requires s != {}
    ensures exists k :: k in s && forall j :: j in s ==> LessEq(k, j)
  {
    var m := LeastOf(s);
  }

  /** The least key of a non-empty key set. */
  function MinKey(s: set<string>): (k: string)
    requires s != {}
    ensures k in s
    ensures forall j :: j in s ==> LessEq(k, j)
  {
    MinExists(s);
    AntisymmetricAll();
    var k :| k in s && forall j :: j in s ==> LessEq(k, j);
    k
  }

  /** The keys of `s` in the order text/template visits them. */
  function SortedKeys(s: set<string>): (ks: seq<string>)
    ensures |ks| == |s|
    ensures forall i :: 0 <= i < |ks| ==> ks[i] in s
    ensures forall k :: k in s ==> k in ks
    ensures StrictlySorted(ks)
    decreases |s|
  {
    if s == {} then []
    else
      var k := MinKey(s);
      var rest := SortedKeys(s - {k});
      assert forall i :: 0 <= i < |rest| ==> Less(k, rest[i]);
      [k] + rest
  }

  /** A strictly sorted listing of a key set is unique: any such listing is
      the one text/template uses. */
  lemma {:induction false} SortedListingUnique(ks: seq<string>, s: set<string>)
    requires StrictlySorted(ks)
    requires forall i :: 0 <= i < |ks| ==> ks[i] in s
    requires forall k :: k in s ==> k in ks
    ensures ks == SortedKeys(s)
    decreases |ks|
  {
    var sk := SortedKeys(s);
    if ks == [] {
      assert s == {};
    } else {
      assert s != {};
      var m := MinKey(s);
      assert sk[0] == m;
      // ks[0] is the least element of s as well
      forall j | j in s
        ensures LessEq(ks[0], j)
      {
        var i :| 0 <= i < |ks| && ks[i] == j;
        if i == 0 {
          LessEqReflexive(j);
        }
      }
      LessEqAntisymmetric(ks[0], m);
      var rest := ks[1..];
      forall i | 0 <= i < |rest|
        ensures rest[i] in s - {m}
      {
        assert Less(ks[0], ks[i + 1]);
      }
      forall k | k in s - {m}
        ensures k in rest
      {
        var i :| 0 <= i < |ks| && ks[i] == k;
        assert i != 0;
        assert rest[i - 1] == k;
      }
      SortedListingUnique(rest, s - {m});
      assert ks == [ks[0]] + rest;
    }
  }
}
