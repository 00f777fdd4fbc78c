/** The order of `std::string`, by which `std::set` and `std::map` keep their keys. */
module StringOrder {

  predicate Less(a: string, b: string) {
    if a == [] then b != []
    else b != [] && (a[0] < b[0] || (a[0] == b[0] && Less(a[1..], b[1..])))
  }

  lemma {:induction false} LessTotal(a: string, b: string)
    ensures a == b || Less(a, b) || Less(b, a)
  {
    if a != [] && b != [] && a[0] == b[0] {
      LessTotal(a[1..], b[1..]);
      assert a == [a[0]] + a[1..] && b == [b[0]] + b[1..];
    }
  }

  /** The order is the lexicographic one: by the first character that differs, a prefix before what extends it. */
  lemma {:induction false} LessIsLexicographic(a: string, b: string)
    ensures Less(a, b) <==> exists k :: 0 <= k <= |a| && k < |b| && a[..k] == b[..k] && (k == |a| || a[k] < b[k])
  {
    if a == [] {
      assert b != [] ==> a[..0] == b[..0];
    } else if b != [] {
      if a[0] == b[0] {
        LessIsLexicographic(a[1..], b[1..]);
        if Less(a, b) {
          var k :| 0 <= k <= |a| - 1 && k < |b| - 1 && a[1..][..k] == b[1..][..k]
                   && (k == |a| - 1 || a[1..][k] < b[1..][k]);
          assert a[..k + 1] == [a[0]] + a[1..][..k] && b[..k + 1] == [b[0]] + b[1..][..k];
        }
        if k :| 0 <= k <= |a| && k < |b| && a[..k] == b[..k] && (k == |a| || a[k] < b[k]) {
          assert k > 0;
          assert a[1..][..k - 1] == a[..k][1..] && b[1..][..k - 1] == b[..k][1..];
        }
      } else {
        assert a[..0] == b[..0];
        forall k | 0 <= k <= |a| && k < |b| && a[..k] == b[..k]
          ensures k > 0 ==> a[0] == b[0]
        {
          SamePrefix(a, b, k);
        }
      }
    }
  }

  lemma SamePrefix(a: string, b: string, k: nat)
    requires k <= |a| && k <= |b| && a[..k] == b[..k]
    ensures k > 0 ==> a[0] == b[0]
  {
    if k > 0 {
      assert a[..k][0] == b[..k][0];
    }
  }

  lemma {:induction false} LessTransitive(a: string, b: string, c: string)
    requires Less(a, b) && Less(b, c)
    ensures Less(a, c)
  {
    if a != [] && a[0] == b[0] == c[0] {
      LessTransitive(a[1..], b[1..], c[1..]);
    }
  }

  lemma {:induction false} LessIrreflexive(a: string)
    ensures !Less(a, a)
  {
    if a != [] {
      LessIrreflexive(a[1..]);
    }
  }

  ghost predicate StrictOrder() {
    && (forall a, b :: Less(a, b) || a == b || Less(b, a))
    && (forall a, b :: Less(a, b) ==> !Less(b, a) && a != b)
    && (forall a, b, c :: Less(a, b) && Less(b, c) ==> Less(a, c))
  }

  lemma LessIsStrictOrder()
    ensures StrictOrder()
  {
    forall a: string, b: string
      ensures Less(a, b) || a == b || Less(b, a)
      ensures Less(a, b) ==> !Less(b, a) && a != b
    {
      LessTotal(a, b);
      LessIrreflexive(a);
      if Less(a, b) && Less(b, a) {
        LessTransitive(a, b, a);
      }
    }
    forall a: string, b: string, c: string | Less(a, b) && Less(b, c)
      ensures Less(a, c)
    {
      LessTransitive(a, b, c);
    }
  }

  ghost predicate IsLeast(m: string, keys: set<string>) {
    m in keys && forall x :: x in keys ==> x == m || Less(m, x)
  }

  lemma {:induction false} LeastExists(keys: set<string>)
    requires keys != {}
    ensures exists m :: IsLeast(m, keys)
    decreases keys
  {
    var k :| k in keys;
    if keys == {k} {
      assert IsLeast(k, keys);
    } else {
      LeastExists(keys - {k});
      var m :| IsLeast(m, keys - {k});
      LessIsStrictOrder();
      hide Less;
      if Less(k, m) {
        assert IsLeast(k, keys);
      } else {
        assert IsLeast(m, keys);
      }
    }
  }

  /** `*keys.begin()` */
  function Begin(keys: set<string>): (m: string)
    requires keys != {}
    ensures IsLeast(m, keys)
  {
    LeastExists(keys);
    LessIsStrictOrder();
    var m: string :| m in keys && forall x :: x in keys ==> x == m || Less(m, x);
    m
  }

  function After(keys: set<string>, k: string): set<string> {
    set x | x in keys && Less(k, x)
  }

  /** The key after `k` in iteration order, or the first key again. */
  function NextKey(keys: set<string>, k: string): (next: string)
    requires keys != {}
    ensures next in keys
  {
    if After(keys, k) == {} then Begin(keys) else Begin(After(keys, k))
  }

  /** The members of `all` met when iterating from `p` round to just before `a`. */
  ghost function Ahead(all: set<string>, p: string, a: string): set<string> {
    set x | x in all &&
            if p == a then false
            else if Less(p, a) then (x == p || Less(p, x)) && Less(x, a)
            else x == p || Less(p, x) || Less(x, a)
  }

  /** Moving to the next live key brings every other live key strictly nearer. */
  lemma NextIsNearer(all: set<string>, keys: set<string>, p: string, a: string)
    requires keys <= all && p in keys && a in keys && p != a
    ensures NextKey(keys, p) != p
    ensures Ahead(all, NextKey(keys, p), a) < Ahead(all, p, a)
  {
    LessIsStrictOrder();
    hide Less;
    var next := NextKey(keys, p);
    assert p in Ahead(all, p, a);
    if After(keys, p) == {} {
      assert a !in After(keys, p);
      assert p !in Ahead(all, next, a);
    } else {
      assert IsLeast(next, After(keys, p));
      if Less(p, a) {
        assert a in After(keys, p);
      }
      assert p !in Ahead(all, next, a);
    }
    assert Ahead(all, next, a) <= Ahead(all, p, a);
  }
}
