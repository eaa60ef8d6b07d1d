/** The order in which the database iterates over string keys: lexicographic. */
module KeyOrder {

  predicate AtMost(a: string, b: string) {
    a == [] || (b != [] && (a[0] < b[0] || (a[0] == b[0] && AtMost(a[1..], b[1..]))))
  }

  /** The first difference decides, and a key comes before its extensions. */
  lemma {:induction false} FirstDifferenceDecides(a: string, b: string, k: nat)
    requires k <= |a| && k <= |b| && a[..k] == b[..k]
    ensures k < |a| && k < |b| && a[k] != b[k] ==> (AtMost(a, b) <==> a[k] < b[k])
    ensures k == |a| ==> AtMost(a, b)
    ensures k == |b| < |a| ==> !AtMost(a, b)
  {
    if k > 0 {
      assert a[..k][0] == b[..k][0];
      assert a[1..][..k - 1] == a[..k][1..] == b[1..][..k - 1];
      FirstDifferenceDecides(a[1..], b[1..], k - 1);
    }
  }

  lemma {:induction false} Total(a: string, b: string)
    ensures AtMost(a, b) || AtMost(b, a)
  {
    if a != [] && b != [] {
      Total(a[1..], b[1..]);
    }
  }

  lemma {:induction false} Antisymmetric(a: string, b: string)
    requires AtMost(a, b) && AtMost(b, a)
    ensures a == b
  {
    if a != [] && b != [] {
      Antisymmetric(a[1..], b[1..]);
      assert a == [a[0]] + a[1..] && b == [b[0]] + b[1..];
    }
  }

  lemma {:induction false} Transitive(a: string, b: string, c: string)
    requires AtMost(a, b) && AtMost(b, c)
    ensures AtMost(a, c)
  {
    if a != [] && a[0] == b[0] == c[0] {
      Transitive(a[1..], b[1..], c[1..]);
    }
  }

  ghost predicate IsLeast(key: string, keys: set<string>) {
    key in keys && forall other :: other in keys ==> AtMost(key, other)
  }

  lemma {:induction false} LeastExists(keys: set<string>)
    requires keys != {}
    ensures exists key :: IsLeast(key, keys)
  {
    var some :| some in keys;
    var rest := keys - {some};
    Total(some, some);
    if rest == {} {
      assert keys == {some};
      assert IsLeast(some, keys);
    } else {
      LeastExists(rest);
      var least :| IsLeast(least, rest);
      Total(some, least);
      if AtMost(least, some) {
        assert IsLeast(least, keys);
      } else {
        forall other | other in keys ensures AtMost(some, other) {
          if other != some {
            Transitive(some, least, other);
          }
        }
        assert IsLeast(some, keys);
      }
    }
  }

  /** The key an iteration over `keys` meets first. */
  ghost function Least(keys: set<string>): (key: string)
    requires keys != {}
    ensures IsLeast(key, keys)
  {
    LeastExists(keys);
    var key :| IsLeast(key, keys);
    key
  }

  lemma LeastIsUnique(key: string, keys: set<string>)
    requires IsLeast(key, keys)
    ensures key == Least(keys)
  {
    Antisymmetric(key, Least(keys));
  }
}
