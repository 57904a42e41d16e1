/** The order of entity keys (code points, as in Go strings and utf8mb4_bin) and sorting by it. */
module Ordering {

  predicate Below(a: string, b: string) {
    b != "" && (a == "" || a[0] < b[0] || (a[0] == b[0] && Below(a[1..], b[1..])))
  }

  lemma {:induction false} BelowIrreflexive(a: string)
    ensures !Below(a, a)
  {
    if a != "" { BelowIrreflexive(a[1..]); }
  }

  lemma {:induction false} BelowTransitive(a: string, b: string, c: string)
    requires Below(a, b) && Below(b, c)
    ensures Below(a, c)
  {
    if a != "" && a[0] == b[0] == c[0] { BelowTransitive(a[1..], b[1..], c[1..]); }
  }

  lemma {:induction false} BelowTotal(a: string, b: string)
    ensures a == b || Below(a, b) || Below(b, a)
  {
    if a != "" && b != "" && a[0] == b[0] {
      BelowTotal(a[1..], b[1..]);
      assert a == [a[0]] + a[1..] && b == [b[0]] + b[1..];
    }
  }

  /** a and b agree before k, and there a ends or has the smaller character. */
  predicate SmallerAt(a: string, b: string, k: nat) {
    k <= |a| && k < |b| && a[..k] == b[..k] && (k == |a| || a[k] < b[k])
  }

  lemma {:induction false} SmallerIsBelow(a: string, b: string, k: nat)
    requires SmallerAt(a, b, k)
    ensures Below(a, b)
    decreases k
  {
    if k > 0 {
      assert a[0] == a[..k][0] == b[..k][0] == b[0];
      assert a[1..][..k - 1] == a[..k][1..] && b[1..][..k - 1] == b[..k][1..];
      SmallerIsBelow(a[1..], b[1..], k - 1);
    }
  }

  lemma {:induction false} BelowIsSmaller(a: string, b: string) returns (k: nat)
    requires Below(a, b)
    ensures SmallerAt(a, b, k)
  {
    if a == "" || a[0] < b[0] { return 0; }
    var j := BelowIsSmaller(a[1..], b[1..]);
    assert a[..j + 1] == [a[0]] + a[1..][..j] && b[..j + 1] == [b[0]] + b[1..][..j];
    return j + 1;
  }

  /** The order is that of the first difference, a prefix coming first. */
  lemma BelowMeaning(a: string, b: string)
    ensures Below(a, b) <==> exists k: nat :: SmallerAt(a, b, k)
  {
    if Below(a, b) { var k := BelowIsSmaller(a, b); }
    forall k: nat | SmallerAt(a, b, k) ensures Below(a, b) { SmallerIsBelow(a, b, k); }
  }

  predicate AtMost(a: string, b: string) {
    a == b || Below(a, b)
  }

  lemma AtMostTransitive(a: string, b: string, c: string)
    requires AtMost(a, b) && AtMost(b, c)
    ensures AtMost(a, c)
  {
    if a != b && b != c { BelowTransitive(a, b, c); }
  }

  /** k is the least element of keys. */
  predicate IsLeast(k: string, keys: set<string>) {
    k in keys && forall other :: other in keys ==> AtMost(k, other)
  }

  lemma {:induction false} LeastExists(keys: set<string>) returns (k: string)
    requires keys != {}
    ensures IsLeast(k, keys)
    decreases keys
  {
    k :| k in keys;
    if keys != {k} {
      var least := LeastExists(keys - {k});
      BelowTotal(k, least);
      if Below(least, k) {
        k := least;
      } else {
        forall other | other in keys ensures AtMost(k, other) {
          if other != k {
            assert other in keys - {k} && AtMost(least, other);
            AtMostTransitive(k, least, other);
          }
        }
      }
    }
  }

  lemma LeastUnique(j: string, k: string, keys: set<string>)
    requires IsLeast(j, keys) && IsLeast(k, keys)
    ensures j == k
  {
    if j != k {
      BelowTransitive(j, k, j);
      BelowIrreflexive(j);
    }
  }

  function Least(keys: set<string>): (k: string)
    requires keys != {}
    ensures IsLeast(k, keys)
  {
    assert exists k :: IsLeast(k, keys) by { var k := LeastExists(keys); }
    assert forall j, k :: IsLeast(j, keys) && IsLeast(k, keys) ==> j == k by {
      forall j, k | IsLeast(j, keys) && IsLeast(k, keys) ensures j == k { LeastUnique(j, k, keys); }
    }
    var k :| k in keys && IsLeast(k, keys);
    k
  }

  predicate Ascending(keys: seq<string>) {
    forall i, j :: 0 <= i < j < |keys| ==> Below(keys[i], keys[j])
  }

  /** The keys in ascending order: ORDER BY entity_key ASC. */
  function SortedKeys(keys: set<string>): (sorted: seq<string>)
    ensures forall k :: k in sorted <==> k in keys
    ensures |sorted| == |keys|
    ensures Ascending(sorted)
    decreases keys
  {
    if keys == {} then
      []
    else
      var k := Least(keys);
      var rest := SortedKeys(keys - {k});
      assert forall j :: 0 <= j < |rest| ==> rest[j] in keys - {k} && Below(k, rest[j]) by {
        forall j | 0 <= j < |rest| ensures rest[j] in keys - {k} && Below(k, rest[j]) {
          assert rest[j] in rest;
        }
      }
      [k] + rest
  }
}
