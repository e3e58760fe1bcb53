/** JSON values as serde_json holds them, with object members in key order. */
module Json {
  import opened Wrappers

  datatype Json =
    | Null
    | Bool(flag: bool)
    | Number(literal: string)
    | String(text: string)
    | Array(items: seq<Json>)
    | Object(members: map<string, Json>)

  function Get<V>(m: map<string, V>, k: string): Option<V> {
    if k in m then Some(m[k]) else None
  }

  function Item<V>(s: seq<V>, i: nat): Option<V> {
    if i < |s| then Some(s[i]) else None
  }

  // ---- key order ----

  /** The order of a BTreeSet of strings. */
  predicate Less(a: string, b: string) {
    b != [] && (a == [] || a[0] < b[0] || (a[0] == b[0] && Less(a[1..], b[1..])))
  }

  /** The first difference decides, and a proper prefix comes first. */
  lemma {:induction false} LessExactly(a: string, b: string)
    ensures Less(a, b) <==>
              exists n: nat :: && n <= |a| && n < |b| && a[..n] == b[..n]
                               && (n == |a| || a[n] < b[n])
  {
    forall n: nat | 0 < n <= |a| && n < |b| && a[..n] == b[..n]
      ensures a[0] == b[0]
    {
      assert a[..n][0] == a[0] && b[..n][0] == b[0];
    }
    if a != [] && b != [] && a[0] == b[0] {
      LessExactly(a[1..], b[1..]);
      var x, y := a[1..], b[1..];
      if n: nat :| n <= |x| && n < |y| && x[..n] == y[..n] && (n == |x| || x[n] < y[n]) {
        assert a[..n + 1] == [a[0]] + x[..n] && b[..n + 1] == [b[0]] + y[..n];
        assert n + 1 == |a| || a[n + 1] < b[n + 1];
      }
      if n: nat :| n <= |a| && n < |b| && a[..n] == b[..n] && (n == |a| || a[n] < b[n]) {
        assert n > 0;
        assert x[..n - 1] == a[..n][1..] && y[..n - 1] == b[..n][1..];
        assert n - 1 == |x| || x[n - 1] < y[n - 1];
      }
    } else if b != [] {
      assert a[..0] == b[..0];
    }
  }

  lemma {:induction false} LessIsTotal(a: string, b: string)
    ensures a == b || Less(a, b) || Less(b, a)
  {
    if a != [] && b != [] && a[0] == b[0] {
      LessIsTotal(a[1..], b[1..]);
      assert a == [a[0]] + a[1..] && b == [b[0]] + b[1..];
    }
  }

  lemma {:induction false} LessIsAsymmetric(a: string, b: string)
    requires Less(a, b)
    ensures !Less(b, a) && a != b
  {
    if a != [] && a[0] == b[0] {
      LessIsAsymmetric(a[1..], b[1..]);
    }
  }

  lemma {:induction false} LessIsTransitive(a: string, b: string, c: string)
    requires Less(a, b) && Less(b, c)
    ensures Less(a, c)
  {
    if a != [] && a[0] == b[0] && b[0] == c[0] {
      LessIsTransitive(a[1..], b[1..], c[1..]);
    }
  }

  predicate IsLeast(k: string, keys: set<string>) {
    k in keys && forall x | x in keys && x != k :: Less(k, x)
  }

  lemma {:induction false} LeastExists(keys: set<string>)
    requires keys != {}
    ensures exists k :: IsLeast(k, keys)
  {
    var x :| x in keys;
    if keys == {x} {
      assert IsLeast(x, keys);
    } else {
      LeastExists(keys - {x});
      var k :| IsLeast(k, keys - {x});
      LessIsTotal(k, x);
      if Less(k, x) {
        assert IsLeast(k, keys);
      } else {
        forall y | y in keys && y != x
          ensures Less(x, y)
        {
          if y != k {
            LessIsTransitive(x, k, y);
          }
        }
        assert IsLeast(x, keys);
      }
    }
  }

  lemma LeastIsUnique(j: string, k: string, keys: set<string>)
    requires IsLeast(j, keys) && IsLeast(k, keys)
    ensures j == k
  {
    if j != k {
      LessIsAsymmetric(j, k);
    }
  }

  ghost function Least(keys: set<string>): (k: string)
    requires keys != {}
    ensures IsLeast(k, keys)
  {
    LeastExists(keys);
    var k :| IsLeast(k, keys);
    k
  }

  /** The keys of a set in ascending order, each once. */
  ghost function SortedKeys(keys: set<string>): seq<string> {
    if keys == {} then [] else [Least(keys)] + SortedKeys(keys - {Least(keys)})
  }

  lemma {:induction false} SortedKeysAreSorted(keys: set<string>)
    ensures forall k :: k in keys <==> k in SortedKeys(keys)
    ensures forall i, j | 0 <= i < j < |SortedKeys(keys)| :: Less(SortedKeys(keys)[i], SortedKeys(keys)[j])
  {
    if keys != {} {
      var k := Least(keys);
      SortedKeysAreSorted(keys - {k});
      assert SortedKeys(keys)[0] == k && SortedKeys(keys)[1..] == SortedKeys(keys - {k});
    }
  }

  lemma SortedKeysAreAllDistinct(keys: set<string>)
    ensures forall i, j | 0 <= i < j < |SortedKeys(keys)| :: SortedKeys(keys)[i] != SortedKeys(keys)[j]
  {
    SortedKeysAreSorted(keys);
    forall i, j | 0 <= i < j < |SortedKeys(keys)|
      ensures SortedKeys(keys)[i] != SortedKeys(keys)[j]
    {
      LessIsAsymmetric(SortedKeys(keys)[i], SortedKeys(keys)[j]);
    }
  }

  /** Collecting keys into a BTreeSet and reading it in order. */
  method CollectSorted(keys: set<string>) returns (sorted: seq<string>)
    ensures sorted == SortedKeys(keys)
  {
    sorted := [];
    var rest := keys;
    while rest != {}
      invariant sorted + SortedKeys(rest) == SortedKeys(keys)
      decreases rest
    {
      LeastExists(rest);
      var k :| k in rest && IsLeast(k, rest);
      LeastIsUnique(k, Least(rest), rest);
      assert sorted + SortedKeys(rest) == sorted + [k] + SortedKeys(rest - {k});
      sorted, rest := sorted + [k], rest - {k};
    }
  }
}
