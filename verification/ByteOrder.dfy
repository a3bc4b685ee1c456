/**
  The order in which the store's iterator yields its keys: ascending, byte by byte.
 */
module ByteOrder {
  import opened Basics

  predicate Less(a: bytes, b: bytes) {
    b != [] && (a == [] || a[0] < b[0] || (a[0] == b[0] && Less(a[1..], b[1..])))
  }

  lemma {:induction false} LessTotal(a: bytes, b: bytes)
    ensures Less(a, b) || a == b || Less(b, a)
    ensures !(Less(a, b) && Less(b, a)) && !Less(a, a)
    decreases |a|
  {
    if a != [] && b != [] && a[0] == b[0] {
      LessTotal(a[1..], b[1..]);
      assert a == [a[0]] + a[1..] && b == [b[0]] + b[1..];
    }
    if a != [] {
      LessTotal(a[1..], a[1..]);
    }
  }

  lemma {:induction false} LessTransitive(a: bytes, b: bytes, c: bytes)
    requires Less(a, b) && Less(b, c)
    ensures Less(a, c)
    decreases |a|
  {
    if a != [] && a[0] == b[0] && b[0] == c[0] {
      LessTransitive(a[1..], b[1..], c[1..]);
    }
  }

  predicate IsLeast(a: bytes, s: set<bytes>) {
    a in s && forall x | x in s :: x == a || Less(a, x)
  }

  lemma {:induction false} LeastExists(s: set<bytes>)
    requires s != {}
    ensures exists a :: IsLeast(a, s)
  {
    var x :| x in s;
    if s == {x} {
      assert IsLeast(x, s);
    } else {
      LeastExists(s - {x});
      var a :| IsLeast(a, s - {x});
      LessTotal(a, x);
      if Less(a, x) {
        assert IsLeast(a, s);
      } else {
        forall y | y in s ensures y == x || Less(x, y) {
          if y != x && y != a {
            LessTransitive(x, a, y);
          }
        }
        assert IsLeast(x, s);
      }
    }
  }

  predicate Ascending(keys: seq<bytes>) {
    forall i, j | 0 <= i < j < |keys| :: Less(keys[i], keys[j])
  }

  /** keys lists s, each once and in ascending order. */
  predicate Lists(keys: seq<bytes>, s: set<bytes>) {
    Ascending(keys) && (forall a | a in s :: a in keys) && (forall a | a in keys :: a in s)
  }

  /** A set has one listing. */
  lemma {:induction false} OneListing(keys: seq<bytes>, keys': seq<bytes>, s: set<bytes>)
    requires Lists(keys, s) && Lists(keys', s)
    ensures keys == keys'
    decreases |keys|
  {
    EmptyListing(keys, s);
    EmptyListing(keys', s);
    if s != {} {
      assert keys[0] in keys' && keys'[0] in keys;
      LessTotal(keys[0], keys'[0]);
      assert keys[0] == keys'[0];
      ListsTail(keys, s);
      ListsTail(keys', s);
      OneListing(keys[1..], keys'[1..], s - {keys[0]});
      assert keys == [keys[0]] + keys[1..] && keys' == [keys'[0]] + keys'[1..];
    }
  }

  lemma EmptyListing(keys: seq<bytes>, s: set<bytes>)
    requires Lists(keys, s)
    ensures keys == [] <==> s == {}
  {
    if s != {} {
      var a :| a in s;
      assert a in keys;
    }
    if keys != [] {
      assert keys[0] in s;
    }
  }

  lemma ListsTail(keys: seq<bytes>, s: set<bytes>)
    requires keys != [] && Lists(keys, s)
    ensures Lists(keys[1..], s - {keys[0]})
  {
    LessTotal(keys[0], keys[0]);
    forall a | a in s - {keys[0]} ensures a in keys[1..] {
      var i :| 0 <= i < |keys| && keys[i] == a;
      assert keys[1..][i - 1] == a;
    }
  }

  /** Walks a map's keys as the store's iterator does. */
  method Walk(s: set<bytes>) returns (keys: seq<bytes>)
    ensures Lists(keys, s)
  {
    keys := [];
    var rest := s;
    while rest != {}
      invariant rest <= s && Lists(keys, s - rest)
      invariant forall a, b | a in keys && b in rest :: Less(a, b)
      decreases rest
    {
      LeastExists(rest);
      var a :| a in rest && forall x | x in rest :: x == a || Less(a, x);
      keys, rest := keys + [a], rest - {a};
    }
    assert s - rest == s;
  }
}
