/**
 * The order of a std::map keyed by uint256, as the wallet tracker's loops
 * see it. uint256 compares its 32 stored bytes with memcmp, and the bytes
 * are stored least significant first, so two hashes are ordered by their
 * lowest differing byte, starting from the least significant one.
 */
module Uint256Order {
  import opened ZerocoinTypes

  /** 256 to the power n. */
  function Pow256(n: nat): (r: nat)
    ensures r >= 1
  {
    if n == 0 then 1 else 256 * Pow256(n - 1)
  }

  /** memcmp order on the n low bytes of a and b, lowest byte compared first. */
  function ByteLess(a: nat, b: nat, n: nat): bool
    decreases n
  {
    n > 0 && (if a % 256 != b % 256 then a % 256 < b % 256 else ByteLess(a / 256, b / 256, n - 1))
  }

  /** `a < b` for uint256. */
  predicate KeyLess(a: Uint256, b: Uint256)
  {
    ByteLess(a, b, 32)
  }

  lemma {:induction false} ByteLessIrreflexive(a: nat, n: nat)
    ensures !ByteLess(a, a, n)
  {
    if n > 0 {
      ByteLessIrreflexive(a / 256, n - 1);
    }
  }

  lemma {:induction false} ByteLessTransitive(a: nat, b: nat, c: nat, n: nat)
    requires ByteLess(a, b, n) && ByteLess(b, c, n)
    ensures ByteLess(a, c, n)
  {
    if a % 256 == b % 256 && b % 256 == c % 256 {
      ByteLessTransitive(a / 256, b / 256, c / 256, n - 1);
    }
  }

  lemma {:induction false} ByteLessTotal(a: nat, b: nat, n: nat)
    requires a < Pow256(n) && b < Pow256(n) && a != b
    ensures ByteLess(a, b, n) || ByteLess(b, a, n)
  {
    if a % 256 == b % 256 {
      assert a == 256 * (a / 256) + a % 256 && b == 256 * (b / 256) + b % 256;
      ByteLessTotal(a / 256, b / 256, n - 1);
    }
  }

  lemma {:induction false} Pow256Add(a: nat, b: nat)
    ensures Pow256(a + b) == Pow256(a) * Pow256(b)
    decreases a
  {
    if a > 0 {
      Pow256Add(a - 1, b);
    }
  }

  lemma Pow256Of32()
    ensures Pow256(32) == 0x1_0000_0000_0000_0000_0000_0000_0000_0000_0000_0000_0000_0000_0000_0000_0000_0000
  {
    assert Pow256(4) == 0x1_0000_0000;
    Pow256Add(4, 4);
    Pow256Add(8, 8);
    Pow256Add(16, 16);
  }

  /** uint256's `<` is a strict total order. */
  lemma KeyLessIsStrictTotalOrder()
    ensures forall a: Uint256 :: !KeyLess(a, a)
    ensures forall a: Uint256, b: Uint256, c: Uint256 :: KeyLess(a, b) && KeyLess(b, c) ==> KeyLess(a, c)
    ensures forall a: Uint256, b: Uint256 :: a != b ==> KeyLess(a, b) || KeyLess(b, a)
  {
    forall a: Uint256 ensures !KeyLess(a, a) {
      ByteLessIrreflexive(a, 32);
    }
    forall a: Uint256, b: Uint256, c: Uint256 | KeyLess(a, b) && KeyLess(b, c) ensures KeyLess(a, c) {
      ByteLessTransitive(a, b, c, 32);
    }
    Pow256Of32();
    forall a: Uint256, b: Uint256 | a != b ensures KeyLess(a, b) || KeyLess(b, a) {
      ByteLessTotal(a, b, 32);
    }
  }

  /** Keys in strictly increasing map order. */
  predicate Ascending(ks: seq<Uint256>)
  {
    forall i, j :: 0 <= i < j < |ks| ==> KeyLess(ks[i], ks[j])
  }

  /** A key no other key of `s` comes before. */
  predicate IsFirst(k: Uint256, s: set<Uint256>)
  {
    k in s && forall j :: j in s ==> !KeyLess(j, k)
  }

  /** Every non-empty set of keys has a first key. */
  lemma {:induction false} FirstExists(s: set<Uint256>)
    requires s != {}
    ensures exists k :: IsFirst(k, s)
    decreases s
  {
    var x: Uint256 :| x in s;
    if s - {x} == {} {
      ByteLessIrreflexive(x, 32);
      assert s == {x};
      assert IsFirst(x, s);
    } else {
      FirstExists(s - {x});
      var m: Uint256 :| IsFirst(m, s - {x});
      ByteLessIrreflexive(x, 32);
      ByteLessIrreflexive(m, 32);
      if KeyLess(x, m) {
        forall j: Uint256 | j in s ensures !KeyLess(j, x) {
          if j != x {
            assert j in s - {x};
            if KeyLess(j, x) {
              ByteLessTransitive(j, x, m, 32);
              assert false;
            }
          }
        }
        assert IsFirst(x, s);
      } else {
        assert IsFirst(m, s);
      }
    }
  }

  /** The first key of a set comes before each of its other keys. */
  lemma FirstBeforeOthers(k: Uint256, s: set<Uint256>)
    requires IsFirst(k, s)
    ensures forall j :: j in s && j != k ==> KeyLess(k, j)
  {
    KeyLessIsStrictTotalOrder();
  }

  /** An ascending sequence never repeats a key. */
  lemma AscendingDistinct(ks: seq<Uint256>)
    requires Ascending(ks)
    ensures forall i, j :: 0 <= i < j < |ks| ==> ks[i] != ks[j]
  {
    KeyLessIsStrictTotalOrder();
  }

  /** The keys of a map in the order a std::map visits them. */
  method OrderedKeys<V>(m: map<Uint256, V>) returns (ks: seq<Uint256>)
    ensures Ascending(ks)
    ensures forall k :: k in ks <==> k in m
  {
    ks := [];
    var rest := m.Keys;
    while rest != {}
      invariant rest <= m.Keys
      invariant forall k :: k in ks <==> k in m && k !in rest
      invariant Ascending(ks)
      invariant forall i, k :: 0 <= i < |ks| && k in rest ==> KeyLess(ks[i], k)
      decreases rest
    {
      FirstExists(rest);
      var k: Uint256 :| IsFirst(k, rest);
      FirstBeforeOthers(k, rest);
      ks := ks + [k];
      rest := rest - {k};
    }
  }
}
