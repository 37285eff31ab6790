/**
  Byte strings as the key-value store sees them: fixed-width integer types,
  big-endian fixed-width encodings and the unsigned lexicographic order in
  which the store keeps its keys.
 */
module Bytes {

  type byte = x: int | 0 <= x < 256
  type Bytes = seq<byte>

  type int32 = x: int | -0x8000_0000 <= x < 0x8000_0000
  type int64 = x: int | -0x8000_0000_0000_0000 <= x < 0x8000_0000_0000_0000
  type uint32 = x: int | 0 <= x < 0x1_0000_0000
  type uint64 = x: int | 0 <= x < 0x1_0000_0000_0000_0000

  const TWO_TO_32: int := 0x1_0000_0000
  const TWO_TO_63: int := 0x8000_0000_0000_0000
  const TWO_TO_64: int := 0x1_0000_0000_0000_0000
  const INT64_MIN: int64 := -0x8000_0000_0000_0000
  const INT64_MAX: int64 := 0x7FFF_FFFF_FFFF_FFFF
  const UINT32_MAX: uint32 := 0xFFFF_FFFF
  const UINT64_MAX: uint64 := 0xFFFF_FFFF_FFFF_FFFF

  function Pow256(n: nat): (p: nat)
    ensures p > 0
  {
    if n == 0 then 1 else 256 * Pow256(n - 1)
  }

  /** The byte widths of the 32- and 64-bit fixed-width fields. */
  const WIDTH32: nat := 4
  const WIDTH64: nat := 8

  lemma Pow256Widths()
    ensures Pow256(WIDTH32) == TWO_TO_32 && Pow256(WIDTH64) == TWO_TO_64
  {
    assert Pow256(4) == TWO_TO_32 && Pow256(8) == TWO_TO_64;
  }

  /** The two's complement bit pattern of a signed 64-bit integer, read as unsigned. */
  function AsUnsigned64(x: int64): uint64
  {
    if x < 0 then x + TWO_TO_64 else x
  }

  /** An unsigned 64-bit bit pattern read as a two's complement signed integer. */
  function AsSigned64(u: uint64): int64
  {
    if u < TWO_TO_63 then u else u - TWO_TO_64
  }

  lemma SignedUnsignedInverse(x: int64, u: uint64)
    ensures AsSigned64(AsUnsigned64(x)) == x
    ensures AsUnsigned64(AsSigned64(u)) == u
  {
  }

  /** `width` bytes holding `x`, most significant byte first. */
  function BigEndian(x: nat, width: nat): (s: Bytes)
    requires x < Pow256(width)
    ensures |s| == width
    decreases width
  {
    if width == 0 then [] else BigEndian(x / 256, width - 1) + [x % 256]
  }

  /** The number whose big-endian encoding is `s`. */
  function FromBigEndian(s: Bytes): (x: nat)
    ensures x < Pow256(|s|)
  {
    if s == [] then 0 else FromBigEndian(s[..|s| - 1]) * 256 + s[|s| - 1]
  }

  lemma {:induction false} FromBigEndianOfBigEndian(x: nat, width: nat)
    requires x < Pow256(width)
    ensures FromBigEndian(BigEndian(x, width)) == x
    decreases width
  {
    if width > 0 {
      var s := BigEndian(x, width);
      assert s[..|s| - 1] == BigEndian(x / 256, width - 1);
      FromBigEndianOfBigEndian(x / 256, width - 1);
    }
  }

  lemma {:induction false} BigEndianOfFromBigEndian(s: Bytes)
    ensures BigEndian(FromBigEndian(s), |s|) == s
  {
    if s != [] {
      var init := s[..|s| - 1];
      BigEndianOfFromBigEndian(init);
      var x := FromBigEndian(s);
      assert x / 256 == FromBigEndian(init) && x % 256 == s[|s| - 1];
      assert s == init + [s[|s| - 1]];
    }
  }

  lemma BigEndianInjective(a: nat, b: nat, width: nat)
    requires a < Pow256(width) && b < Pow256(width)
    ensures BigEndian(a, width) == BigEndian(b, width) <==> a == b
  {
    FromBigEndianOfBigEndian(a, width);
    FromBigEndianOfBigEndian(b, width);
  }

  // ---------------------------------------------------------------------
  // Unsigned lexicographic order on byte strings.
  // ---------------------------------------------------------------------

  /** `a` sorts strictly before `b`: a proper prefix of `b`, or smaller at the first difference. */
  predicate Below(a: Bytes, b: Bytes)
  {
    if a == [] then b != []
    else b != [] && (a[0] < b[0] || (a[0] == b[0] && Below(a[1..], b[1..])))
  }

  /** `lo <= k < hi`: the half-open key interval of a range scan or a range deletion. */
  predicate InRange(k: Bytes, lo: Bytes, hi: Bytes)
  {
    !Below(k, lo) && Below(k, hi)
  }

  predicate HasPrefix(k: Bytes, p: Bytes)
  {
    |p| <= |k| && k[..|p|] == p
  }

  lemma {:induction false} BelowIrreflexive(a: Bytes)
    ensures !Below(a, a)
  {
    if a != [] {
      BelowIrreflexive(a[1..]);
    }
  }

  lemma {:induction false} BelowTransitive(a: Bytes, b: Bytes, c: Bytes)
    requires Below(a, b) && Below(b, c)
    ensures Below(a, c)
  {
    if a != [] && a[0] == b[0] && b[0] == c[0] {
      BelowTransitive(a[1..], b[1..], c[1..]);
    }
  }

  lemma {:induction false} BelowTotal(a: Bytes, b: Bytes)
    ensures a == b || Below(a, b) || Below(b, a)
  {
    if a != [] && b != [] && a[0] == b[0] {
      BelowTotal(a[1..], b[1..]);
      if a[1..] == b[1..] {
        assert a == [a[0]] + a[1..] && b == [b[0]] + b[1..];
      }
    }
  }

  lemma BelowAsymmetric(a: Bytes, b: Bytes)
    requires Below(a, b)
    ensures !Below(b, a) && a != b
  {
    if Below(b, a) {
      BelowTransitive(a, b, a);
      BelowIrreflexive(a);
    }
    BelowIrreflexive(a);
  }

  /** Comparing two strings that start with equal-length heads compares the heads first. */
  lemma {:induction false} BelowAppend(p: Bytes, q: Bytes, x: Bytes, y: Bytes)
    requires |p| == |q|
    ensures Below(p + x, q + y) <==> Below(p, q) || (p == q && Below(x, y))
  {
    if p == [] {
      assert p + x == x && q + y == y;
    } else {
      assert (p + x)[0] == p[0] && (p + x)[1..] == p[1..] + x;
      assert (q + y)[0] == q[0] && (q + y)[1..] == q[1..] + y;
      BelowAppend(p[1..], q[1..], x, y);
      if p[0] == q[0] && p[1..] == q[1..] {
        assert p == [p[0]] + p[1..] && q == [q[0]] + q[1..];
      }
    }
  }

  /** Keys made of a common prefix and fixed-width fields compare field by field. */
  lemma BelowFields(p: Bytes, x1: Bytes, y1: Bytes, x2: Bytes, y2: Bytes)
    requires |x1| == |x2|
    ensures Below(p + x1 + y1, p + x2 + y2) <==> Below(x1, x2) || (x1 == x2 && Below(y1, y2))
  {
    BelowIrreflexive(p);
    assert p + x1 + y1 == p + (x1 + y1);
    assert p + x2 + y2 == p + (x2 + y2);
    BelowAppend(p, p, x1 + y1, x2 + y2);
    BelowAppend(x1, x2, y1, y2);
  }

  lemma BelowThreeFields(p: Bytes, x1: Bytes, y1: Bytes, z1: Bytes, x2: Bytes, y2: Bytes, z2: Bytes)
    requires |x1| == |x2| && |y1| == |y2|
    ensures Below(p + x1 + y1 + z1, p + x2 + y2 + z2)
        <==> Below(x1, x2) || (x1 == x2 && (Below(y1, y2) || (y1 == y2 && Below(z1, z2))))
  {
    assert p + x1 + y1 + z1 == p + x1 + (y1 + z1);
    assert p + x2 + y2 + z2 == p + x2 + (y2 + z2);
    BelowFields(p, x1, y1 + z1, x2, y2 + z2);
    BelowAppend(y1, y2, z1, z2);
  }

  /** Big-endian encodings of one width sort exactly as the numbers they encode. */
  lemma {:induction false} BigEndianOrder(a: nat, b: nat, width: nat)
    requires a < Pow256(width) && b < Pow256(width)
    ensures Below(BigEndian(a, width), BigEndian(b, width)) <==> a < b
    decreases width
  {
    if width > 0 {
      var ha, hb := BigEndian(a / 256, width - 1), BigEndian(b / 256, width - 1);
      BelowAppend(ha, hb, [a % 256], [b % 256]);
      BigEndianOrder(a / 256, b / 256, width - 1);
      BigEndianInjective(a / 256, b / 256, width - 1);
      assert Below([a % 256], [b % 256]) <==> a % 256 < b % 256 by {
        assert [a % 256][1..] == [] && [b % 256][1..] == [];
      }
      assert a == 256 * (a / 256) + a % 256;
      assert b == 256 * (b / 256) + b % 256;
    }
  }

  /** A key between two keys that share a prefix has that prefix too. */
  lemma {:induction false} InRangeHasPrefix(k: Bytes, p: Bytes, x: Bytes, y: Bytes)
    requires InRange(k, p + x, p + y)
    ensures HasPrefix(k, p)
  {
    if p != [] {
      assert (p + x)[0] == p[0] && (p + x)[1..] == p[1..] + x;
      assert (p + y)[0] == p[0] && (p + y)[1..] == p[1..] + y;
      assert k != [] && k[0] == p[0];
      InRangeHasPrefix(k[1..], p[1..], x, y);
      assert k[..|p|] == [k[0]] + k[1..][..|p| - 1];
      assert p == [p[0]] + p[1..];
    }
  }

  lemma PrefixOfPrefix(k: Bytes, a: Bytes, b: Bytes)
    requires HasPrefix(k, a + b)
    ensures HasPrefix(k, a)
  {
    assert k[..|a|] == k[..|a + b|][..|a|];
  }

  /** The same for bounds made of a shared prefix and two further fields each. */
  lemma InRangeFieldsHasPrefix(k: Bytes, p: Bytes, a: Bytes, b: Bytes, c: Bytes, d: Bytes)
    requires InRange(k, p + a + b, p + c + d)
    ensures HasPrefix(k, p)
  {
    assert p + a + b == p + (a + b);
    assert p + c + d == p + (c + d);
    InRangeHasPrefix(k, p, a + b, c + d);
  }

  // ---------------------------------------------------------------------
  // The ascending key sequence of a finite set of keys (what a scan yields).
  // ---------------------------------------------------------------------

  ghost predicate StrictlyAscending(ks: seq<Bytes>)
  {
    forall i, j {:trigger Below(ks[i], ks[j])} | 0 <= i < j < |ks| :: Below(ks[i], ks[j])
  }

  /** `m` is the smallest key of `s`. */
  predicate Least(m: Bytes, s: set<Bytes>)
  {
    m in s && forall k | k in s :: !Below(k, m)
  }

  lemma {:induction false} LeastExists(s: set<Bytes>)
    requires s != {}
    ensures exists m :: Least(m, s)
    decreases |s|
  {
    var x :| x in s;
    if s == {x} {
      BelowIrreflexive(x);
      assert Least(x, s);
    } else {
      LeastExists(s - {x});
      var m :| Least(m, s - {x});
      if Below(x, m) {
        forall k | k in s
          ensures !Below(k, x)
        {
          if k == x {
            BelowIrreflexive(x);
          } else if Below(k, x) {
            BelowTransitive(k, x, m);
          }
        }
        assert Least(x, s);
      } else {
        assert Least(m, s);
      }
    }
  }

  lemma {:induction false} AscendingExists(s: set<Bytes>)
    ensures exists ks :: StrictlyAscending(ks) && forall k :: k in ks <==> k in s
    decreases |s|
  {
    if s == {} {
      var ks: seq<Bytes> := [];
      assert StrictlyAscending(ks);
    } else {
      LeastExists(s);
      var m :| Least(m, s);
      AscendingExists(s - {m});
      var rest :| StrictlyAscending(rest) && forall k :: k in rest <==> k in s - {m};
      var ks := [m] + rest;
      forall i, j | 0 <= i < j < |ks|
        ensures Below(ks[i], ks[j])
      {
        if i == 0 {
          assert ks[j] == rest[j - 1] && ks[j] in s - {m};
          BelowTotal(m, ks[j]);
        } else {
          assert ks[i] == rest[i - 1] && ks[j] == rest[j - 1];
        }
      }
      assert forall k :: k in ks <==> k == m || k in rest;
      assert StrictlyAscending(ks) && forall k :: k in ks <==> k in s;
    }
  }

  lemma {:induction false} AscendingUnique(a: seq<Bytes>, b: seq<Bytes>)
    requires StrictlyAscending(a) && StrictlyAscending(b)
    requires forall k :: k in a <==> k in b
    ensures a == b
  {
    if a != [] {
      assert a[0] in a;
      assert b != [];
      assert b[0] in b;
      if a[0] != b[0] {
        var i :| 0 <= i < |a| && a[i] == b[0];
        var j :| 0 <= j < |b| && b[j] == a[0];
        assert i > 0 && j > 0;
        assert Below(a[0], b[0]) && Below(b[0], a[0]);
        BelowAsymmetric(a[0], b[0]);
      }
      forall k
        ensures k in a[1..] <==> k in b[1..]
      {
        if k in a[1..] {
          var i :| 1 <= i < |a| && a[i] == k;
          assert Below(a[0], k);
          BelowIrreflexive(k);
          assert k in b && k != b[0];
          var j :| 0 <= j < |b| && b[j] == k;
          assert j > 0 && b[1..][j - 1] == k;
        }
        if k in b[1..] {
          var j :| 1 <= j < |b| && b[j] == k;
          assert Below(b[0], k);
          BelowIrreflexive(k);
          assert k in a && k != a[0];
          var i :| 0 <= i < |a| && a[i] == k;
          assert i > 0 && a[1..][i - 1] == k;
        }
      }
      AscendingUnique(a[1..], b[1..]);
      assert a == [a[0]] + a[1..] && b == [b[0]] + b[1..];
    }
  }

  /** The keys of `s` in ascending order. */
  ghost function Ascending(s: set<Bytes>): (ks: seq<Bytes>)
    ensures StrictlyAscending(ks)
    ensures forall i | 0 <= i < |ks| :: ks[i] in s
    ensures forall k {:trigger k in ks} :: k in ks <==> k in s
  {
    AscendingExists(s);
    var ks :| StrictlyAscending(ks) && forall k :: k in ks <==> k in s;
    assert forall i | 0 <= i < |ks| :: ks[i] in ks;
    ks
  }
}
