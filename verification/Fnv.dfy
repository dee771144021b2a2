/** The FNV-1a hash of a checkpoint record, and why it notices every one-byte change. */
module Fnv {
  import opened Powers

  type byte = x: int | 0 <= x < 256

  type u64 = x: int | 0 <= x < Two64

  const OffsetBasis: u64 := 0xcbf29ce484222325
  const Prime: u64 := 0x100000001b3

  // ---------------------------------------------------------------- exclusive or

  /** Bitwise exclusive or. */
  function Xor(a: nat, b: nat): (r: nat)
    decreases a + b
  {
    if a == 0 && b == 0 then 0
    else (if a % 2 == b % 2 then 0 else 1) + 2 * Xor(a / 2, b / 2)
  }

  lemma {:induction false} XorBack(a: nat, b: nat)
    ensures Xor(Xor(a, b), b) == a && Xor(a, Xor(a, b)) == b
    decreases a + b
  {
    if a != 0 || b != 0 {
      XorBack(a / 2, b / 2);
      var x := Xor(a, b);
      assert x / 2 == Xor(a / 2, b / 2) && (x % 2 == 0 <==> a % 2 == b % 2);
    }
  }

  lemma {:induction false} XorZero(a: nat)
    ensures Xor(a, 0) == a
  {
    if a != 0 {
      XorZero(a / 2);
    }
  }

  lemma XorStep(a: nat, b: nat, r: nat)
    requires Xor(a / 2, b / 2) == r
    ensures Xor(a, b) == (if a % 2 == b % 2 then 0 else 1) + 2 * r
  {
  }

  lemma {:induction false} XorBound(a: nat, b: nat, n: nat)
    requires a < Pow2(n) && b < Pow2(n)
    ensures Xor(a, b) < Pow2(n)
    decreases n
  {
    if n > 0 && (a != 0 || b != 0) {
      XorBound(a / 2, b / 2, n - 1);
    }
  }

  // ---------------------------------------------------------------- one round

  /** `h ^= b; h *= prime`, on 64-bit words. */
  function Round(h: u64, b: byte): (r: u64) { (Xor(h, b) * Prime) % Two64 }

  /** The prime is odd, so it has an inverse modulo 2^64 and multiplying by it loses nothing. */
  lemma PrimeCancels(a: u64, b: u64)
    requires (a * Prime) % Two64 == (b * Prime) % Two64
    ensures a == b
  {
    var inv := 0xce965057aff6957b;
    var over := 0xce9650590f;
    var q := a * Prime / Two64 - b * Prime / Two64;
    assert (a - b) * Prime == q * Two64;
    Cancel(a - b, q, Prime, inv, over, Two64);
  }

  lemma Cancel(d: int, q: int, p: int, inv: int, over: int, m: int)
    requires d * p == q * m && p * inv == 1 + over * m && -m < d < m
    ensures d == 0
  {
    var k := q * inv - d * over;
    calc {
      d;
      d * (p * inv - over * m);
      (d * p) * inv - d * over * m;
      q * m * inv - d * over * m;
      k * m;
    }
    MultipleIsFar(k, m);
  }

  lemma MultipleIsFar(k: int, m: int)
    requires m >= 0
    ensures k != 0 ==> k * m >= m || k * m <= -m
  {
    if k >= 1 {
      assert (k - 1) * m >= 0;
    } else if k <= -1 {
      assert (-1 - k) * m >= 0;
    }
  }

  lemma XorWord(h: u64, b: byte)
    ensures Xor(h, b) < Two64
  {
    Pow64();
    XorBound(h, b, 64);
  }

  /** A round is injective in the running hash and in the byte. */
  lemma RoundInjective(h: u64, b: byte, h': u64, b': byte)
    requires Round(h, b) == Round(h', b') && (h == h' || b == b')
    ensures h == h' && b == b'
  {
    XorWord(h, b);
    XorWord(h', b');
    PrimeCancels(Xor(h, b), Xor(h', b'));
    XorBack(h, b);
    XorBack(h', b');
  }

  // ---------------------------------------------------------------- the whole hash

  function Hash(h: u64, s: seq<byte>): (r: u64)
    decreases |s|
  {
    if s == [] then h else Round(Hash(h, s[..|s| - 1]), s[|s| - 1])
  }

  /** The 64-bit FNV-1a values of the empty string and of "a" in the test vectors of draft-eastlake-fnv. */
  lemma TestValues()
    ensures Hash(OffsetBasis, []) == 0xcbf29ce484222325
    ensures Hash(OffsetBasis, [0x61]) == 0xaf63dc4c8601ec8c
  {
    hide Xor;
    XorZero(0x197e539c9084446);
    XorStep(0x32fca739210888c, 0x1, 0x197e539c9084446);
    XorStep(0x65f94e724211119, 0x3, 0x32fca739210888d);
    XorStep(0xcbf29ce48422232, 0x6, 0x65f94e72421111a);
    XorStep(0x197e539c90844464, 0xc, 0xcbf29ce48422234);
    XorStep(0x32fca739210888c9, 0x18, 0x197e539c90844468);
    XorStep(0x65f94e7242111192, 0x30, 0x32fca739210888d1);
    XorStep(0xcbf29ce484222325, 0x61, 0x65f94e72421111a2);
    assert [0x61][..0] == [];
  }

  lemma {:induction false} HashSplit(h: u64, s: seq<byte>, i: nat)
    requires i <= |s|
    ensures Hash(h, s) == Hash(Hash(h, s[..i]), s[i..])
    decreases |s|
  {
    if i == |s| {
      assert s[..i] == s && s[i..] == [];
    } else {
      var t := s[..|s| - 1];
      HashSplit(h, t, i);
      assert t[..i] == s[..i] && s[i..][..|s| - i - 1] == t[i..];
    }
  }

  /** For one string, different starting states stay different. */
  lemma {:induction false} HashInjective(h: u64, h': u64, s: seq<byte>)
    requires Hash(h, s) == Hash(h', s)
    ensures h == h'
    decreases |s|
  {
    if s != [] {
      var t, b := s[..|s| - 1], s[|s| - 1];
      RoundInjective(Hash(h, t), b, Hash(h', t), b);
      HashInjective(h, h', t);
    }
  }

  /** Two strings that differ in exactly one byte have different hashes. */
  lemma OneByteDiffers(h: u64, s: seq<byte>, i: nat, b: byte)
    requires i < |s| && s[i] != b
    ensures Hash(h, s[i := b]) != Hash(h, s)
  {
    var t := s[i := b];
    HashSplit(h, s, i + 1);
    HashSplit(h, t, i + 1);
    assert t[i + 1..] == s[i + 1..];
    assert s[..i + 1][..i] == s[..i] && t[..i + 1][..i] == s[..i];
    var g := Hash(h, s[..i]);
    if Hash(h, t) == Hash(h, s) {
      HashInjective(Hash(h, s[..i + 1]), Hash(h, t[..i + 1]), s[i + 1..]);
      RoundInjective(g, s[i], g, b);
    }
  }

  /** `compute_hash`: the loop over the bytes in front of the hash field. */
  method ComputeHash(bytes: seq<byte>, hashOffset: nat) returns (h: u64)
    requires hashOffset <= |bytes|
    ensures h == Hash(OffsetBasis, bytes[..hashOffset])
  {
    h := OffsetBasis;
    var i := 0;
    while i < hashOffset
      invariant i <= hashOffset
      invariant h == Hash(OffsetBasis, bytes[..i])
    {
      assert bytes[..i + 1][..i] == bytes[..i];
      h := Round(h, bytes[i]);
      i := i + 1;
    }
  }
}
