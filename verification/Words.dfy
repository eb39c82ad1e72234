/** Bytes, 256-bit words and their big-endian encoding (`boa/vm/utils.py`). */
module Words {

  type Byte = b: int | 0 <= b < 256

  const TWO256: int := 0x1_00000000_00000000_00000000_00000000_00000000_00000000_00000000_00000000

  type Word = w: int | 0 <= w < TWO256

  function Pow2(n: nat): (p: nat)
    ensures p > 0
  {
    if n == 0 then 1 else 2 * Pow2(n - 1)
  }

  /** `x % 2**256` (Python's modulus and Dafny's agree for a positive modulus). */
  function Wrap(x: int): Word {
    x % TWO256
  }

  /** `unsigned_to_signed(x, 256, strict=True)`. */
  function AsSigned(w: Word): int {
    if w < TWO256 / 2 then w else w - TWO256
  }

  function Floor32(n: nat): (r: nat)
    ensures r <= n < r + 32 && r % 32 == 0
  {
    n / 32 * 32
  }

  function Ceil32(n: nat): (r: nat)
    ensures n <= r < n + 32 && r % 32 == 0
  {
    Floor32(n + 31)
  }

  function Zeros(n: nat): (s: seq<Byte>)
    ensures |s| == n && forall i :: 0 <= i < n ==> s[i] == 0
  {
    seq(n, i => 0)
  }

  /** `int.from_bytes(s, "big")`. */
  function FromBytes(s: seq<Byte>): nat {
    if s == [] then 0 else FromBytes(s[..|s| - 1]) * 256 + s[|s| - 1]
  }

  /** The `len` low-order bytes of `n`, most significant first. */
  function ToBytes(n: nat, len: nat): (s: seq<Byte>)
    ensures |s| == len
  {
    if len == 0 then [] else ToBytes(n / 256, len - 1) + [n % 256]
  }

  /** `w.to_bytes(32, "big")`. */
  function Bytes32(w: Word): (s: seq<Byte>)
    ensures |s| == 32
  {
    ToBytes(w, 32)
  }

  /** `s.rjust(32, b"\x00")`. */
  function RJust32(s: seq<Byte>): seq<Byte> {
    if |s| < 32 then Zeros(32 - |s|) + s else s
  }

  /** A Python slice `s[lo:hi]`: bounds past the end are clipped. */
  function Slice<T>(s: seq<T>, lo: nat, hi: nat): (r: seq<T>)
    ensures |r| <= |s|
    ensures lo <= hi <= |s| ==> |r| == hi - lo && r == s[lo..hi]
  {
    var h := if hi < |s| then hi else |s|;
    if lo < h then s[lo..h] else []
  }

  /** Bounds are clipped, and nothing is moved. */
  lemma SliceIs<T>(s: seq<T>, lo: nat, hi: nat)
    ensures var r, end := Slice(s, lo, hi), if hi < |s| then hi else |s|;
      |r| == (if lo < end then end - lo else 0) && forall i :: 0 <= i < |r| ==> r[i] == s[lo + i]
  {}

  lemma ModMultiple(k: int, m: int)
    requires m > 0
    ensures (k * m) % m == 0
  {
    assert k * m == m * k;
    DivUnique(k * m, m, k);
  }

  lemma DivUnique(x: int, m: int, q: int)
    requires m > 0 && 0 <= x - m * q < m
    ensures x / m == q && x % m == x - m * q
  {
    var q', r' := x / m, x % m;
    assert x == m * q' + r';
    if q' <= q - 1 { MulMonotone(m, q', q - 1); }
    if q' >= q + 1 { MulMonotone(m, q + 1, q'); }
  }

  lemma MulMonotone(m: int, a: int, b: int)
    requires m > 0 && a <= b
    ensures m * a <= m * b
  {
    assert m * (b - a) >= 0;
  }

  lemma {:induction false} Pow2Add(a: nat, b: nat)
    ensures Pow2(a + b) == Pow2(a) * Pow2(b)
  {
    if a != 0 {
      Pow2Add(a - 1, b);
      assert Pow2(a + b) == 2 * Pow2(a - 1 + b) == 2 * (Pow2(a - 1) * Pow2(b));
    }
  }

  lemma Pow2At32()
    ensures Pow2(32) == 0x1_00000000
  {
    assert Pow2(4) == 16;
    Pow2Add(4, 4);
    assert Pow2(8) == 256;
    Pow2Add(8, 8);
    assert Pow2(16) == 0x1_0000;
    Pow2Add(16, 16);
  }

  lemma Pow2At256()
    ensures Pow2(256) == TWO256
  {
    Pow2At32();
    Pow2Add(32, 32);
    assert Pow2(64) == 0x1_00000000_00000000;
    Pow2Add(64, 64);
    assert Pow2(128) == 0x1_00000000_00000000_00000000_00000000;
    Pow2Add(128, 128);
  }

  lemma {:induction false} Pow2Monotone(a: nat, b: nat)
    requires a <= b
    ensures Pow2(a) <= Pow2(b)
  {
    if a < b { Pow2Monotone(a, b - 1); }
  }

  lemma {:induction false} FromBytesBound(s: seq<Byte>)
    ensures FromBytes(s) < Pow2(8 * |s|)
  {
    if s != [] {
      var n := |s| - 1;
      FromBytesBound(s[..n]);
      Pow2Add(8 * n, 8);
      assert Pow2(8) == 256;
    }
  }

  lemma {:induction false} FromToBytes(n: nat, len: nat)
    requires n < Pow2(8 * len)
    ensures FromBytes(ToBytes(n, len)) == n
  {
    if len != 0 {
      Pow2Add(8 * (len - 1), 8);
      assert Pow2(8) == 256;
      FromToBytes(n / 256, len - 1);
      var s := ToBytes(n, len);
      assert s[..len - 1] == ToBytes(n / 256, len - 1);
    }
  }

  lemma {:induction false} ToFromBytes(s: seq<Byte>)
    ensures ToBytes(FromBytes(s), |s|) == s
  {
    if s != [] {
      var n := |s| - 1;
      ToFromBytes(s[..n]);
      assert FromBytes(s) / 256 == FromBytes(s[..n]);
    }
  }

  lemma {:induction false} FromBytesLeadingZeros(k: nat, s: seq<Byte>)
    ensures FromBytes(Zeros(k) + s) == FromBytes(s)
    decreases |s|, k
  {
    var z := Zeros(k) + s;
    if s == [] {
      if k != 0 {
        assert z[..k - 1] == Zeros(k - 1) + s;
        FromBytesLeadingZeros(k - 1, s);
      }
    } else {
      assert z[..|z| - 1] == Zeros(k) + s[..|s| - 1];
      FromBytesLeadingZeros(k, s[..|s| - 1]);
    }
  }

  /** A stack item of at most 32 bytes is a word. */
  lemma ShortBytesAreWord(s: seq<Byte>)
    requires |s| <= 32
    ensures FromBytes(s) < TWO256
  {
    FromBytesBound(s);
    Pow2Monotone(8 * |s|, 256);
    Pow2At256();
  }

  lemma WordRoundTrip(w: Word)
    ensures FromBytes(Bytes32(w)) == w
  {
    Pow2At256();
    FromToBytes(w, 32);
  }

  lemma BytesRoundTrip(s: seq<Byte>)
    requires |s| == 32
    ensures FromBytes(s) < TWO256 && Bytes32(FromBytes(s)) == s
  {
    ShortBytesAreWord(s);
    ToFromBytes(s);
  }

  /** `to_bytes(to_int(s)) == to_bytes(s)`: the two ways a short byte string reaches 32 bytes. */
  lemma RJustIsWordBytes(s: seq<Byte>)
    requires |s| <= 32
    ensures |RJust32(s)| == 32
    ensures FromBytes(s) < TWO256 && RJust32(s) == Bytes32(FromBytes(s))
  {
    ShortBytesAreWord(s);
    if |s| < 32 { FromBytesLeadingZeros(32 - |s|, s); }
    BytesRoundTrip(RJust32(s));
  }
}
