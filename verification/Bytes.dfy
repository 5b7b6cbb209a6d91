/** Bytes, Python slices, big-endian integers and the latin-1 carrier. */
module Bytes {
  import opened Wrappers
  import Text

  type byte = b: int | 0 <= b < 256

  /** data[lo:hi] -- Python shortens a slice that runs past the end. */
  function Slice(data: seq<byte>, lo: nat, hi: nat): (r: seq<byte>)
    requires lo <= hi
    ensures |r| <= hi - lo
    ensures hi <= |data| ==> r == data[lo..hi]
  {
    if hi <= |data| then data[lo..hi]
    else if lo <= |data| then data[lo..]
    else []
  }

  /** text.encode("latin-1") */
  function EncodeLatin1(s: string): (r: Option<seq<byte>>)
    ensures r.Some? <==> Text.Latin1(s)
    ensures r.Some? ==> |r.value| == |s|
  {
    if Text.Latin1(s) then Some(seq(|s|, i requires 0 <= i < |s| => s[i] as int)) else None
  }

  /** data.decode("latin-1"): every byte value is a character. */
  function DecodeLatin1(data: seq<byte>): (s: string)
    ensures |s| == |data| && Text.Latin1(s)
  {
    seq(|data|, i requires 0 <= i < |data| => data[i] as char)
  }

  /** latin-1 carries bytes through text, and text below 256 through bytes, unchanged. */
  lemma Latin1RoundTrip(s: string, data: seq<byte>)
    ensures Text.Latin1(s) ==> DecodeLatin1(EncodeLatin1(s).value) == s
    ensures EncodeLatin1(DecodeLatin1(data)) == Some(data)
  {
    assert EncodeLatin1(DecodeLatin1(data)).value == data;
  }

  /** n.to_bytes(k, byteorder="big"), without the overflow check. */
  function BigEndian(n: nat, k: nat): (r: seq<byte>)
    ensures |r| == k
  {
    if k == 0 then [] else BigEndian(n / 256, k - 1) + [n % 256]
  }

  /** n.to_bytes(k, byteorder="big") */
  function ToBytes(n: nat, k: nat): Option<seq<byte>> {
    if n < Text.Pow(256, k) then Some(BigEndian(n, k)) else None
  }

  /** int.from_bytes(data, byteorder="big") */
  function FromBytes(data: seq<byte>): nat {
    if data == [] then 0 else FromBytes(data[..|data| - 1]) * 256 + data[|data| - 1]
  }

  lemma {:induction false} FromToBytes(n: nat, k: nat)
    requires n < Text.Pow(256, k)
    ensures FromBytes(BigEndian(n, k)) == n
    decreases k
  {
    if k > 0 {
      var r := BigEndian(n, k);
      assert r[..|r| - 1] == BigEndian(n / 256, k - 1);
      FromToBytes(n / 256, k - 1);
    }
  }

  lemma {:induction false} ToFromBytes(data: seq<byte>)
    ensures BigEndian(FromBytes(data), |data|) == data
    ensures FromBytes(data) < Text.Pow(256, |data|)
  {
    if data != [] {
      ToFromBytes(data[..|data| - 1]);
    }
  }

  /** a ^ b on non-negative integers. */
  function Xor(a: nat, b: nat): nat
    decreases a + b
  {
    if a == 0 && b == 0 then 0
    else (a % 2 + b % 2) % 2 + 2 * Xor(a / 2, b / 2)
  }

  lemma XorUnfold(a: nat, b: nat)
    ensures Xor(a, b) / 2 == Xor(a / 2, b / 2)
    ensures Xor(a, b) % 2 == (a % 2 + b % 2) % 2
  {
  }

  lemma XorOne(a: nat, b: nat, low: nat, low': nat)
    requires low < 2 && low' < 2
    ensures Xor(2 * a + low, 2 * b + low') == 2 * Xor(a, b) + Xor(low, low')
  {
    assert (2 * a + low) / 2 == a && (2 * b + low') / 2 == b && Xor(0, 0) == 0;
    assert (2 * a + low) % 2 == low && (2 * b + low') % 2 == low';
    assert low / 2 == 0 == low' / 2 && low % 2 == low && low' % 2 == low';
  }

  lemma XorTwo(a: nat, b: nat, low: nat, low': nat)
    requires low < 4 && low' < 4
    ensures Xor(4 * a + low, 4 * b + low') == 4 * Xor(a, b) + Xor(low, low')
  {
    hide Xor;
    var u, v, u', v' := low / 2, low % 2, low' / 2, low' % 2;
    assert 4 * a + low == 2 * (2 * a + u) + v && 4 * b + low' == 2 * (2 * b + u') + v';
    XorOne(2 * a + u, 2 * b + u', v, v');
    XorOne(a, b, u, u');
    XorOne(u, u', v, v');
  }

  lemma XorFour(a: nat, b: nat, low: nat, low': nat)
    requires low < 16 && low' < 16
    ensures Xor(16 * a + low, 16 * b + low') == 16 * Xor(a, b) + Xor(low, low')
  {
    hide Xor;
    var u, v, u', v' := low / 4, low % 4, low' / 4, low' % 4;
    assert 16 * a + low == 4 * (4 * a + u) + v && 16 * b + low' == 4 * (4 * b + u') + v';
    XorTwo(4 * a + u, 4 * b + u', v, v');
    XorTwo(a, b, u, u');
    XorTwo(u, u', v, v');
  }

  /** Two numbers are XORed byte by byte. */
  lemma XorByte(a: nat, b: nat, low: nat, low': nat)
    requires low < 256 && low' < 256
    ensures Xor(256 * a + low, 256 * b + low') == 256 * Xor(a, b) + Xor(low, low')
  {
    hide Xor;
    var u, v, u', v' := low / 16, low % 16, low' / 16, low' % 16;
    assert 256 * a + low == 16 * (16 * a + u) + v && 256 * b + low' == 16 * (16 * b + u') + v';
    XorFour(16 * a + u, 16 * b + u', v, v');
    XorFour(a, b, u, u');
    XorFour(u, u', v, v');
  }

  lemma {:induction false} XorInverse(a: nat, b: nat)
    ensures Xor(Xor(a, b), b) == a
    decreases a + b
  {
    if a != 0 || b != 0 {
      var x := Xor(a, b);
      XorUnfold(a, b);
      XorUnfold(x, b);
      XorInverse(a / 2, b / 2);
      var y := Xor(x, b);
      assert y / 2 == a / 2;
      assert (b % 2 == 0 || b % 2 == 1) && (a % 2 == 0 || a % 2 == 1);
      assert y % 2 == a % 2;
      assert y == 2 * (y / 2) + y % 2;
    }
  }

  lemma {:induction false} XorBound(a: nat, b: nat, k: nat)
    requires a < Text.Pow(2, k) && b < Text.Pow(2, k)
    ensures Xor(a, b) < Text.Pow(2, k)
    decreases k
  {
    if k > 0 && (a != 0 || b != 0) {
      XorBound(a / 2, b / 2, k - 1);
    }
  }
}
