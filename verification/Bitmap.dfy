/** The presence bitmap (iso8583/parser.py:251-286): bit n, counted from the top, says element n follows. */
module Bitmap {
  import opened Wrappers
  import opened Bytes
  import Text

  // ----- bits of a number

  /** b & (1 << k) */
  predicate Bit(b: nat, k: nat) {
    if k == 0 then b % 2 == 1 else Bit(b / 2, k - 1)
  }

  /** b | (1 << k) */
  function OrBit(b: nat, k: nat): nat {
    if k == 0 then 2 * (b / 2) + 1 else 2 * OrBit(b / 2, k - 1) + b % 2
  }

  lemma OrBitHalves(b: nat, k: nat)
    ensures OrBit(b, k) / 2 == if k == 0 then b / 2 else OrBit(b / 2, k - 1)
    ensures OrBit(b, k) % 2 == if k == 0 then 1 else b % 2
  {
  }

  lemma {:induction false} OrBitEffect(b: nat, k: nat, j: nat)
    ensures Bit(OrBit(b, k), j) <==> j == k || Bit(b, j)
    decreases k
  {
    hide OrBit;
    OrBitHalves(b, k);
    if k > 0 && j > 0 {
      OrBitEffect(b / 2, k - 1, j - 1);
    }
  }

  lemma {:induction false} OrBitBound(b: nat, k: nat, w: nat)
    requires k < w && b < Text.Pow(2, w)
    ensures OrBit(b, k) < Text.Pow(2, w)
    decreases w
  {
    if k > 0 {
      OrBitBound(b / 2, k - 1, w - 1);
    }
  }

  /** Every byte is determined by its eight bits. */
  lemma {:induction false} SameBits(a: nat, b: nat, w: nat)
    requires a < Text.Pow(2, w) && b < Text.Pow(2, w)
    requires forall k | 0 <= k < w :: Bit(a, k) <==> Bit(b, k)
    ensures a == b
    decreases w
  {
    if w > 0 {
      assert Bit(a, 0) <==> Bit(b, 0);
      forall k | 0 <= k < w - 1
        ensures Bit(a / 2, k) <==> Bit(b / 2, k)
      {
        assert Bit(a, k + 1) <==> Bit(b, k + 1);
      }
      SameBits(a / 2, b / 2, w - 1);
    }
  }

  lemma {:induction false} NoBits(k: nat)
    ensures !Bit(0, k)
  {
    if k > 0 {
      NoBits(k - 1);
    }
  }

  // ----- bits of a bitmap

  /** Data elements are numbered from 1. */
  type Element = n: int | 1 <= n witness 1

  /** Whether the bitmap announces element n. */
  predicate Announces(bitmap: seq<byte>, n: nat)
    requires 1 <= n <= 8 * |bitmap|
  {
    Bit(bitmap[(n - 1) / 8], 7 - (n - 1) % 8)
  }

  /** bitmap with bit n switched on: _set_bit on a value. */
  function WithBit(bitmap: seq<byte>, n: nat): (r: seq<byte>)
    requires 1 <= n <= 8 * |bitmap|
    ensures |r| == |bitmap|
  {
    OrBitBound(bitmap[(n - 1) / 8], 7 - (n - 1) % 8, 8);
    assert Text.Pow(2, 8) == 256 by { PowersOfTwo(); }
    bitmap[(n - 1) / 8 := OrBit(bitmap[(n - 1) / 8], 7 - (n - 1) % 8)]
  }

  lemma PowersOfTwo()
    ensures Text.Pow(2, 8) == 256
  {
    assert Text.Pow(2, 4) == 16;
    assert Text.Pow(2, 8) == 256;
  }

  lemma WithBitEffect(bitmap: seq<byte>, n: nat, m: nat)
    requires 1 <= n <= 8 * |bitmap| && 1 <= m <= 8 * |bitmap|
    ensures Announces(WithBit(bitmap, n), m) <==> m == n || Announces(bitmap, m)
  {
    OrBitEffect(bitmap[(n - 1) / 8], 7 - (n - 1) % 8, 7 - (m - 1) % 8);
  }

  lemma SameAnnouncements(a: seq<byte>, b: seq<byte>)
    requires |a| == |b|
    requires forall n | 1 <= n <= 8 * |a| :: Announces(a, n) <==> Announces(b, n)
    ensures a == b
  {
    forall i | 0 <= i < |a|
      ensures a[i] == b[i]
    {
      forall k | 0 <= k < 8
        ensures Bit(a[i], k) <==> Bit(b[i], k)
      {
        assert Announces(a, 8 * i + 8 - k) <==> Announces(b, 8 * i + 8 - k);
      }
      PowersOfTwo();
      SameBits(a[i], b[i], 8);
    }
  }

  // ----- the bitmap of a set of elements

  function Length(elements: set<Element>): (len: nat)
    ensures len == 8 || len == 16
  {
    if exists n | n in elements :: n > 64 then 16 else 8
  }

  /** The bitmap announces the elements and nothing else, but for the flag bit of a secondary bitmap. */
  ghost predicate AnnouncesJust(bitmap: seq<byte>, elements: set<Element>) {
    forall n | 1 <= n <= 8 * |bitmap| :: Announces(bitmap, n) <==> n in elements || (n == 1 && |bitmap| == 16)
  }

  ghost predicate IsBitmapOf(bitmap: seq<byte>, elements: set<Element>) {
    |bitmap| == Length(elements) && AnnouncesJust(bitmap, elements)
  }

  predicate Encodable(elements: set<Element>) {
    forall n | n in elements :: 2 <= n <= 128
  }

  /** The elements among 2..limit, in ascending order. */
  function Ascending(elements: set<Element>, limit: nat): (s: seq<Element>)
    ensures forall n :: n in s <==> 2 <= n <= limit && n in elements
    ensures forall i, j | 0 <= i < j < |s| :: s[i] < s[j]
  {
    if limit < 2 then []
    else
      var below := Ascending(elements, limit - 1);
      assert forall i | 0 <= i < |below| :: below[i] in below;
      if limit in elements then below + [limit] else below
  }

  /** A bitmap with the elements among 2..limit switched on. */
  function SwitchOn(bitmap: seq<byte>, elements: set<Element>, limit: nat): (r: seq<byte>)
    requires limit <= 8 * |bitmap|
    ensures |r| == |bitmap|
  {
    if limit < 2 then bitmap
    else if limit in elements then WithBit(SwitchOn(bitmap, elements, limit - 1), limit)
    else SwitchOn(bitmap, elements, limit - 1)
  }

  function Zeros(len: nat): (r: seq<byte>)
    ensures |r| == len
  {
    seq(len, i => 0)
  }

  function Blank(len: nat): (r: seq<byte>)
    requires len == 8 || len == 16
    ensures |r| == len
  {
    if len == 16 then WithBit(Zeros(len), 1) else Zeros(len)
  }

  function Build(elements: set<Element>): Option<seq<byte>> {
    if Encodable(elements)
    then Some(SwitchOn(Blank(Length(elements)), elements, 8 * Length(elements)))
    else None
  }

  lemma {:induction false} SwitchOnEffect(bitmap: seq<byte>, elements: set<Element>, limit: nat, m: nat)
    requires limit <= 8 * |bitmap| && 1 <= m <= 8 * |bitmap|
    ensures Announces(SwitchOn(bitmap, elements, limit), m)
       <==> Announces(bitmap, m) || (2 <= m <= limit && m in elements)
    decreases limit
  {
    if limit >= 2 {
      SwitchOnEffect(bitmap, elements, limit - 1, m);
      if limit in elements {
        WithBitEffect(SwitchOn(bitmap, elements, limit - 1), limit, m);
      }
    }
  }

  lemma BlankEffect(len: nat, m: nat)
    requires len == 8 || len == 16
    requires 1 <= m <= 8 * len
    ensures Announces(Blank(len), m) <==> m == 1 && len == 16
  {
    NoBits(7 - (m - 1) % 8);
    if len == 16 {
      WithBitEffect(Zeros(len), 1, m);
    }
  }

  lemma BlankAnnounces(len: nat)
    requires len == 8 || len == 16
    ensures AnnouncesJust(Blank(len), {})
  {
    forall m | 1 <= m <= 8 * len
      ensures Announces(Blank(len), m) <==> m == 1 && len == 16
    {
      BlankEffect(len, m);
    }
  }

  lemma AddElement(bitmap: seq<byte>, elements: set<Element>, n: Element)
    requires AnnouncesJust(bitmap, elements)
    ensures n <= 8 * |bitmap| ==> AnnouncesJust(WithBit(bitmap, n), elements + {n})
  {
    if n <= 8 * |bitmap| {
      forall m | 1 <= m <= 8 * |bitmap|
        ensures Announces(WithBit(bitmap, n), m) <==> m == n || Announces(bitmap, m)
      {
        WithBitEffect(bitmap, n, m);
      }
    }
  }

  lemma BuildIsBitmap(elements: set<Element>)
    requires Encodable(elements)
    ensures IsBitmapOf(Build(elements).value, elements)
  {
    var len := Length(elements);
    forall m | 1 <= m <= 8 * len
      ensures Announces(Build(elements).value, m) <==> m in elements || (m == 1 && len == 16)
    {
      SwitchOnEffect(Blank(len), elements, 8 * len, m);
      BlankEffect(len, m);
    }
  }

  /** Only one byte string is the bitmap of a set of elements. */
  lemma BitmapUnique(bitmap: seq<byte>, elements: set<Element>)
    requires Encodable(elements) && IsBitmapOf(bitmap, elements)
    ensures Build(elements) == Some(bitmap)
  {
    BuildIsBitmap(elements);
    SameAnnouncements(bitmap, Build(elements).value);
  }

  // ----- reading a bitmap

  /** The announced elements among 2..limit, in ascending order. */
  function Announced(bitmap: seq<byte>, limit: nat): (s: seq<Element>)
    requires limit <= 8 * |bitmap|
    ensures forall n | n in s :: 2 <= n <= limit
  {
    if limit < 2 then []
    else if Announces(bitmap, limit) then Announced(bitmap, limit - 1) + [limit]
    else Announced(bitmap, limit - 1)
  }

  /** read_bitmap: the elements present and the bytes consumed, or None when raw ends too early. */
  function Read(raw: seq<byte>, offset: nat): Option<(seq<Element>, nat)> {
    if offset >= |raw| then None
    else
      var total := if raw[offset] >= 128 then 16 else 8;
      if offset + total > |raw| then None
      else Some((Announced(raw[offset..offset + total], 8 * total), total))
  }

  lemma TopBit(b: byte)
    ensures Bit(b, 7) <==> b >= 128
  {
    assert Bit(b, 7) == Bit(b / 2, 6) == Bit(b / 4, 5) == Bit(b / 8, 4);
    assert Bit(b / 8, 4) == Bit(b / 16, 3) == Bit(b / 32, 2) == Bit(b / 64, 1) == Bit(b / 128, 0);
  }

  lemma {:induction false} AnnouncedIsAscending(bitmap: seq<byte>, elements: set<Element>, limit: nat)
    requires IsBitmapOf(bitmap, elements) && limit <= 8 * |bitmap|
    ensures Announced(bitmap, limit) == Ascending(elements, limit)
    decreases limit
  {
    if limit >= 2 {
      AnnouncedIsAscending(bitmap, elements, limit - 1);
    }
  }

  lemma {:induction false} AscendingBeyond(elements: set<Element>, low: nat, high: nat)
    requires low <= high && forall n | n in elements :: n <= low || n > high
    ensures Ascending(elements, high) == Ascending(elements, low)
    decreases high
  {
    if low < high {
      AscendingBeyond(elements, low, high - 1);
    }
  }

  /** A built bitmap, wherever it stands in a message, reads back as exactly the elements, ascending. */
  lemma ReadBuilt(elements: set<Element>, raw: seq<byte>, offset: nat)
    requires Encodable(elements)
    requires offset + |Build(elements).value| <= |raw|
    requires raw[offset..offset + |Build(elements).value|] == Build(elements).value
    ensures |Build(elements).value| == Length(elements)
    ensures Read(raw, offset) == Some((Ascending(elements, 128), Length(elements)))
  {
    var bitmap := Build(elements).value;
    BuildIsBitmap(elements);
    assert raw[offset] == bitmap[0];
    TopBit(bitmap[0]);
    assert Announces(bitmap, 1) <==> |bitmap| == 16;
    AnnouncedIsAscending(bitmap, elements, 8 * |bitmap|);
    AscendingBeyond(elements, 8 * |bitmap|, 128);
  }

  /** Building and reading back gives the set exactly when all of it lies in 2..128. */
  lemma RoundTripExact(elements: set<Element>)
    ensures Encodable(elements) <==>
            && Build(elements).Some?
            && Read(Build(elements).value, 0).Some?
            && (set n | n in Read(Build(elements).value, 0).value.0) == elements
    ensures Encodable(elements) ==>
            Read(Build(elements).value, 0).value.1 == (if exists n | n in elements :: n > 64 then 16 else 8)
  {
    if Encodable(elements) {
      ReadBuilt(elements, Build(elements).value, 0);
    }
  }

  // ----- the loops

  /** _set_bit: false is the IndexError of a number the bitmap has no room for. */
  method SetBit(bitmap: array<byte>, n: Element) returns (ok: bool)
    modifies bitmap
    ensures ok <==> n <= 8 * bitmap.Length
    ensures bitmap[..] == if ok then WithBit(old(bitmap[..]), n) else old(bitmap[..])
  {
    var byteIdx, bitIdx := (n - 1) / 8, 7 - (n - 1) % 8;
    ok := byteIdx < bitmap.Length;
    if ok {
      OrBitBound(bitmap[byteIdx], bitIdx, 8);
      PowersOfTwo();
      bitmap[byteIdx] := OrBit(bitmap[byteIdx], bitIdx);
    }
  }

  /** build_bitmap; the dictionary's keys come in whatever order they were inserted. */
  method BuildBitmap(fieldNumbers: set<Element>) returns (r: Option<seq<byte>>)
    ensures r == Build(fieldNumbers)
  {
    var hasSecondary := exists n | n in fieldNumbers :: n > 64;
    var bitmap := new byte[if hasSecondary then 16 else 8](i => 0);
    assert bitmap[..] == Zeros(bitmap.Length);
    if hasSecondary {
      var _ := SetBit(bitmap, 1);
    }
    BlankAnnounces(bitmap.Length);
    var todo := fieldNumbers;
    while todo != {}
      invariant todo <= fieldNumbers && Encodable(fieldNumbers - todo)
      invariant AnnouncesJust(bitmap[..], fieldNumbers - todo)
    {
      var n :| n in todo;
      if n == 1 {
        return None;
      }
      AddElement(bitmap[..], fieldNumbers - todo, n);
      var ok := SetBit(bitmap, n);
      if !ok {
        return None;
      }
      assert fieldNumbers - (todo - {n}) == fieldNumbers - todo + {n};
      todo := todo - {n};
    }
    assert fieldNumbers - todo == fieldNumbers;
    BitmapUnique(bitmap[..], fieldNumbers);
    r := Some(bitmap[..]);
  }

  method ReadBitmap(raw: seq<byte>, offset: nat) returns (r: Option<(seq<Element>, nat)>)
    ensures r == Read(raw, offset)
  {
    if offset >= |raw| {
      return None;
    }
    var total := if raw[offset] >= 128 then 16 else 8;
    var bitmap := Slice(raw, offset, offset + total);
    var fields: seq<Element> := [];
    for i := 0 to 8 * total
      invariant i > 1 ==> (i - 1) / 8 < |bitmap|
      invariant |bitmap| == total ==> fields == Announced(bitmap, i)
    {
      var n := i + 1;
      if n != 1 {
        if i / 8 >= |bitmap| {
          return None;
        }
        if Bit(bitmap[i / 8], 7 - i % 8) {
          fields := fields + [n];
        }
      }
    }
    assert (8 * total - 1) / 8 < |bitmap|;
    r := Some((fields, total));
  }

  /** The bits of a byte, from the top. */
  lemma BitExact(b: byte, i: nat)
    requires i < 8
    ensures Bit(b, 7 - i) <==> b / [128, 64, 32, 16, 8, 4, 2, 1][i] % 2 == 1
  {
    hide Bit;
    LowBits(b, i);
    if i < 4 {
      NextBit(b, 7 - i);
      NextBit(b / 2, 6 - i);
      NextBit(b / 2 / 2, 5 - i);
      NextBit(b / 2 / 2 / 2, 4 - i);
      assert b / 2 / 2 / 2 / 2 == b / 16;
      LowBits(b / 16, i + 4);
      assert b / 16 / 2 == b / 32 && b / 16 / 4 == b / 64 && b / 16 / 8 == b / 128;
    }
  }

  lemma LowBits(b: byte, i: nat)
    requires i < 8
    ensures i >= 4 ==> (Bit(b, 7 - i) <==> b / [8, 4, 2, 1][i - 4] % 2 == 1)
  {
    hide Bit;
    if i >= 4 {
      if i < 7 {
        NextBit(b, 7 - i);
      }
      if i < 6 {
        NextBit(b / 2, 6 - i);
      }
      if i < 5 {
        NextBit(b / 2 / 2, 5 - i);
      }
      assert b / 2 / 2 == b / 4 && b / 2 / 2 / 2 == b / 8;
      LastBit(b);
      LastBit(b / 2);
      LastBit(b / 2 / 2);
      LastBit(b / 2 / 2 / 2);
    }
  }

  lemma LastBit(b: nat)
    ensures Bit(b, 0) <==> b % 2 == 1
  {
  }

  lemma NextBit(b: nat, k: nat)
    requires k > 0
    ensures Bit(b, k) <==> Bit(b / 2, k - 1)
  {
  }

  /**
    Element n is announced by a bit of its own, counted from the top of the first byte; the first bit of all says that
    there is a second half, which there is when an element beyond 64 is present.
   */
  lemma BuiltExact(elements: set<Element>, n: nat)
    requires Encodable(elements) && 1 <= n <= 8 * Length(elements)
    ensures Build(elements).Some? && |Build(elements).value| == if exists e | e in elements :: e > 64 then 16 else 8
    ensures var bit := Build(elements).value[(n - 1) / 8] / [128, 64, 32, 16, 8, 4, 2, 1][(n - 1) % 8] % 2;
            bit == 1 <==> if n == 1 then exists e | e in elements :: e > 64 else n in elements
  {
    hide Bit;
    BuildIsBitmap(elements);
    var bitmap := Build(elements).value;
    BitExact(bitmap[(n - 1) / 8], (n - 1) % 8);
    assert Announces(bitmap, n) <==> n in elements || (n == 1 && |bitmap| == 16);
  }
}
