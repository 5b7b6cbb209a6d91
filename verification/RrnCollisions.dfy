/**
  When two purchases are one to the switch: RRNs (api/routes/transactions.py:61-62) that differ where they were made may
  be the same where they are read, and the entry mode decides it.
 */
module RrnCollisions {
  import opened Wrappers
  import opened Text
  import opened Bytes
  import opened FieldCatalogue
  import opened Codec
  import opened HostSwitch
  import opened Transport
  import opened EntryModes
  import Bcd
  import Correlation
  import Ledger

  // ----- how long DE 22 gets

  predicate AllHex(s: string) {
    forall i | 0 <= i < |s| :: IsHex(s[i])
  }

  lemma {:induction false} HexLength(s: string)
    requires AllHex(s) && |s| % 2 == 0
    ensures Bcd.FromHex(s).Some? && |Bcd.FromHex(s).value| == |s| / 2
    decreases |s|
  {
    if s != "" {
      HexLength(s[2..]);
    }
  }

  /** Hex digits, in either case, are built as one byte for every two of them, and as two bytes at least. */
  lemma DigitsBuilt(entryMode: string)
    requires AllHex(entryMode)
    ensures ModeBytes(entryMode).Some?
    ensures |ModeBytes(entryMode).value| == if |entryMode| <= 4 then 2 else (|entryMode| + 1) / 2
  {
    var code := RJust(entryMode, 3, '0');
    assert AllHex(code);
    HexLength(if |code| % 2 == 1 then code + "F" else code);
  }

  /** Hex digits take the two bytes of DE 22 exactly when there are at most four of them. */
  lemma AlignedExact(entryMode: string)
    requires AllHex(entryMode)
    ensures IsAligned(entryMode) <==> |entryMode| <= 4
  {
    DigitsBuilt(entryMode);
  }

  // ----- what is read for the RRN

  /** Built, with two bytes at least. */
  predicate Fills(entryMode: string) {
    ModeBytes(entryMode).Some? && |ModeBytes(entryMode).value| >= 2
  }

  /** What is left over of the entry mode. */
  function Overhang(entryMode: string): string
    requires Fills(entryMode)
  {
    DecodeLatin1(ModeBytes(entryMode).value[2..])
  }

  /** The RRN as it is read: what was left over, and then as much of the RRN as there is room for. */
  function Shifted(r: Request): (s: string)
    requires IsPurchase(r) && Fills(r.entryMode)
    ensures |s| == 12
  {
    (Overhang(r.entryMode) + r.rrn)[..12]
  }

  lemma DecodeAppend(a: seq<byte>, b: seq<byte>)
    ensures DecodeLatin1(a + b) == DecodeLatin1(a) + DecodeLatin1(b)
  {
  }

  lemma ShiftedIsRead(r: Request)
    requires IsPurchase(r) && Fills(r.entryMode)
    ensures RrnText(r) == RStrip(Shifted(r))
  {
    hide Sound, RStrip, Bcd.FromHex;
    WireLength(r);
    Latin1RoundTrip(r.rrn, []);
    var left := ModeBytes(r.entryMode).value[2..];
    DecodeAppend(left, RrnBytes(r));
    assert Wire(r)[2..] == (left + RrnBytes(r)) + CurrencyBytes(r);
    assert Wire(r)[2..14] == (left + RrnBytes(r))[..12];
    assert DecodeLatin1((left + RrnBytes(r))[..12]) == DecodeLatin1(left + RrnBytes(r))[..12];
  }

  lemma ReadAs(r: Request, draw: nat)
    requires IsPurchase(r) && ModeBytes(r.entryMode).Some?
    ensures RrnRead(RequestMessage(r, draw)) == Some(RrnText(r))
  {
    hide RequestMessage, IsPurchase, ModeBytes, RrnText, Legible;
    PurchaseRead(r, draw);
    LegibleType(RequestMessage(r, draw));
  }

  lemma NothingStripped(s: string)
    requires s != ""
    ensures RStrip(s) == s <==> !IsSpace(s[|s| - 1])
  {
  }

  /** The switch reads the caller's own RRN exactly when shifting it changes nothing. */
  lemma OwnRrnExact(r: Request, draw: nat)
    requires IsPurchase(r) && Fills(r.entryMode)
    ensures RrnRead(RequestMessage(r, draw)) == Some(r.rrn) <==> Shifted(r) == r.rrn
    ensures IsAligned(r.entryMode) ==> Shifted(r) == r.rrn
  {
    hide RequestMessage, Sound, RStrip, RrnRead, RrnText;
    ReadAs(r, draw);
    ShiftedIsRead(r);
    assert IsDigit(r.rrn[11]);
    NothingStripped(r.rrn);
    if IsAligned(r.entryMode) {
      assert Overhang(r.entryMode) + r.rrn == r.rrn;
    }
  }

  /** How many digits of the RRN are read. */
  function Room(entryMode: string): (n: nat)
    requires Fills(entryMode)
    ensures n <= 12
  {
    var k := |Overhang(entryMode)|;
    if k <= 12 then 12 - k else 0
  }

  /**
    Two purchases are read under one RRN exactly when what is left over of their entry modes, followed by their RRNs, is
    the same in the first twelve places, but for white space at the end. With one entry mode, or two that leave the same
    over, it comes down to as many digits as there is room for.
   */
  lemma SameRrnExact(r1: Request, r2: Request, d1: nat, d2: nat)
    requires IsPurchase(r1) && Fills(r1.entryMode) && IsPurchase(r2) && Fills(r2.entryMode)
    ensures RrnRead(RequestMessage(r1, d1)).Some? && RrnRead(RequestMessage(r2, d2)).Some?
    ensures RrnRead(RequestMessage(r1, d1)) == RrnRead(RequestMessage(r2, d2)) <==>
            RStrip(Shifted(r1)) == RStrip(Shifted(r2))
    ensures Overhang(r1.entryMode) == Overhang(r2.entryMode) ==>
              (RrnRead(RequestMessage(r1, d1)) == RrnRead(RequestMessage(r2, d2)) <==>
                 r1.rrn[..Room(r1.entryMode)] == r2.rrn[..Room(r1.entryMode)])
  {
    hide RequestMessage, Sound, RStrip, RrnRead, RrnText, Overhang;
    ReadAs(r1, d1);
    ReadAs(r2, d2);
    ShiftedIsRead(r1);
    ShiftedIsRead(r2);
    if Overhang(r1.entryMode) == Overhang(r2.entryMode) {
      SameOverhang(Overhang(r1.entryMode), r1.rrn, r2.rrn);
    }
  }

  lemma SameOverhang(left: string, rrn1: string, rrn2: string)
    requires |rrn1| == 12 && AllDigits(rrn1) && |rrn2| == 12 && AllDigits(rrn2)
    ensures var n := if |left| <= 12 then 12 - |left| else 0;
            RStrip((left + rrn1)[..12]) == RStrip((left + rrn2)[..12]) <==> rrn1[..n] == rrn2[..n]
  {
    hide RStrip;
    var n := if |left| <= 12 then 12 - |left| else 0;
    if n > 0 {
      assert (left + rrn1)[..12] == left + rrn1[..n] && (left + rrn2)[..12] == left + rrn2[..n];
      assert IsDigit(rrn1[n - 1]) && IsDigit(rrn2[n - 1]);
      NothingStripped(left + rrn1[..n]);
      NothingStripped(left + rrn2[..n]);
      assert (left + rrn1[..n])[|left|..] == rrn1[..n] && (left + rrn2[..n])[|left|..] == rrn2[..n];
    } else {
      assert (left + rrn1)[..12] == left[..12] == (left + rrn2)[..12];
    }
  }

  // ----- which entry modes keep RRNs apart

  function WithRrn(r: Request, rrn: string): Request {
    r.(rrn := rrn)
  }

  lemma AnyRrn(r: Request, rrn: string)
    requires IsPurchase(r) && IsRrn(rrn)
    ensures IsPurchase(WithRrn(r, rrn))
  {
    hide FitsDigits;
  }

  function AnotherDigit(c: char): (d: char)
    ensures IsDigit(d) && d != c
  {
    if c == '0' then '1' else '0'
  }

  /** Requests that differ in nothing but the RRN are kept apart. */
  ghost predicate KeptApart(r: Request, draw: nat) {
    forall rrn | IsRrn(rrn) && rrn != r.rrn ::
      RrnRead(RequestMessage(WithRrn(r, rrn), draw)) != RrnRead(RequestMessage(r, draw))
  }

  /**
    An entry mode that is built keeps RRNs apart exactly when it takes the two bytes of DE 22, no more and no less: with
    more the last digits are lost, with fewer the first.
   */
  lemma KeptApartExact(r: Request, draw: nat)
    requires IsPurchase(r) && ModeBytes(r.entryMode).Some?
    ensures KeptApart(r, draw) <==> IsAligned(r.entryMode)
  {
    hide Transmit, RequestMessage, Sound, Legible, RrnText, IsPurchase, ModeBytes, RrnRead, IsRrn;
    if IsAligned(r.entryMode) {
      forall rrn | IsRrn(rrn) && rrn != r.rrn
        ensures RrnRead(RequestMessage(WithRrn(r, rrn), draw)) != RrnRead(RequestMessage(r, draw))
      {
        AnyRrn(r, rrn);
        ReadAs(WithRrn(r, rrn), draw);
        ReadAs(r, draw);
        AlignedRrn(WithRrn(r, rrn));
        AlignedRrn(r);
      }
    } else {
      var rrn := Confusable(r);
      AnyRrn(r, rrn);
      ReadAs(WithRrn(r, rrn), draw);
      ReadAs(r, draw);
    }
  }

  /** An RRN that reads like the purchase's own: it differs in a digit that is not read. */
  lemma Confusable(r: Request) returns (rrn: string)
    requires IsPurchase(r) && ModeBytes(r.entryMode).Some? && !IsAligned(r.entryMode)
    ensures IsRrn(rrn) && rrn != r.rrn && IsPurchase(WithRrn(r, rrn)) && RrnText(WithRrn(r, rrn)) == RrnText(r)
  {
    hide Sound, RStrip, ModeBytes, RrnText;
    if |ModeBytes(r.entryMode).value| > 2 {
      rrn := r.rrn[..11] + [AnotherDigit(r.rrn[11])];
      AnyRrn(r, rrn);
      ShiftedIsRead(r);
      ShiftedIsRead(WithRrn(r, rrn));
      LastDigitUnread(Overhang(r.entryMode), r.rrn, rrn);
    } else {
      rrn := [AnotherDigit(r.rrn[0])] + r.rrn[1..];
      AnyRrn(r, rrn);
      FirstDigitUnread(r, rrn);
    }
  }

  lemma LastDigitUnread(left: string, rrn1: string, rrn2: string)
    requires |left| > 0 && |rrn1| == |rrn2| == 12 && rrn1[..11] == rrn2[..11]
    ensures (left + rrn1)[..12] == (left + rrn2)[..12]
  {
    forall i | 0 <= i < 12
      ensures (left + rrn1)[i] == (left + rrn2)[i]
    {
      if i >= |left| {
        assert rrn1[i - |left|] == rrn1[..11][i - |left|];
      }
    }
  }

  lemma FirstDigitUnread(r: Request, rrn: string)
    requires IsPurchase(r) && IsRrn(rrn) && IsPurchase(WithRrn(r, rrn)) && rrn[1..] == r.rrn[1..]
    requires ModeBytes(r.entryMode).Some? && |ModeBytes(r.entryMode).value| < 2
    ensures RrnText(WithRrn(r, rrn)) == RrnText(r)
  {
    hide Sound, RStrip, ModeBytes;
    WireLength(r);
    WireLength(WithRrn(r, rrn));
    var a, b, n := Wire(r), Wire(WithRrn(r, rrn)), |ModeBytes(r.entryMode).value|;
    assert CurrencyBytes(WithRrn(r, rrn)) == CurrencyBytes(r);
    forall i | 2 <= i < 14
      ensures a[i] == b[i]
    {
      if i < n + 12 {
        assert r.rrn[i - n] == r.rrn[1..][i - n - 1] && rrn[i - n] == rrn[1..][i - n - 1];
      }
    }
    assert a[2..14] == b[2..14];
  }

  /** With an entry mode of twenty-seven hex digits or more all RRNs are one. */
  lemma AnyTwoAreOne(r: Request, rrn: string, d1: nat, d2: nat)
    requires IsPurchase(r) && AllHex(r.entryMode) && |r.entryMode| >= 27 && IsRrn(rrn)
    ensures RrnRead(RequestMessage(r, d1)).Some?
    ensures RrnRead(RequestMessage(WithRrn(r, rrn), d2)) == RrnRead(RequestMessage(r, d1))
  {
    hide Transmit, RequestMessage, Sound, Legible, RrnRead, ModeBytes;
    DigitsBuilt(r.entryMode);
    AnyRrn(r, rrn);
    SameRrnExact(r, WithRrn(r, rrn), d1, d2);
  }

  // ----- entry modes on which it goes wrong

  lemma SixDigits(s: string)
    requires |s| == 6 && AllUpperHex(s)
    ensures Bcd.FromHex(s) == Some([
              16 * HexVal(s[0]) + HexVal(s[1]), 16 * HexVal(s[2]) + HexVal(s[3]), 16 * HexVal(s[4]) + HexVal(s[5])])
  {
    hide Bcd.FromHex;
    assert s[4..][2..] == "" && s[2..][2..] == s[4..];
    var a, b, c := 16 * HexVal(s[0]) + HexVal(s[1]), 16 * HexVal(s[2]) + HexVal(s[3]), 16 * HexVal(s[4]) + HexVal(s[5]);
    assert [a] + ([b] + ([c] + [])) == [a, b, c];
    NoDigits();
    TwoDigits(s[4..]);
    TwoDigits(s[2..]);
    TwoDigits(s);
  }

  lemma TwoDigits(s: string)
    requires |s| >= 2 && IsUpperHex(s[0]) && IsUpperHex(s[1]) && Bcd.FromHex(s[2..]).Some?
    ensures Bcd.FromHex(s) == Some([16 * HexVal(s[0]) + HexVal(s[1])] + Bcd.FromHex(s[2..]).value)
  {
  }

  lemma NoDigits()
    ensures Bcd.FromHex("") == Some([])
  {
  }

  /** "05123" and "00003F" leave the same question mark over. */
  lemma QuestionMarks()
    ensures Fills("05123") && Overhang("05123") == "?"
    ensures Fills("00003F") && Overhang("00003F") == "?"
  {
    hide Bcd.FromHex;
    SixDigits("05123F");
    SixDigits("00003F");
    assert DecodeLatin1([0x3F]) == "?";
    assert "05123" + "F" == "05123F";
  }

  /** Under either entry mode RRNs that share their first eleven digits are one, whatever the last. */
  lemma DistinctRrnsAreNotEnough(r1: Request, r2: Request, d1: nat, d2: nat)
    requires IsPurchase(r1) && IsPurchase(r2)
    requires r1.entryMode == "05123" && (r2.entryMode == "05123" || r2.entryMode == "00003F")
    requires r1.rrn[..11] == r2.rrn[..11]
    ensures RrnRead(RequestMessage(r1, d1)) == RrnRead(RequestMessage(r2, d2)) == Some("?" + r1.rrn[..11])
  {
    hide Transmit, RequestMessage, Sound, Legible, RrnRead, ModeBytes, Overhang, Fills, RrnText, RStrip;
    QuestionMarks();
    FillsIs(r1.entryMode);
    SameRrnExact(r1, r2, d1, d2);
    ReadAs(r1, d1);
    ShiftedIsRead(r1);
    assert ("?" + r1.rrn)[..12] == "?" + r1.rrn[..11];
    assert IsDigit(r1.rrn[10]);
    NothingStripped(Shifted(r1));
  }

  lemma FillsIs(entryMode: string)
    requires Fills(entryMode)
    ensures ModeBytes(entryMode).Some? && |ModeBytes(entryMode).value| >= 2
  {
  }

  // ----- what comes of it

  /** The switch approves under the RRN it has read, and the client takes that for its own. */
  lemma ConfirmedAsRead(r: Request, draw: nat)
    requires IsPurchase(r) && ModeBytes(r.entryMode).Some?
    ensures Transmit(RequestMessage(r, draw)).Some?
    ensures var answer := Response(Transmit(RequestMessage(r, draw)).value, "00");
            && answer.Some? && Transmit(answer.value) == Some(answer.value)
            && var auth := Interpret(Correlation.Responded(Some(Correlation.Reply(draw, answer.value))), r.rrn);
               auth.Some? && auth.value.outcome.Approved? && auth.value.rrn == RrnText(r)
  {
    hide IsPurchase, ModeBytes, AuthorizeFields, Correlation.Stan, Transmit, RrnText, RequestMessage, Legible, Response,
         ReadsWhole;
    PurchaseRead(r, draw);
    var m := RequestMessage(r, draw);
    Financial(r, draw);
    LegibleType(m);
    Answered(Transmit(m).value);
    AnswerArrives(m, "00");
    ResponseElements(Transmit(m).value, "00");
  }

  /** The switch never keeps silent about a request that carries no DE 48. */
  lemma Answered(seen: Message)
    requires seen.mti == "0200" && 48 !in seen.fields
    ensures Response(seen, "00").Some?
  {
  }

  /** Of two purchases approved under one RRN only the first is posted, and the second is told it already was. */
  lemma SecondNotPosted(
      t: Ledger.Tables, rrn: string, debit1: string, debit2: string, credit: string, cents1: int, cents2: int,
      now1: int, now2: int)
    ensures var (u, first) := Ledger.Record(t, rrn, debit1, credit, cents1, now1);
            first.Recorded? ==>
              Ledger.Record(u, rrn, debit2, credit, cents2, now2) == (u, Ledger.AlreadyRecorded)
  {
  }
}
