/** The mock HSM (security/mock_hsm.py): one key per transaction, derived from a serial number. */
module MockHsm {
  import opened Wrappers
  import opened Text
  import opened Bytes
  import PinBlock

  /** hmac-sha256 keyed with the HSM's base key: any function with 32-byte results. */
  type Mac = string -> seq<byte>

  ghost predicate IsMac(mac: Mac) {
    forall message :: |mac(message)| == 32
  }

  function DeriveTransactionKey(mac: Mac, ksn: string): seq<byte> {
    Slice(mac(ksn), 0, 16)
  }

  function XorByte(a: byte, b: byte): byte {
    ByteBound(a, b);
    Xor(a, b)
  }

  lemma ByteBound(a: byte, b: byte)
    ensures Xor(a, b) < 256
  {
    assert Pow(2, 4) == 16 && Pow(2, 8) == 256;
    XorBound(a, b, 8);
  }

  function XorStream(data: seq<byte>, key: seq<byte>): (r: seq<byte>)
    requires key != []
    ensures |r| == |data|
  {
    seq(|data|, i requires 0 <= i < |data| => XorByte(data[i], key[i % |key|]))
  }

  lemma XorStreamInverse(data: seq<byte>, key: seq<byte>)
    requires key != []
    ensures XorStream(XorStream(data, key), key) == data
  {
    forall i | 0 <= i < |data|
      ensures XorStream(XorStream(data, key), key)[i] == data[i]
    {
      XorInverse(data[i], key[i % |key|]);
    }
  }

  function DecryptPinBlock(mac: Mac, ksn: string, encrypted: seq<byte>): seq<byte>
    requires IsMac(mac)
  {
    XorStream(encrypted, DeriveTransactionKey(mac, ksn))
  }

  function EncryptUnder(mac: Mac, ksn: string, block: seq<byte>): seq<byte>
    requires IsMac(mac)
  {
    XorStream(block, DeriveTransactionKey(mac, ksn))
  }

  /** What travels is the block with the first sixteen bytes of the serial number's HMAC laid over it. */
  lemma EncryptedExact(mac: Mac, ksn: string, block: seq<byte>, i: nat)
    requires IsMac(mac) && i < |block| <= 16
    ensures |EncryptUnder(mac, ksn, block)| == |block|
    ensures EncryptUnder(mac, ksn, block)[i] == Xor(block[i], mac(ksn)[i])
    ensures DecryptPinBlock(mac, ksn, EncryptUnder(mac, ksn, block)) == block
  {
    XorStreamInverse(block, DeriveTransactionKey(mac, ksn));
  }

  function KsnText(n: nat): string {
    Padded(n, Decimal, 10)
  }

  /**
    What is recovered from an encrypted block under its serial number is the PIN that was typed, exactly when that is
    at most 14 upper-case hex digits. Digit PINs and card numbers always give a block.
   */
  lemma DecryptedPin(mac: Mac, ksn: string, pin: string, pan: string)
    requires IsMac(mac)
    ensures |pin| <= 14 && AllDigits(pin) && AllDigits(pan) ==> PinBlock.BuildIso0PinBlock(pin, pan).Some?
    ensures PinBlock.BuildIso0PinBlock(pin, pan).Some? ==>
              var encrypted := EncryptUnder(mac, ksn, PinBlock.BuildIso0PinBlock(pin, pan).value);
              && |encrypted| == 8
              && (PinBlock.RecoverPin(DecryptPinBlock(mac, ksn, encrypted), pan) == Some(pin) <==>
                    |pin| <= 14 && AllUpperHex(pin))
  {
    PinBlock.PanFieldValue(pan);
    PinBlock.RoundTripExact(pin, pan);
    if PinBlock.BuildIso0PinBlock(pin, pan).Some? {
      XorStreamInverse(PinBlock.BuildIso0PinBlock(pin, pan).value, DeriveTransactionKey(mac, ksn));
    }
  }

  class Hsm {
    const mac: Mac
    var ksnCounter: nat
    ghost var issued: seq<string>

    /** Every serial number handed out so far is the formatted counter, so none was handed out twice. */
    ghost predicate Valid()
      reads this
    {
      && IsMac(mac)
      && |issued| == ksnCounter
      && forall i | 0 <= i < |issued| :: issued[i] == KsnText(i + 1)
    }

    constructor (mac: Mac)
      requires IsMac(mac)
      ensures Valid() && issued == [] && this.mac == mac
    {
      this.mac, ksnCounter, issued := mac, 0, [];
    }

    method NextKsn() returns (ksn: string)
      requires Valid()
      modifies this
      ensures Valid() && issued == old(issued) + [ksn]
      ensures ksn !in old(issued)
      ensures ksnCounter == old(ksnCounter) + 1 && ksn == KsnText(ksnCounter)
    {
      ksnCounter := ksnCounter + 1;
      ksn := KsnText(ksnCounter);
      NotIssued(issued, ksnCounter);
      issued := issued + [ksn];
    }

    /** None when the PIN or card number is not hexadecimal; the serial number is spent all the same. */
    method EncryptPinBlock(pin: string, pan: string) returns (r: Option<(string, seq<byte>)>)
      requires Valid()
      modifies this
      ensures Valid() && |issued| == |old(issued)| + 1 && issued[..|old(issued)|] == old(issued)
      ensures r.Some? <==> PinBlock.BuildIso0PinBlock(pin, pan).Some?
      ensures r.Some? ==>
                var (ksn, encrypted) := r.value;
                && ksn == issued[|issued| - 1] && ksn !in old(issued)
                && encrypted == EncryptUnder(mac, ksn, PinBlock.BuildIso0PinBlock(pin, pan).value)
                && DecryptPinBlock(mac, ksn, encrypted) == PinBlock.BuildIso0PinBlock(pin, pan).value
    {
      var ksn := NextKsn();
      var key := DeriveTransactionKey(mac, ksn);
      var plaintext := PinBlock.BuildIso0PinBlock(pin, pan);
      if plaintext.None? {
        return None;
      }
      XorStreamInverse(plaintext.value, key);
      r := Some((ksn, XorStream(plaintext.value, key)));
    }
  }

  lemma NotIssued(issued: seq<string>, counter: nat)
    requires |issued| < counter
    requires forall i | 0 <= i < |issued| :: issued[i] == KsnText(i + 1)
    ensures KsnText(counter) !in issued
  {
    if KsnText(counter) in issued {
      var i :| 0 <= i < |issued| && issued[i] == KsnText(counter);
      PaddedInjective(i + 1, counter, Decimal, 10);
    }
  }

  /** Serial numbers are written with ten digits, or more when they have more. */
  lemma KsnExact(n: nat)
    ensures |KsnText(n)| >= 10 && ParseInt(KsnText(n)) == Some(n)
    ensures |KsnText(n)| == 10 <==> n < 10_000_000_000
  {
    hide Padded, Value;
    ValueOfPadded(n, Decimal, 10);
    PaddedDigits(n, 10);
    PaddedLength(n, Decimal, 10);
    assert Capacity(Decimal, 4) == 10_000;
    assert Capacity(Decimal, 7) == 10_000_000;
  }

  /** Two draws never give the same serial number. */
  lemma KsnDistinct(i: nat, j: nat)
    ensures KsnText(i) == KsnText(j) <==> i == j
  {
    if KsnText(i) == KsnText(j) {
      PaddedInjective(i, j, Decimal, 10);
    }
  }
}
