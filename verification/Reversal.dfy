/** Reversal messages (correlation/reversal.py). */
module Reversal {
  import opened Wrappers
  import opened Text
  import opened FieldCatalogue
  import opened Codec
  import opened HostSwitch

  function BuildOriginalDataElements(originalMti: string, originalStan: string): string {
    originalMti + originalStan + Repeat('0', 10) + Repeat('0', 11) + Repeat('0', 11)
  }

  function BuildReversal(reversalStan: string, originalMti: string, originalStan: string): Message {
    Message("0400", map[11 := reversalStan, 90 := BuildOriginalDataElements(originalMti, originalStan)])
  }

  /** The switch finds the original MTI and STAN at the front of DE 90, and zeros for what the client does not know. */
  predicate Reverses(seen: Message, originalMti: string, originalStan: string) {
    && seen.mti == "0400" && 90 in seen.fields && |seen.fields[90]| == 42
    && seen.fields[90][..4] == originalMti && seen.fields[90][4..10] == originalStan
    && forall i | 10 <= i < 42 :: seen.fields[90][i] == '0'
  }

  lemma ReversalCarried(reversalStan: string, originalMti: string, originalStan: string)
    requires |originalMti| == 4 && AllUpperHex(originalMti)
    requires |originalStan| == 6 && AllDigits(originalStan)
    requires |reversalStan| == 6 && AllDigits(reversalStan)
    ensures var m := BuildReversal(reversalStan, originalMti, originalStan);
            && Carried(m) && Canonicalised(m) == m
            && Transmit(m) == Some(m) && Reverses(m, originalMti, originalStan)
  {
    hide FIELD_SPECS, Transmit;
    PathElements();
    var m := BuildReversal(reversalStan, originalMti, originalStan);
    assert IsExact(Digits(6), reversalStan) && IsExact(Digits(42), m.fields[90]);
    ExactIsCanonical(Digits(6), reversalStan);
    ExactIsCanonical(Digits(42), m.fields[90]);
    TransmitCarried(m);
  }
}
