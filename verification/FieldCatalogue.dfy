/** The element catalogue (iso8583/parser.py:46-193): how each data element is laid out. */
module FieldCatalogue {
  import opened Wrappers
  import opened Bitmap

  datatype LengthType = FIXED | LLVAR | LLLVAR

  /** length: digits or characters, the maximum for LLVAR and LLLVAR. */
  datatype FieldSpec = FieldSpec(lengthType: LengthType, length: nat, numeric: bool, binary: bool)

  /** Any processor's catalogue; element 1 is the bitmap's own flag. */
  type Catalogue = t: map<Element, FieldSpec> | forall de | de in t :: 2 <= de <= 128

  function Digits(length: nat): FieldSpec {
    FieldSpec(FIXED, length, true, false)
  }

  function Chars(length: nat): FieldSpec {
    FieldSpec(FIXED, length, false, false)
  }

  function Octets(length: nat): FieldSpec {
    FieldSpec(FIXED, length, false, true)
  }

  function LlDigits(length: nat): FieldSpec {
    FieldSpec(LLVAR, length, true, false)
  }

  function LlChars(length: nat): FieldSpec {
    FieldSpec(LLVAR, length, false, false)
  }

  function LlOctets(length: nat): FieldSpec {
    FieldSpec(LLVAR, length, false, true)
  }

  function LllChars(length: nat): FieldSpec {
    FieldSpec(LLLVAR, length, false, false)
  }

  function LllOctets(length: nat): FieldSpec {
    FieldSpec(LLLVAR, length, false, true)
  }

  /** The entry for element de in ISO 8583:1987; 1 and 65 have none. */
  function SpecOf(de: int): Option<FieldSpec> {
    match de
    case 2 => Some(LlDigits(19))
    case 3 => Some(Digits(6))
    case 4 => Some(Digits(12))
    case 5 => Some(Digits(12))
    case 6 => Some(Digits(12))
    case 7 => Some(Digits(10))
    case 8 => Some(Digits(8))
    case 9 => Some(Digits(8))
    case 10 => Some(Digits(8))
    case 11 => Some(Digits(6))
    case 12 => Some(Digits(6))
    case 13 => Some(Digits(4))
    case 14 => Some(Digits(4))
    case 15 => Some(Digits(4))
    case 16 => Some(Digits(4))
    case 17 => Some(Digits(4))
    case 18 => Some(Digits(4))
    case 19 => Some(Digits(3))
    case 20 => Some(Digits(3))
    case 21 => Some(Digits(3))
    case 22 => Some(Digits(3))
    case 23 => Some(Digits(3))
    case 24 => Some(Digits(3))
    case 25 => Some(Digits(2))
    case 26 => Some(Digits(2))
    case 27 => Some(Digits(1))
    case 28 => Some(Chars(9))
    case 29 => Some(Chars(9))
    case 30 => Some(Chars(9))
    case 31 => Some(Chars(9))
    case 32 => Some(LlDigits(11))
    case 33 => Some(LlDigits(11))
    case 34 => Some(LlDigits(28))
    case 35 => Some(LlChars(37))
    case 36 => Some(LllChars(104))
    case 37 => Some(Chars(12))
    case 38 => Some(Chars(6))
    case 39 => Some(Chars(2))
    case 40 => Some(Chars(3))
    case 41 => Some(Chars(8))
    case 42 => Some(Chars(15))
    case 43 => Some(Chars(40))
    case 44 => Some(LlOctets(25))
    case 45 => Some(LlChars(76))
    case 46 => Some(LllChars(999))
    case 47 => Some(LllChars(999))
    case 48 => Some(LllChars(999))
    case 49 => Some(Digits(3))
    case 50 => Some(Digits(3))
    case 51 => Some(Digits(3))
    case 52 => Some(Octets(8))
    case 53 => Some(Digits(16))
    case 54 => Some(LllChars(120))
    case 55 => Some(LllChars(255))
    case 56 => Some(LllOctets(999))
    case 57 => Some(LllChars(999))
    case 58 => Some(LllChars(999))
    case 59 => Some(LllChars(999))
    case 60 => Some(LllChars(999))
    case 61 => Some(LllChars(999))
    case 62 => Some(LllChars(999))
    case 63 => Some(LllChars(999))
    case 64 => Some(Octets(8))
    case 66 => Some(Digits(1))
    case 67 => Some(Digits(2))
    case 68 => Some(Digits(3))
    case 69 => Some(Digits(3))
    case 70 => Some(Digits(3))
    case 71 => Some(Digits(4))
    case 72 => Some(Digits(4))
    case 73 => Some(Digits(6))
    case 74 => Some(Digits(10))
    case 75 => Some(Digits(10))
    case 76 => Some(Digits(10))
    case 77 => Some(Digits(10))
    case 78 => Some(Digits(10))
    case 79 => Some(Digits(10))
    case 80 => Some(Digits(10))
    case 81 => Some(Digits(10))
    case 82 => Some(Digits(12))
    case 83 => Some(Digits(12))
    case 84 => Some(Digits(12))
    case 85 => Some(Digits(12))
    case 86 => Some(Digits(15))
    case 87 => Some(Digits(15))
    case 88 => Some(Digits(15))
    case 89 => Some(Digits(15))
    case 90 => Some(Digits(42))
    case 91 => Some(Chars(1))
    case 92 => Some(Digits(2))
    case 93 => Some(Digits(5))
    case 94 => Some(Chars(7))
    case 95 => Some(Chars(42))
    case 96 => Some(Octets(8))
    case 97 => Some(Chars(17))
    case 98 => Some(Chars(25))
    case 99 => Some(LlDigits(11))
    case 100 => Some(LlDigits(11))
    case 101 => Some(LlChars(17))
    case 102 => Some(LlChars(28))
    case 103 => Some(LlChars(28))
    case 104 => Some(LllChars(100))
    case 105 => Some(LllChars(999))
    case 106 => Some(LllChars(999))
    case 107 => Some(LllChars(999))
    case 108 => Some(LllChars(999))
    case 109 => Some(LllChars(999))
    case 110 => Some(LllChars(999))
    case 111 => Some(LllChars(999))
    case 112 => Some(LllChars(999))
    case 113 => Some(LllChars(999))
    case 114 => Some(LllChars(999))
    case 115 => Some(LllChars(999))
    case 116 => Some(LllChars(999))
    case 117 => Some(LllChars(999))
    case 118 => Some(LllChars(999))
    case 119 => Some(LllChars(999))
    case 120 => Some(LllOctets(999))
    case 121 => Some(LllChars(999))
    case 122 => Some(LllChars(999))
    case 123 => Some(LllChars(999))
    case 124 => Some(LllChars(999))
    case 125 => Some(LllChars(999))
    case 126 => Some(LllChars(999))
    case 127 => Some(LllChars(999))
    case 128 => Some(Octets(8))
    case _ => None
  }

  const FIELD_SPECS: Catalogue := map de: Element | 2 <= de <= 128 && SpecOf(de).Some? :: SpecOf(de).value
}
