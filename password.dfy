/** `generatePassword`: base64 of `length` random bytes, cut to `length` characters. */
module Password {

  type Byte = b: int | 0 <= b < 256

  /** `generatePassword(length = 32)` */
  const DefaultLength: nat := 32

  /** The alphabet of Node's `Buffer.toString('base64')` (RFC 4648, section 4);
      its last two digits are '+' and '/', not the URL-safe '-' and '_'. */
  const StandardAlphabet: string := "ABCDEFGHIJKLMNOPQRSTUVWXYZabcdefghijklmnopqrstuvwxyz0123456789+/"

  function Digit(v: nat): char
    requires v < 64
  {
    StandardAlphabet[v]
  }

  /** The first sextet of a group: the high six bits of b0. */
  function Sextet1(b0: Byte): (v: nat)
    ensures v < 64
  {
    b0 / 4
  }

  /** The second sextet of a group: the low two bits of b0, the high four of b1. */
  function Sextet2(b0: Byte, b1: Byte): (v: nat)
    ensures v < 64
  {
    b0 % 4 * 16 + b1 / 16
  }

  /** The third sextet of a group: the low four bits of b1, the high two of b2. */
  function Sextet3(b1: Byte, b2: Byte): (v: nat)
    ensures v < 64
  {
    b1 % 16 * 4 + b2 / 64
  }

  /** The fourth sextet of a group: the low six bits of b2. */
  function Sextet4(b2: Byte): (v: nat)
    ensures v < 64
  {
    b2 % 64
  }

  /** Base64 with '=' padding, three bytes to four characters. */
  function Base64(bytes: seq<Byte>): (r: string)
    ensures |r| == 4 * ((|bytes| + 2) / 3)
    decreases |bytes|
  {
    if |bytes| == 0 then ""
    else if |bytes| == 1 then
      [Digit(Sextet1(bytes[0])), Digit(Sextet2(bytes[0], 0)), '=', '=']
    else if |bytes| == 2 then
      [Digit(Sextet1(bytes[0])), Digit(Sextet2(bytes[0], bytes[1])), Digit(Sextet3(bytes[1], 0)), '=']
    else
      var rest := Base64(bytes[3..]);
      assert (|bytes| + 2) / 3 == (|bytes| - 1) / 3 + 1;
      [Digit(Sextet1(bytes[0])), Digit(Sextet2(bytes[0], bytes[1])), Digit(Sextet3(bytes[1], bytes[2])), Digit(Sextet4(bytes[2]))]
      + rest
  }

  /** How many characters of the encoding of n bytes are digits: four per full
      group, then two for one leftover byte or three for two. */
  function DigitCount(n: nat): (d: nat)
    ensures n <= d <= 4 * ((n + 2) / 3)
  {
    4 * (n / 3) + if n % 3 == 0 then 0 else n % 3 + 1
  }

  /** Every character before the padding is a digit of the alphabet, and every
      character after it is '='. */
  lemma {:induction false} Base64PrefixIsDigits(bytes: seq<Byte>, i: nat)
    requires i < |Base64(bytes)|
    ensures i < DigitCount(|bytes|) ==> Base64(bytes)[i] in StandardAlphabet
    ensures i >= DigitCount(|bytes|) ==> Base64(bytes)[i] == '='
    decreases |bytes|
  {
    if |bytes| >= 3 && i >= 4 {
      var n := |bytes|;
      assert n / 3 == (n - 3) / 3 + 1 && n % 3 == (n - 3) % 3;
      assert DigitCount(n) == DigitCount(n - 3) + 4;
      Base64PrefixIsDigits(bytes[3..], i - 4);
    }
  }

  /** The first `length` characters of the base64 text of `length` random bytes; the random bytes
      are the parameter `random`. */
  function GeneratePassword(length: nat, random: seq<Byte>): (r: string)
    requires |random| == length
    ensures |r| == length
    ensures forall i :: 0 <= i < |r| ==> r[i] in StandardAlphabet
  {
    var encoded := Base64(random);
    assert forall i :: 0 <= i < length ==> encoded[i] in StandardAlphabet by {
      forall i | 0 <= i < length ensures encoded[i] in StandardAlphabet {
        Base64PrefixIsDigits(random, i);
      }
    }
    encoded[..length]
  }

  /** A password can hold '+' (and '/'), so it is not URL-safe. */
  lemma PasswordNotUrlSafe()
    ensures GeneratePassword(1, [248]) == "+"
    ensures GeneratePassword(1, [252]) == "/"
  {
  }
}
