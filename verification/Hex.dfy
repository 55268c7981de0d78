/** Lower-case hexadecimal as `toString(16)` and `{:x}` print it, padded with zeros on the left. */
module Hex {
  const DIGITS := "0123456789abcdef"

  function DigitValue(c: char): (d: nat)
    ensures d < 16
  {
    if '0' <= c <= '9' then c as int - '0' as int
    else if 'a' <= c <= 'f' then c as int - 'a' as int + 10
    else 0
  }

  function ToHex(n: nat): (s: string)
    ensures |s| > 0
  {
    if n < 16 then [DIGITS[n]] else ToHex(n / 16) + [DIGITS[n % 16]]
  }

  function FromHex(s: string): nat {
    if s == [] then 0 else 16 * FromHex(s[..|s| - 1]) + DigitValue(s[|s| - 1])
  }

  /** Two digits denote a byte. */
  lemma TwoDigits(s: string)
    requires |s| == 2
    ensures FromHex(s) < 256
  {
    var first := s[..1];
    assert first[..0] == [];
    assert FromHex(first) == 16 * FromHex(first[..0]) + DigitValue(first[0]);
  }

  /** `toString(16).padStart(width, '0')`. */
  function Padded(n: nat, width: nat): (s: string) {
    var digits := ToHex(n);
    seq(if |digits| < width then width - |digits| else 0, _ => '0') + digits
  }

  function Pow16(width: nat): (p: nat)
    ensures p > 0
  {
    if width == 0 then 1 else 16 * Pow16(width - 1)
  }

  lemma {:induction false} FromToHex(n: nat)
    ensures FromHex(ToHex(n)) == n
  {
    if n >= 16 {
      assert ToHex(n)[..|ToHex(n)| - 1] == ToHex(n / 16);
      FromToHex(n / 16);
    } else {
      assert ToHex(n)[..0] == [];
    }
  }

  lemma {:induction false} ZerosInFront(s: string, zeros: nat)
    ensures FromHex(seq(zeros, _ => '0') + s) == FromHex(s)
    decreases zeros + |s|
  {
    var padded := seq(zeros, _ => '0') + s;
    if s != [] {
      assert padded[..|padded| - 1] == seq(zeros, _ => '0') + s[..|s| - 1];
      ZerosInFront(s[..|s| - 1], zeros);
    } else if zeros > 0 {
      assert padded[..|padded| - 1] == seq(zeros - 1, _ => '0') + [];
      ZerosInFront([], zeros - 1);
    }
  }

  /** A padded numeral reads back as its number. */
  lemma FromPadded(n: nat, width: nat)
    ensures FromHex(Padded(n, width)) == n
  {
    FromToHex(n);
    ZerosInFront(ToHex(n), if |ToHex(n)| < width then width - |ToHex(n)| else 0);
  }

  lemma {:induction false} ToHexWidth(n: nat, width: nat)
    requires n < Pow16(width) && width > 0
    ensures |ToHex(n)| <= width
  {
    if n >= 16 {
      assert Pow16(width) == 16 * Pow16(width - 1);
      assert width > 1;
      ToHexWidth(n / 16, width - 1);
    }
  }

  /** A number that fits has exactly the asked number of digits. */
  lemma PaddedWidth(n: nat, width: nat)
    requires n < Pow16(width) && width > 0
    ensures |Padded(n, width)| == width
  {
    ToHexWidth(n, width);
  }

  lemma {:induction false} ToHexDigits(n: nat)
    ensures forall i :: 0 <= i < |ToHex(n)| ==> ToHex(n)[i] in DIGITS
  {
    if n >= 16 {
      ToHexDigits(n / 16);
    }
  }

  lemma PaddedDigits(n: nat, width: nat)
    ensures forall i :: 0 <= i < |Padded(n, width)| ==> Padded(n, width)[i] in DIGITS
  {
    ToHexDigits(n);
    assert DIGITS[0] == '0';
  }
}
