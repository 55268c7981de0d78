/** JavaScript strings as sequences of UTF-16 code units, with the few built-in operations
    the modelled code relies on. */
module JsText {
  newtype Unit = u: int | 0 <= u < 0x1_0000

  type Text = seq<Unit>

  /** A Dafny ASCII literal as JavaScript text. */
  function Lit(s: string): (t: Text)
    requires forall i :: 0 <= i < |s| ==> s[i] < '\U{0080}'
    ensures |t| == |s|
    ensures forall i :: 0 <= i < |s| ==> t[i] == s[i] as int as Unit
  {
    seq(|s|, i requires 0 <= i < |s| => s[i] as int as Unit)
  }

  /** The class `\s`, which is also what `trim` removes: WhiteSpace and LineTerminator. */
  predicate IsSpace(u: Unit) {
    0x09 <= u <= 0x0d || u == 0x20 || u == 0xa0 || u == 0x1680 || 0x2000 <= u <= 0x200a ||
    u == 0x2028 || u == 0x2029 || u == 0x202f || u == 0x205f || u == 0x3000 || u == 0xfeff
  }

  function TrimStart(t: Text): Text {
    if t != [] && IsSpace(t[0]) then TrimStart(t[1..]) else t
  }

  function TrimEnd(t: Text): Text {
    if t != [] && IsSpace(t[|t| - 1]) then TrimEnd(t[..|t| - 1]) else t
  }

  function Trim(t: Text): Text {
    TrimEnd(TrimStart(t))
  }

  /** Whether a surrogate pair, one code point in two units, starts at index `i`. */
  predicate PairAt(t: Text, i: nat) {
    i + 1 < |t| && 0xd800 <= t[i] < 0xdc00 && 0xdc00 <= t[i + 1] < 0xe000
  }

  /** `TextEncoder().encode(t).length`; a lone surrogate encodes as U+FFFD, three bytes. */
  function Utf8Length(t: Text): nat {
    if t == [] then 0
    else if PairAt(t, 0) then 4 + Utf8Length(t[2..])
    else (if t[0] < 0x80 then 1 else if t[0] < 0x800 then 2 else 3) + Utf8Length(t[1..])
  }

  /** `trim` keeps a text whose two ends are not white space. */
  lemma TrimKeeps(t: Text)
    ensures t == [] || (!IsSpace(t[0]) && !IsSpace(t[|t| - 1])) ==> Trim(t) == t
  {
  }

  predicate AllSpace(t: Text) {
    forall i :: 0 <= i < |t| ==> IsSpace(t[i])
  }

  predicate NoOuterSpace(t: Text) {
    t == [] || (!IsSpace(t[0]) && !IsSpace(t[|t| - 1]))
  }

  lemma {:induction false} TrimStartSkips(front: Text, rest: Text)
    requires AllSpace(front) && (rest == [] || !IsSpace(rest[0]))
    ensures TrimStart(front + rest) == rest
    decreases |front|
  {
    if front == [] {
      assert front + rest == rest;
    } else {
      assert (front + rest)[1..] == front[1..] + rest;
      TrimStartSkips(front[1..], rest);
    }
  }

  lemma {:induction false} TrimEndSkips(rest: Text, back: Text)
    requires AllSpace(back) && (rest == [] || !IsSpace(rest[|rest| - 1]))
    ensures TrimEnd(rest + back) == rest
    decreases |back|
  {
    var whole := rest + back;
    if back == [] {
      assert whole == rest;
    } else {
      assert whole[|whole| - 1] == back[|back| - 1];
      assert whole[..|whole| - 1] == rest + back[..|back| - 1];
      TrimEndSkips(rest, back[..|back| - 1]);
    }
  }

  /** `trim` takes exactly the white space off both ends. */
  lemma TrimMeans(front: Text, middle: Text, back: Text)
    requires AllSpace(front) && NoOuterSpace(middle) && AllSpace(back)
    ensures Trim(front + middle + back) == middle
  {
    if middle == [] {
      var all := front + middle + back;
      assert all + [] == all;
      TrimStartSkips(all, []);
    } else {
      assert front + middle + back == front + (middle + back);
      TrimStartSkips(front, middle + back);
      TrimEndSkips(middle, back);
    }
  }

  predicate AllDigits(s: string) {
    forall i :: 0 <= i < |s| ==> '0' <= s[i] <= '9'
  }

  /** `String(n)` for a natural number. */
  function Decimal(n: nat): (s: string)
    ensures |s| > 0
    ensures AllDigits(s)
    ensures n > 0 ==> s[0] != '0'
  {
    var digit := ('0' as int + n % 10) as char;
    if n < 10 then [digit] else Decimal(n / 10) + [digit]
  }

  /** The number a digit string denotes, the inverse of `Decimal`. */
  function Number(s: string): (n: nat)
    requires AllDigits(s)
  {
    if s == [] then 0
    else 10 * Number(s[..|s| - 1]) + (s[|s| - 1] as int - '0' as int)
  }

  lemma {:induction false} NumberOfDecimal(n: nat)
    ensures Number(Decimal(n)) == n
  {
    var s := Decimal(n);
    if n >= 10 {
      assert s[..|s| - 1] == Decimal(n / 10);
      NumberOfDecimal(n / 10);
    } else {
      assert s[..0] == [];
    }
  }

  lemma {:induction false} NumberIsLarge(s: string)
    requires AllDigits(s) && s != "" && s[0] != '0'
    ensures Number(s) > 0
    decreases |s|
  {
    if |s| > 1 {
      NumberIsLarge(s[..|s| - 1]);
    } else {
      assert s[..0] == [];
    }
  }

  /** A digit string without leading zeros is how its number is printed. */
  lemma {:induction false} DecimalOfNumber(s: string)
    requires AllDigits(s) && s != "" && (s[0] != '0' || |s| == 1)
    ensures Decimal(Number(s)) == s
    decreases |s|
  {
    var front, digit := s[..|s| - 1], s[|s| - 1] as int - '0' as int;
    assert s == front + [s[|s| - 1]];
    if |s| == 1 {
      assert front == [];
    } else {
      NumberIsLarge(front);
      DecimalOfNumber(front);
      LastDigit(Number(front), digit);
    }
  }

  lemma LastDigit(n: nat, digit: nat)
    requires digit < 10
    ensures (10 * n + digit) / 10 == n && (10 * n + digit) % 10 == digit
  {
  }
}
