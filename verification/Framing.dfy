/** Length-prefixed framing: each part is its length as eight little-endian bytes, then its bytes.
    The protocol fingerprint and the runtime build identity both hash such a stream. */
module Framing {
  newtype Octet = b: int | 0 <= b < 256

  type Bytes = seq<Octet>

  const U64_BYTES: nat := 8
  const U64_LIMIT: nat := 0x1_0000_0000_0000_0000

  datatype Unframed = Parts(parts: seq<Bytes>) | Malformed

  /** The low `width` bytes of `n`, least significant first. */
  function LittleEndian(n: nat, width: nat): (s: Bytes)
    ensures |s| == width
  {
    if width == 0 then [] else [(n % 256) as Octet] + LittleEndian(n / 256, width - 1)
  }

  function Unsigned(s: Bytes): nat {
    if s == [] then 0 else s[0] as int + 256 * Unsigned(s[1..])
  }

  function Pow256(width: nat): (p: nat)
    ensures p > 0
  {
    if width == 0 then 1 else 256 * Pow256(width - 1)
  }

  lemma {:induction false} UnsignedOfLittleEndian(n: nat, width: nat)
    requires n < Pow256(width)
    ensures Unsigned(LittleEndian(n, width)) == n
  {
    if width > 0 {
      UnsignedOfLittleEndian(n / 256, width - 1);
      assert LittleEndian(n, width)[1..] == LittleEndian(n / 256, width - 1);
    }
  }

  function Frame(parts: seq<Bytes>): Bytes {
    if parts == [] then [] else LittleEndian(|parts[0]|, U64_BYTES) + parts[0] + Frame(parts[1..])
  }

  lemma {:induction false} FrameAppend(a: seq<Bytes>, b: seq<Bytes>)
    ensures Frame(a + b) == Frame(a) + Frame(b)
  {
    if a == [] {
      assert a + b == b;
    } else {
      assert (a + b)[1..] == a[1..] + b;
      FrameAppend(a[1..], b);
    }
  }

  /** A reader that knows nothing but the framing. */
  function Unframe(stream: Bytes): Unframed {
    if stream == [] then Parts([])
    else if |stream| < 8 then Malformed
    else
      var length := Unsigned(stream[..8]);
      if |stream| - 8 < length then Malformed
      else match Unframe(stream[8 + length..])
           case Malformed => Malformed
           case Parts(rest) => Parts([stream[8..8 + length]] + rest)
  }

  /** Lengths a 64-bit machine can hold. */
  predicate Representable(parts: seq<Bytes>) {
    forall i :: 0 <= i < |parts| ==> |parts[i]| < U64_LIMIT
  }

  lemma U64IsEightBytes()
    ensures Pow256(U64_BYTES) == U64_LIMIT
  {
    assert Pow256(4) == 0x1_0000_0000;
    assert Pow256(6) == 0x1_0000_0000_0000;
  }

  /** The stream determines the parts. */
  lemma {:induction false} UnframeFrame(parts: seq<Bytes>)
    requires Representable(parts)
    ensures Unframe(Frame(parts)) == Parts(parts)
  {
    if parts != [] {
      U64IsEightBytes();
      UnsignedOfLittleEndian(|parts[0]|, U64_BYTES);
      Slices(LittleEndian(|parts[0]|, U64_BYTES), parts[0], Frame(parts[1..]));
      UnframeFrame(parts[1..]);
      assert [parts[0]] + parts[1..] == parts;
    }
  }

  lemma Slices(head: Bytes, part: Bytes, rest: Bytes)
    requires |head| == 8
    ensures var s := head + part + rest;
            s[..8] == head && s[8..8 + |part|] == part && s[8 + |part|..] == rest
  {
  }

  lemma FrameInjective(a: seq<Bytes>, b: seq<Bytes>)
    requires Representable(a) && Representable(b) && Frame(a) == Frame(b)
    ensures a == b
  {
    UnframeFrame(a);
    UnframeFrame(b);
  }
}
