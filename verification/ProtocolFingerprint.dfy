/** The protocol fingerprint and its freshness check (src/workspaces/hl-extension/build_support.rs):
    64-bit FNV-1a over the framed parts. */
module ProtocolFingerprint {
  import opened Framing
  import opened Utf8
  import Hex

  type U64 = h: int | 0 <= h < U64_LIMIT

  const OFFSET: U64 := 0xcbf2_9ce4_8422_2325
  const PRIME: nat := 0x0000_0100_0000_01b3

  function Pow2(bits: nat): (p: nat)
    ensures p > 0
  {
    if bits == 0 then 1 else 2 * Pow2(bits - 1)
  }

  /** Exclusive or of the low `bits` bits. */
  function Xor(a: nat, b: nat, bits: nat): (r: nat)
    ensures r < Pow2(bits)
    decreases bits
  {
    if bits == 0 then 0
    else (if a % 2 == b % 2 then 0 else 1) + 2 * Xor(a / 2, b / 2, bits - 1)
  }

  const WORD: nat := 64

  lemma Pow2Octet(bits: nat)
    ensures Pow2(bits + 8) == 256 * Pow2(bits)
  {
    assert Pow2(bits + 2) == 4 * Pow2(bits);
    assert Pow2(bits + 4) == 4 * Pow2(bits + 2);
    assert Pow2(bits + 6) == 4 * Pow2(bits + 4);
  }

  lemma WordIs64Bits()
    ensures Pow2(WORD) == U64_LIMIT
  {
    Pow2Octet(0);
    Pow2Octet(8);
    Pow2Octet(16);
    Pow2Octet(24);
    Pow2Octet(32);
    Pow2Octet(40);
    Pow2Octet(48);
    Pow2Octet(56);
  }

  /** `hash ^ u64::from(byte)`. */
  function XorByte(hash: U64, byte: Octet): U64 {
    WordIs64Bits();
    Xor(hash, byte as int, WORD)
  }

  function TimesPrime(hash: U64): U64 {
    (hash * PRIME) % U64_LIMIT
  }

  function Absorb(hash: U64, byte: Octet): U64 {
    TimesPrime(XorByte(hash, byte))
  }

  predicate Bit(n: nat, k: nat)
    decreases k
  {
    if k == 0 then n % 2 == 1 else Bit(n / 2, k - 1)
  }

  lemma {:induction false} XorBits(a: nat, b: nat, bits: nat, k: nat)
    requires k < bits
    ensures Bit(Xor(a, b, bits), k) <==> (Bit(a, k) != Bit(b, k))
    decreases bits
  {
    if k > 0 {
      XorBits(a / 2, b / 2, bits - 1, k - 1);
    }
  }

  lemma {:induction false} BitsDetermine(a: nat, b: nat, bits: nat)
    requires a < Pow2(bits) && b < Pow2(bits)
    requires forall k: nat :: k < bits ==> (Bit(a, k) <==> Bit(b, k))
    ensures a == b
    decreases bits
  {
    if bits > 0 {
      assert Bit(a, 0) <==> Bit(b, 0);
      forall k: nat | k < bits - 1
        ensures Bit(a / 2, k) <==> Bit(b / 2, k)
      {
        assert Bit(a, k + 1) <==> Bit(b, k + 1);
      }
      BitsDetermine(a / 2, b / 2, bits - 1);
    }
  }

  /** One step of FNV-1a: the 64-bit number whose bits are those in which the hash and the byte differ,
      times the prime, modulo 2^64. */
  lemma AbsorbMeans(hash: U64, byte: Octet, mixed: U64)
    requires forall k: nat :: k < 64 ==> (Bit(mixed, k) <==> (Bit(hash, k) != Bit(byte as int, k)))
    ensures Absorb(hash, byte) == mixed * 0x100_0000_01b3 % 0x1_0000_0000_0000_0000
  {
    WordIs64Bits();
    forall k: nat | k < WORD
      ensures Bit(mixed, k) <==> Bit(XorByte(hash, byte), k)
    {
      XorBits(hash, byte as int, WORD, k);
    }
    BitsDetermine(mixed, XorByte(hash, byte), WORD);
  }

  function Fnv(hash: U64, bytes: Bytes): U64
    decreases bytes
  {
    if bytes == [] then hash else Fnv(Absorb(hash, bytes[0]), bytes[1..])
  }

  lemma {:induction false} FnvAppend(hash: U64, a: Bytes, b: Bytes)
    ensures Fnv(hash, a + b) == Fnv(Fnv(hash, a), b)
    decreases a
  {
    if a == [] {
      assert a + b == b;
    } else {
      assert (a + b)[1..] == a[1..] + b;
      FnvAppend(Absorb(hash, a[0]), a[1..], b);
    }
  }

  lemma FnvSnoc(hash: U64, a: Bytes, byte: Octet)
    ensures Fnv(hash, a + [byte]) == Absorb(Fnv(hash, a), byte)
  {
    FnvAppend(hash, a, [byte]);
    var state := Fnv(hash, a);
    assert Fnv(Absorb(state, byte), []) == Absorb(state, byte);
  }

  function Framed(part: Bytes): Bytes {
    LittleEndian(|part|, U64_BYTES) + part
  }

  lemma FnvNextPart(parts: seq<Bytes>, i: nat)
    requires i < |parts|
    ensures Fnv(OFFSET, Frame(parts[..i + 1])) == Fnv(Fnv(OFFSET, Frame(parts[..i])), Framed(parts[i]))
  {
    assert parts[..i + 1] == parts[..i] + [parts[i]];
    FrameAppend(parts[..i], [parts[i]]);
    assert Frame([parts[i]]) == Framed(parts[i]) + Frame([]) == Framed(parts[i]);
    FnvAppend(OFFSET, Frame(parts[..i]), Framed(parts[i]));
  }

  lemma FnvNextByte(start: U64, bytes: Bytes, k: nat)
    requires k < |bytes|
    ensures Fnv(start, bytes[..k + 1]) == Absorb(Fnv(start, bytes[..k]), bytes[k])
  {
    Prefix(bytes, k);
    FnvSnoc(start, bytes[..k], bytes[k]);
  }

  lemma Prefix(bytes: Bytes, k: nat)
    requires k < |bytes|
    ensures bytes[..k + 1] == bytes[..k] + [bytes[k]]
  {
  }

  method Fingerprint(parts: seq<Bytes>) returns (hash: U64)
    ensures hash == Fnv(OFFSET, Frame(parts))
  {
    hash := OFFSET;
    for i := 0 to |parts|
      invariant hash == Fnv(OFFSET, Frame(parts[..i]))
    {
      ghost var start := hash;
      var bytes := Framed(parts[i]);
      for k := 0 to |bytes|
        invariant hash == Fnv(start, bytes[..k])
      {
        FnvNextByte(start, bytes, k);
        hash := Absorb(hash, bytes[k]);
      }
      assert bytes[..|bytes|] == bytes;
      FnvNextPart(parts, i);
    }
    assert parts[..|parts|] == parts;
  }

  // ------------------------------------------------------------- bijection

  /** The prime is odd, so it has an inverse modulo 2^64. */
  const INVERSE: nat := 0xce96_5057_aff6_957b

  function TimesInverse(hash: U64): U64 {
    (hash * INVERSE) % U64_LIMIT
  }

  function Release(hash: U64, byte: Octet): U64 {
    XorByte(TimesInverse(hash), byte)
  }

  function Unfnv(hash: U64, bytes: Bytes): U64 {
    if bytes == [] then hash else Release(Unfnv(hash, bytes[1..]), bytes[0])
  }

  /** The lowest bit and the rest of an exclusive or. */
  lemma XorParts(a: nat, b: nat, bits: nat)
    requires bits > 0
    ensures Xor(a, b, bits) % 2 == (if a % 2 == b % 2 then 0 else 1)
    ensures Xor(a, b, bits) / 2 == Xor(a / 2, b / 2, bits - 1)
  {
  }

  lemma {:induction false} XorCommutes(a: nat, b: nat, bits: nat)
    ensures Xor(a, b, bits) == Xor(b, a, bits)
    decreases bits
  {
    if bits > 0 {
      XorCommutes(a / 2, b / 2, bits - 1);
    }
  }

  lemma {:induction false} XorTwice(a: nat, b: nat, bits: nat)
    requires a < Pow2(bits)
    ensures Xor(Xor(a, b, bits), b, bits) == a
    decreases bits
  {
    if bits > 0 {
      XorParts(a, b, bits);
      XorParts(Xor(a, b, bits), b, bits);
      XorTwice(a / 2, b / 2, bits - 1);
    }
  }

  lemma XorCancels(a: nat, b: nat, bits: nat)
    requires a < Pow2(bits)
    ensures Xor(Xor(a, b, bits), b, bits) == a
    ensures Xor(b, Xor(b, a, bits), bits) == a
  {
    XorTwice(a, b, bits);
    XorCommutes(a, b, bits);
    XorCommutes(Xor(a, b, bits), b, bits);
  }

  lemma XorByteTwice(hash: U64, byte: Octet)
    ensures XorByte(XorByte(hash, byte), byte) == hash
  {
    WordIs64Bits();
    XorCancels(hash, byte as int, WORD);
  }

  lemma RemainderIs(n: int, quotient: int, r: U64)
    requires n == quotient * U64_LIMIT + r
    ensures n % U64_LIMIT == r
  {
  }

  lemma InversePrime(x: U64)
    ensures TimesInverse(TimesPrime(x)) == x
  {
    var q := x * PRIME / U64_LIMIT;
    assert TimesPrime(x) == x * PRIME - q * U64_LIMIT;
    RemainderIs(TimesPrime(x) * INVERSE, x * 0xce_9650_590f - q * INVERSE, x);
  }

  lemma PrimeInverse(x: U64)
    ensures TimesPrime(TimesInverse(x)) == x
  {
    var q := x * INVERSE / U64_LIMIT;
    assert TimesInverse(x) == x * INVERSE - q * U64_LIMIT;
    RemainderIs(TimesInverse(x) * PRIME, x * 0xce_9650_590f - q * PRIME, x);
  }

  lemma ReleaseAbsorb(hash: U64, byte: Octet)
    ensures Release(Absorb(hash, byte), byte) == hash
  {
    InversePrime(XorByte(hash, byte));
    XorByteTwice(hash, byte);
  }

  lemma AbsorbRelease(hash: U64, byte: Octet)
    ensures Absorb(Release(hash, byte), byte) == hash
  {
    PrimeInverse(hash);
    XorByteTwice(TimesInverse(hash), byte);
  }

  /** Every byte string permutes the 64-bit states. */
  lemma {:induction false} FnvBijective(hash: U64, bytes: Bytes)
    ensures Unfnv(Fnv(hash, bytes), bytes) == hash
    ensures Fnv(Unfnv(hash, bytes), bytes) == hash
    decreases bytes
  {
    if bytes != [] {
      ReleaseAbsorb(hash, bytes[0]);
      FnvBijective(Absorb(hash, bytes[0]), bytes[1..]);
      AbsorbRelease(Unfnv(hash, bytes[1..]), bytes[0]);
      FnvBijective(hash, bytes[1..]);
    }
  }

  lemma AbsorbDistinguishesBytes(hash: U64, a: Octet, b: Octet)
    requires a != b
    ensures Absorb(hash, a) != Absorb(hash, b)
  {
    InversePrime(XorByte(hash, a));
    InversePrime(XorByte(hash, b));
    WordIs64Bits();
    XorCancels(a as int, hash, WORD);
    XorCancels(b as int, hash, WORD);
  }

  /** Replacing one byte anywhere changes the hash, whatever surrounds it. */
  lemma FnvDetectsSubstitution(hash: U64, before: Bytes, a: Octet, b: Octet, after: Bytes)
    requires a != b
    ensures Fnv(hash, before + [a] + after) != Fnv(hash, before + [b] + after)
  {
    var state := Fnv(hash, before);
    FnvSnoc(hash, before, a);
    FnvSnoc(hash, before, b);
    FnvAppend(hash, before + [a], after);
    FnvAppend(hash, before + [b], after);
    AbsorbDistinguishesBytes(state, a, b);
    FnvBijective(Absorb(state, a), after);
    FnvBijective(Absorb(state, b), after);
  }

  /** The same for one byte of one part of the framed stream. */
  lemma FingerprintDetectsSubstitution(parts: seq<Bytes>, p: nat, i: nat, byte: Octet)
    requires p < |parts| && i < |parts[p]| && parts[p][i] != byte
    ensures Fnv(OFFSET, Frame(parts[p := parts[p][i := byte]])) != Fnv(OFFSET, Frame(parts))
  {
    var part, changed := parts[p], parts[p][i := byte];
    var front := Frame(parts[..p]) + LittleEndian(|part|, U64_BYTES);
    var back := Frame(parts[p + 1..]);
    FrameAround(parts, p);
    FrameAround(parts[p := changed], p);
    assert parts[p := changed][..p] == parts[..p] && parts[p := changed][p + 1..] == parts[p + 1..];
    SplitAt(front, part, back, i);
    SplitAt(front, changed, back, i);
    assert changed[..i] == part[..i] && changed[i + 1..] == part[i + 1..];
    FnvDetectsSubstitution(OFFSET, front + part[..i], part[i], byte, part[i + 1..] + back);
  }

  lemma SplitAt(front: Bytes, part: Bytes, back: Bytes, i: nat)
    requires i < |part|
    ensures front + part + back == front + part[..i] + [part[i]] + (part[i + 1..] + back)
  {
  }

  lemma FrameAround(parts: seq<Bytes>, p: nat)
    requires p < |parts|
    ensures Frame(parts) ==
            Frame(parts[..p]) + LittleEndian(|parts[p]|, U64_BYTES) + parts[p] + Frame(parts[p + 1..])
  {
    assert parts == parts[..p] + parts[p..];
    FrameAppend(parts[..p], parts[p..]);
    assert parts[p..][1..] == parts[p + 1..];
  }

  // ---------------------------------------------------------- verification

  datatype Verdict = Fresh | NotUtf8 | Stale | Differs

  /** `{:016x}`. */
  function Hex16(h: U64): string {
    Hex.Padded(h, 16)
  }

  function Ascii(s: string): Bytes
    requires forall i :: 0 <= i < |s| ==> s[i] < '\U{0080}'
  {
    seq(|s|, i requires 0 <= i < |s| => s[i] as int as Octet)
  }

  predicate OccursAt(text: Bytes, part: Bytes, i: nat) {
    i + |part| <= |text| && text[i..i + |part|] == part
  }

  predicate Contains(text: Bytes, part: Bytes) {
    exists i :: 0 <= i <= |text| && OccursAt(text, part, i)
  }

  lemma Hex16Ascii(h: U64)
    ensures forall i :: 0 <= i < |Hex16(h)| ==> Hex16(h)[i] < '\U{0080}'
  {
    Hex.PaddedDigits(h, 16);
  }

  function Marker(source: U64): Bytes {
    Hex16Ascii(source);
    Ascii("\"source_fingerprint\": \"fnv1a64:") + Ascii(Hex16(source)) + Ascii("\"")
  }

  function Verification(source: U64, document: Bytes, recorded: string): Verdict {
    if !ValidUtf8(document) then NotUtf8
    else if !Contains(document, Marker(source)) then Stale
    else if recorded != Hex16(Fnv(OFFSET, Frame([document]))) then Differs
    else Fresh
  }

  /** The bytes are the characters' codes. */
  predicate Spells(bytes: Bytes, text: string) {
    |bytes| == |text| && forall i :: 0 <= i < |bytes| ==> bytes[i] as int == text[i] as int
  }

  ghost predicate Around(document: Bytes, before: Bytes, marker: Bytes, after: Bytes) {
    document == before + marker + after
  }

  /** Somewhere the document spells the marker of these sources. */
  ghost predicate Names(document: Bytes, source: U64) {
    exists before, marker, after ::
      Around(document, before, marker, after) && Spells(marker, "\"source_fingerprint\": \"fnv1a64:" + Hex16(source) + "\"")
  }

  lemma MarkerSpells(source: U64, marker: Bytes)
    ensures Spells(marker, "\"source_fingerprint\": \"fnv1a64:" + Hex16(source) + "\"") <==> marker == Marker(source)
  {
    Hex16Ascii(source);
    assert Spells(Marker(source), "\"source_fingerprint\": \"fnv1a64:" + Hex16(source) + "\"");
  }

  lemma OccursAround(document: Bytes, before: Bytes, marker: Bytes, after: Bytes)
    requires Around(document, before, marker, after)
    ensures OccursAt(document, marker, |before|)
  {
  }

  lemma CutOut(document: Bytes, part: Bytes, i: nat)
    requires OccursAt(document, part, i)
    ensures Around(document, document[..i], part, document[i + |part|..])
  {
  }

  lemma OccursNames(document: Bytes, source: U64, i: nat)
    requires OccursAt(document, Marker(source), i)
    ensures Names(document, source)
  {
    MarkerSpells(source, Marker(source));
    CutOut(document, Marker(source), i);
  }

  lemma ContainsNames(document: Bytes, source: U64)
    ensures Contains(document, Marker(source)) <==> Names(document, source)
  {
    if i :| 0 <= i <= |document| && OccursAt(document, Marker(source), i) {
      OccursNames(document, source, i);
    }
    if before, marker, after :| Around(document, before, marker, after) &&
                                Spells(marker, "\"source_fingerprint\": \"fnv1a64:" + Hex16(source) + "\"") {
      MarkerSpells(source, marker);
      OccursAround(document, before, marker, after);
    }
  }

  /** What is accepted: a document that is UTF-8, spells the marker with the fingerprint of its sources
      anywhere, and is recorded under its own fingerprint. */
  lemma FreshExactly(source: U64, document: Bytes, recorded: string)
    ensures Verification(source, document, recorded) == Fresh <==>
            ValidUtf8(document) && Names(document, source) && recorded == Hex16(Fnv(OFFSET, Frame([document])))
  {
    ContainsNames(document, source);
  }

  /** In particular every document that is built around its marker. */
  lemma GeneratedIsFresh(source: U64, before: Bytes, marker: Bytes, after: Bytes)
    requires Spells(marker, "\"source_fingerprint\": \"fnv1a64:" + Hex16(source) + "\"")
    requires ValidUtf8(before + marker + after)
    ensures var document := before + marker + after;
            Verification(source, document, Hex16(Fnv(OFFSET, Frame([document])))) == Fresh
  {
    var document := before + marker + after;
    assert Around(document, before, marker, after);
    FreshExactly(source, document, Hex16(Fnv(OFFSET, Frame([document]))));
  }

  method VerifyContents(source: U64, document: Bytes, recorded: string) returns (v: Verdict)
    ensures v == Verification(source, document, recorded)
    ensures v == NotUtf8 <==> !exists scalars :: Encode(scalars) == document
    ensures v == Fresh <==>
            ValidUtf8(document) && Names(document, source) && recorded == Hex16(Fnv(OFFSET, Frame([document])))
  {
    ValidExactly(document);
    FreshExactly(source, document, recorded);
    if !ValidUtf8(document) {
      return NotUtf8;
    }
    if !Contains(document, Marker(source)) {
      return Stale;
    }
    var actual := Fingerprint([document]);
    if recorded != Hex16(actual) {
      return Differs;
    }
    return Fresh;
  }

  lemma Hex16Injective(a: U64, b: U64)
    requires Hex16(a) == Hex16(b)
    ensures a == b
  {
    Hex.FromPadded(a, 16);
    Hex.FromPadded(b, 16);
  }

  lemma DocumentHashChanges(document: Bytes, i: nat, byte: Octet)
    requires i < |document| && document[i] != byte
    ensures Fnv(OFFSET, Frame([document[i := byte]])) != Fnv(OFFSET, Frame([document]))
  {
    FingerprintDetectsSubstitution([document], 0, i, byte);
    assert [document][0 := document[i := byte]] == [document[i := byte]];
  }

  /** A document that passes stops passing, for the same recorded value, after any one byte is
      replaced; when it still is UTF-8 with the marker, the error is the fingerprint one. */
  lemma EditedDocumentRejected(source: U64, document: Bytes, recorded: string, i: nat, byte: Octet)
    requires Verification(source, document, recorded) == Fresh
    requires i < |document| && document[i] != byte
    ensures var edited := document[i := byte];
            Verification(source, edited, recorded) ==
            if !ValidUtf8(edited) then NotUtf8
            else if !Names(edited, source) then Stale
            else Differs
  {
    var edited := document[i := byte];
    ContainsNames(edited, source);
    DocumentHashChanges(document, i, byte);
    if Hex16(Fnv(OFFSET, Frame([edited]))) == recorded {
      Hex16Injective(Fnv(OFFSET, Frame([edited])), Fnv(OFFSET, Frame([document])));
    }
  }

  /** For a document that names its sources, exactly one recorded value is accepted. */
  lemma RegenerationRecovers(source: U64, document: Bytes, recorded: string)
    requires ValidUtf8(document) && Names(document, source)
    ensures Verification(source, document, recorded) == Fresh <==>
            recorded == Hex16(Fnv(OFFSET, Frame([document])))
  {
    ContainsNames(document, source);
  }

  /** Path and contents of each source, in turn. */
  function SourceParts(sources: seq<(Bytes, Bytes)>): seq<Bytes> {
    if sources == [] then [] else [sources[0].0, sources[0].1] + SourceParts(sources[1..])
  }

  /** Each source takes two parts, its path and then its contents. */
  lemma {:induction false} SourcePartsAt(sources: seq<(Bytes, Bytes)>, i: nat)
    requires i < |sources|
    ensures |SourceParts(sources)| == 2 * |sources|
    ensures SourceParts(sources)[2 * i] == sources[i].0 && SourceParts(sources)[2 * i + 1] == sources[i].1
  {
    var rest := SourceParts(sources[1..]);
    assert SourceParts(sources) == [sources[0].0, sources[0].1] + rest;
    if |sources| > 1 {
      SourcePartsAt(sources[1..], if i > 0 then i - 1 else 0);
    }
  }

  lemma {:induction false} SourcePartsInjective(a: seq<(Bytes, Bytes)>, b: seq<(Bytes, Bytes)>)
    requires SourceParts(a) == SourceParts(b)
    ensures a == b
  {
    if a == [] {
      assert b == [] || |SourceParts(b)| >= 2;
    } else {
      assert |SourceParts(a)| >= 2;
      assert b != [];
      assert SourceParts(a)[0] == a[0].0 && SourceParts(a)[1] == a[0].1;
      assert SourceParts(b)[0] == b[0].0 && SourceParts(b)[1] == b[0].1;
      assert SourceParts(a)[2..] == SourceParts(a[1..]);
      assert SourceParts(b)[2..] == SourceParts(b[1..]);
      SourcePartsInjective(a[1..], b[1..]);
      assert a == [a[0]] + a[1..] && b == [b[0]] + b[1..];
    }
  }

  /** The stream of `source_fingerprint` determines every source path and its contents. */
  lemma SourceStreamInjective(a: seq<(Bytes, Bytes)>, b: seq<(Bytes, Bytes)>)
    requires Representable(SourceParts(a)) && Representable(SourceParts(b))
    requires Frame(SourceParts(a)) == Frame(SourceParts(b))
    ensures a == b
  {
    FrameInjective(SourceParts(a), SourceParts(b));
    SourcePartsInjective(a, b);
  }
}
