/** The printer of execution commands (extensions/top/src/executions.tsx) and the argv tokeniser
    of the terminal form (extensions/top/src/terminals.tsx), which undo each other. */
module ShellWords {
  import opened JsText
  import Framing
  import Utf8

  const SINGLE: Unit := 0x27
  const DOUBLE: Unit := 0x22
  const BACKSLASH: Unit := 0x5c
  const SPACE: Unit := 0x20

  // ---------------------------------------------------------------- printer

  predicate IsSafe(u: Unit) {
    0x41 <= u <= 0x5a || 0x61 <= u <= 0x7a || 0x30 <= u <= 0x39 ||
    u in Lit("_@%+=:,./-")
  }

  function ReplaceQuotes(value: Text): Text {
    if value == [] then []
    else (if value[0] == SINGLE then [SINGLE, DOUBLE, SINGLE, DOUBLE, SINGLE] else [value[0]]) +
         ReplaceQuotes(value[1..])
  }

  function ShellArgument(value: Text): (quoted: Text) {
    if value != [] && forall i :: 0 <= i < |value| ==> IsSafe(value[i]) then value
    else [SINGLE] + ReplaceQuotes(value) + [SINGLE]
  }

  function JoinArguments(argv: seq<Text>): Text {
    if argv == [] then []
    else if |argv| == 1 then ShellArgument(argv[0])
    else ShellArgument(argv[0]) + [SPACE] + JoinArguments(argv[1..])
  }

  datatype Command = Missing | Recorded(argv: seq<Text>)

  function ExecutionCommand(command: Command): Text {
    if command.Recorded? && JoinArguments(command.argv) != [] then JoinArguments(command.argv)
    else Lit("Unavailable")
  }

  // -------------------------------------------------------------- tokeniser

  datatype Quote = Bare | InSingle | InDouble

  /** The tokeniser's loop variables. */
  datatype Scanner = Scanner(parsed: seq<Text>, argument: Text, quote: Quote, escaped: bool, started: bool)

  datatype Parse = Argv(words: seq<Text>) | Unfinished | OutOfLimits

  const BEGIN := Scanner([], [], Bare, false, false)

  function Feed(s: Scanner, u: Unit): Scanner {
    if s.escaped then s.(argument := s.argument + [u], escaped := false, started := true)
    else if u == BACKSLASH && s.quote != InSingle then s.(escaped := true, started := true)
    else if s.quote != Bare then
      if u == (if s.quote == InSingle then SINGLE else DOUBLE) then s.(quote := Bare, started := true)
      else s.(argument := s.argument + [u], started := true)
    else if u == SINGLE then s.(quote := InSingle, started := true)
    else if u == DOUBLE then s.(quote := InDouble, started := true)
    else if IsSpace(u) then
      if s.started then s.(parsed := s.parsed + [s.argument], argument := [], started := false) else s
    else s.(argument := s.argument + [u], started := true)
  }

  function Scan(s: Scanner, text: Text): Scanner
    decreases text
  {
    if text == [] then s else Scan(Feed(s, text[0]), text[1..])
  }

  function TotalUtf8(argv: seq<Text>): nat {
    if argv == [] then 0 else Utf8Length(argv[0]) + TotalUtf8(argv[1..])
  }

  predicate WithinLimits(argv: seq<Text>) {
    1 <= |argv| <= 64 && argv[0] != [] && TotalUtf8(argv) <= 32_768 &&
    forall i :: 0 <= i < |argv| ==> 0 !in argv[i] && Utf8Length(argv[i]) <= 4_096
  }

  /** The words scanned so far, counting the one not yet ended by white space. */
  function Words(s: Scanner): seq<Text> {
    if s.started then s.parsed + [s.argument] else s.parsed
  }

  function Finish(s: Scanner): Parse {
    if s.escaped || s.quote != Bare then Unfinished
    else if !WithinLimits(Words(s)) then OutOfLimits
    else Argv(Words(s))
  }

  function Interpret(value: Text): Parse {
    Finish(Scan(BEGIN, Trim(value)))
  }

  lemma ScanFirst(s: Scanner, text: Text, i: nat)
    requires i < |text|
    ensures Scan(s, text[i..]) == Scan(Feed(s, text[i]), text[i + 1..])
  {
    assert text[i..][1..] == text[i + 1..];
  }

  /** Neither half of a code point beyond the basic plane has a meaning of its own. */
  lemma HalfFeeds(s: Scanner, u: Unit)
    requires 0xd800 <= u <= 0xdfff
    ensures Feed(s, u) == s.(argument := s.argument + [u], escaped := false, started := true)
  {
  }

  lemma PairJoins(argument: Text, text: Text, i: nat)
    requires i + 2 <= |text|
    ensures argument + [text[i]] + [text[i + 1]] == argument + text[i..i + 2]
  {
  }

  /** Scanning a code point beyond the basic plane unit by unit adds both of its units. */
  lemma CodePointFeeds(s: Scanner, text: Text, i: nat)
    requires i < |text|
    ensures PairAt(text, i) ==>
              Scan(s, text[i..]) ==
              Scan(s.(argument := s.argument + text[i..i + 2], escaped := false, started := true), text[i + 2..])
    ensures !PairAt(text, i) ==> Scan(s, text[i..]) == Scan(Feed(s, text[i]), text[i + 1..])
  {
    ScanFirst(s, text, i);
    if PairAt(text, i) {
      var once := Feed(s, text[i]);
      HalfFeeds(s, text[i]);
      ScanFirst(once, text, i + 1);
      HalfFeeds(once, text[i + 1]);
      PairJoins(s.argument, text, i);
    }
  }

  /** The loop over code points of the trimmed text. A code point outside the basic plane is two
      units at once; the scanner specification takes them one at a time. */
  method CommandArgv(value: Text) returns (r: Parse)
    ensures r == Interpret(value)
  {
    var text := Trim(value);
    var parsed: seq<Text>, argument: Text, quote, escaped, started := [], [], Bare, false, false;
    var i := 0;
    while i < |text|
      invariant 0 <= i <= |text|
      invariant Scan(Scanner(parsed, argument, quote, escaped, started), text[i..]) == Scan(BEGIN, text)
    {
      var next := if PairAt(text, i) then i + 2 else i + 1;
      var character := text[i..next];
      ghost var before := Scanner(parsed, argument, quote, escaped, started);
      CodePointFeeds(before, text, i);
      assert next == i + 1 ==> character == [text[i]];
      if escaped {
        argument := argument + character;
        escaped := false;
        started := true;
      } else if character == [BACKSLASH] && quote != InSingle {
        escaped := true;
        started := true;
      } else if quote != Bare {
        if character == [if quote == InSingle then SINGLE else DOUBLE] {
          quote := Bare;
        } else {
          argument := argument + character;
        }
        started := true;
      } else if character == [SINGLE] || character == [DOUBLE] {
        quote := if character == [SINGLE] then InSingle else InDouble;
        started := true;
      } else if |character| == 1 && IsSpace(character[0]) {
        if started {
          parsed := parsed + [argument];
          argument := [];
          started := false;
        }
      } else {
        argument := argument + character;
        started := true;
      }
      i := next;
    }
    if escaped || quote != Bare {
      return Unfinished;
    }
    if started {
      parsed := parsed + [argument];
    }
    if !WithinLimits(parsed) {
      return OutOfLimits;
    }
    return Argv(parsed);
  }

  // ------------------------------------------------------------ composition

  predicate Complete(s: Scanner) {
    !s.escaped && s.quote == Bare
  }

  lemma {:induction false} ScanAppend(s: Scanner, a: Text, b: Text)
    ensures Scan(s, a + b) == Scan(Scan(s, a), b)
    decreases a
  {
    if a == [] {
      assert a + b == b;
    } else {
      assert (a + b)[1..] == a[1..] + b;
      ScanAppend(Feed(s, a[0]), a[1..], b);
    }
  }

  /** Words already found stay in front and do not influence the rest of the scan. */
  lemma {:induction false} ScanPrefix(before: seq<Text>, s: Scanner, text: Text)
    ensures Scan(s.(parsed := before + s.parsed), text) ==
            Scan(s, text).(parsed := before + Scan(s, text).parsed)
    decreases text
  {
    if text != [] {
      var next := Feed(s, text[0]);
      assert before + (s.parsed + [s.argument]) == before + s.parsed + [s.argument];
      assert Feed(s.(parsed := before + s.parsed), text[0]) == next.(parsed := before + next.parsed);
      ScanPrefix(before, next, text[1..]);
    }
  }

  /** A scan that has not started a word holds an empty one. */
  lemma {:induction false} UnstartedIsEmpty(s: Scanner, text: Text)
    requires !s.started ==> s.argument == [] && Complete(s)
    ensures !Scan(s, text).started ==> Scan(s, text).argument == [] && Complete(Scan(s, text))
    decreases text
  {
    if text != [] {
      UnstartedIsEmpty(Feed(s, text[0]), text[1..]);
    }
  }

  /** An unquoted space after a complete text concatenates the two word lists. */
  lemma SpaceConcatenates(a: Text, b: Text)
    requires Complete(Scan(BEGIN, a))
    ensures Words(Scan(BEGIN, a + [SPACE] + b)) == Words(Scan(BEGIN, a)) + Words(Scan(BEGIN, b))
    ensures Complete(Scan(BEGIN, a + [SPACE] + b)) <==> Complete(Scan(BEGIN, b))
  {
    var left, right := Scan(BEGIN, a), Scan(BEGIN, b);
    UnstartedIsEmpty(BEGIN, a);
    ScanAppend(BEGIN, a, [SPACE]);
    ScanAppend(BEGIN, a + [SPACE], b);
    assert Scan(left, [SPACE]) == Feed(left, SPACE) by {
      assert Scan(Feed(left, SPACE), []) == Feed(left, SPACE);
    }
    assert Feed(left, SPACE) == BEGIN.(parsed := Words(left) + BEGIN.parsed);
    ScanPrefix(Words(left), BEGIN, b);
    assert Words(left) + (right.parsed + [right.argument]) == Words(left) + right.parsed + [right.argument];
  }

  // ------------------------------------------------------------- round trip

  lemma {:induction false} ScanSafe(s: Scanner, value: Text)
    requires Complete(s)
    requires forall i :: 0 <= i < |value| ==> IsSafe(value[i])
    ensures Scan(s, value) == s.(argument := s.argument + value, started := s.started || value != [])
    decreases value
  {
    if value != [] {
      ScanSafe(Feed(s, value[0]), value[1..]);
      assert s.argument + [value[0]] + value[1..] == s.argument + value;
    } else {
      assert s.argument + value == s.argument;
    }
  }

  lemma {:induction false} ScanQuoted(s: Scanner, value: Text)
    requires !s.escaped && s.quote == InSingle && s.started
    ensures Scan(s, ReplaceQuotes(value)) == s.(argument := s.argument + value)
    decreases value
  {
    if value == [] {
      assert s.argument + value == s.argument;
    } else {
      var rest := ReplaceQuotes(value[1..]);
      var next := s.(argument := s.argument + [value[0]]);
      if value[0] == SINGLE {
        var run := [SINGLE, DOUBLE, SINGLE, DOUBLE, SINGLE];
        ScanAppend(s, run, rest);
        ScanReopened(s);
      } else {
        ScanAppend(s, [value[0]], rest);
        assert Scan(Feed(s, value[0]), []) == next;
      }
      ScanQuoted(next, value[1..]);
      assert s.argument + [value[0]] + value[1..] == s.argument + value;
    }
  }

  /** Closing, a double-quoted quote, and reopening adds exactly one quote character. */
  lemma ScanReopened(s: Scanner)
    requires !s.escaped && s.quote == InSingle && s.started
    ensures Scan(s, [SINGLE, DOUBLE, SINGLE, DOUBLE, SINGLE]) == s.(argument := s.argument + [SINGLE])
  {
    var run := [SINGLE, DOUBLE, SINGLE, DOUBLE, SINGLE];
    ScanSnoc(s, run[..4], SINGLE);
    ScanSnoc(s, run[..3], DOUBLE);
    ScanSnoc(s, run[..2], SINGLE);
    ScanSnoc(s, run[..1], DOUBLE);
    ScanSnoc(s, [], SINGLE);
    assert [] + [SINGLE] == run[..1] && run[..1] + [DOUBLE] == run[..2] && run[..2] + [SINGLE] == run[..3];
    assert run[..3] + [DOUBLE] == run[..4] && run[..4] + [SINGLE] == run;
  }

  /** One printed argument scans as one whole word, whatever it contains. */
  lemma ScanArgument(value: Text)
    ensures Scan(BEGIN, ShellArgument(value)) == BEGIN.(argument := value, started := true)
  {
    if value != [] && forall i :: 0 <= i < |value| ==> IsSafe(value[i]) {
      ScanSafe(BEGIN, value);
    } else {
      var inside := BEGIN.(quote := InSingle, started := true);
      assert ([SINGLE] + ReplaceQuotes(value) + [SINGLE])[1..] == ReplaceQuotes(value) + [SINGLE];
      assert Feed(BEGIN, SINGLE) == inside;
      ScanAppend(inside, ReplaceQuotes(value), [SINGLE]);
      ScanQuoted(inside, value);
      var last := inside.(argument := value);
      assert Scan(Feed(last, SINGLE), []) == Feed(last, SINGLE);
    }
  }

  // --------------------------------------------------- nothing meant outside

  /** Characters a POSIX shell gives a meaning to outside quotes, beside the quotes themselves and the
      space between words. */
  predicate Meta(u: Unit) {
    u in Lit("|&;<>()$`\\*?[]#~!{}^") || (IsSpace(u) && u != 0x20) || u < 0x20
  }

  lemma SafeIsPlain(u: Unit)
    requires IsSafe(u)
    ensures !Meta(u) && u != 0x27 && u != 0x22 && u != 0x20
  {
  }

  /** A word printed without quotes is not empty and holds no metacharacter, quote or white space. */
  lemma UnquotedIsPlain(value: Text)
    requires ShellArgument(value) == value
    ensures value != [] && forall i :: 0 <= i < |value| ==> !Meta(value[i]) && value[i] != 0x27 && value[i] != 0x22 && !IsSpace(value[i])
  {
    ReplacedWidth(value);
    forall i | 0 <= i < |value|
      ensures !Meta(value[i]) && value[i] != 0x27 && value[i] != 0x22 && !IsSpace(value[i])
    {
      SafeIsPlain(value[i]);
    }
  }

  lemma {:induction false} ReplacedWidth(value: Text)
    ensures |ReplaceQuotes(value)| >= |value|
  {
    if value != [] {
      ReplacedWidth(value[1..]);
    }
  }

  /** Reading on from `s`, no metacharacter is met outside quotes. */
  predicate Sheltered(s: Scanner, text: Text)
    decreases text
  {
    text == [] || ((s.quote == Bare ==> !Meta(text[0])) && Sheltered(Feed(s, text[0]), text[1..]))
  }

  lemma {:induction false} ShelteredAppend(s: Scanner, a: Text, b: Text)
    ensures Sheltered(s, a + b) <==> Sheltered(s, a) && Sheltered(Scan(s, a), b)
    decreases a
  {
    if a == [] {
      assert a + b == b;
    } else {
      assert (a + b)[1..] == a[1..] + b;
      ShelteredAppend(Feed(s, a[0]), a[1..], b);
    }
  }

  /** Words already read do not matter. */
  lemma {:induction false} ShelteredAlike(s: Scanner, t: Scanner, text: Text)
    requires s.quote == t.quote && s.escaped == t.escaped && s.started == t.started
    ensures Sheltered(s, text) == Sheltered(t, text)
    decreases text
  {
    if text != [] {
      ShelteredAlike(Feed(s, text[0]), Feed(t, text[0]), text[1..]);
    }
  }

  lemma {:induction false} ShelteredSafe(s: Scanner, value: Text)
    requires Complete(s) && forall i :: 0 <= i < |value| ==> IsSafe(value[i])
    ensures Sheltered(s, value)
    decreases value
  {
    if value != [] {
      SafeIsPlain(value[0]);
      ShelteredSafe(Feed(s, value[0]), value[1..]);
    }
  }

  lemma ShelteredOne(s: Scanner, u: Unit)
    ensures Sheltered(s, [u]) <==> (s.quote == Bare ==> !Meta(u))
  {
    assert [u][1..] == [];
  }

  lemma ShelteredRun(s: Scanner)
    requires !s.escaped && s.quote == InSingle && s.started
    ensures Sheltered(s, [SINGLE, DOUBLE, SINGLE, DOUBLE, SINGLE])
  {
    var run := [SINGLE, DOUBLE, SINGLE, DOUBLE, SINGLE];
    var s1 := Feed(s, SINGLE);
    var s2 := Feed(s1, DOUBLE);
    var s3 := Feed(s2, SINGLE);
    var s4 := Feed(s3, DOUBLE);
    assert run[1..] == [DOUBLE, SINGLE, DOUBLE, SINGLE] && run[1..][1..] == [SINGLE, DOUBLE, SINGLE];
    assert [SINGLE, DOUBLE, SINGLE][1..] == [DOUBLE, SINGLE] && [DOUBLE, SINGLE][1..] == [SINGLE];
    ShelteredOne(s4, SINGLE);
    assert !Meta(SINGLE) && !Meta(DOUBLE);
    assert Sheltered(s3, [DOUBLE, SINGLE]);
    assert Sheltered(s2, [SINGLE, DOUBLE, SINGLE]);
    assert Sheltered(s1, [DOUBLE, SINGLE, DOUBLE, SINGLE]);
  }

  lemma {:induction false} ShelteredQuoted(s: Scanner, value: Text)
    requires !s.escaped && s.quote == InSingle && s.started
    ensures Sheltered(s, ReplaceQuotes(value))
    decreases value
  {
    if value != [] {
      var rest := ReplaceQuotes(value[1..]);
      if value[0] == SINGLE {
        ShelteredRun(s);
        ScanReopened(s);
        ShelteredAppend(s, [SINGLE, DOUBLE, SINGLE, DOUBLE, SINGLE], rest);
        ShelteredQuoted(s.(argument := s.argument + [SINGLE]), value[1..]);
      } else {
        ShelteredOne(s, value[0]);
        ShelteredAppend(s, [value[0]], rest);
        assert Scan(Feed(s, value[0]), []) == Feed(s, value[0]);
        assert Scan(s, [value[0]]) == Feed(s, value[0]);
        ShelteredQuoted(Feed(s, value[0]), value[1..]);
      }
    }
  }

  lemma ShelteredArgument(value: Text)
    ensures Sheltered(BEGIN, ShellArgument(value))
  {
    if value != [] && forall i :: 0 <= i < |value| ==> IsSafe(value[i]) {
      ShelteredSafe(BEGIN, value);
    } else {
      var inside := Feed(BEGIN, SINGLE);
      var last := inside.(argument := value);
      ShelteredQuoted(inside, value);
      ScanQuoted(inside, value);
      ShelteredAppend(inside, ReplaceQuotes(value), [SINGLE]);
      ShelteredOne(last, SINGLE);
      assert ([SINGLE] + ReplaceQuotes(value) + [SINGLE])[1..] == ReplaceQuotes(value) + [SINGLE];
      assert !Meta(SINGLE);
    }
  }

  lemma ShelteredSpace(ended: Scanner, rest: Text)
    requires Sheltered(BEGIN, rest) && ended.started && Complete(ended)
    ensures Sheltered(ended, [SPACE] + rest)
  {
    ShelteredAlike(BEGIN, Feed(ended, SPACE), rest);
    assert ([SPACE] + rest)[1..] == rest && !Meta(SPACE);
  }

  lemma ShelteredNext(value: Text, printed: Text, rest: Text)
    requires Sheltered(BEGIN, rest) && printed == ShellArgument(value)
    ensures Sheltered(BEGIN, printed + [SPACE] + rest)
  {
    var ended := BEGIN.(argument := value, started := true);
    ShelteredArgument(value);
    ScanArgument(value);
    ShelteredSpace(ended, rest);
    ShelteredAppend(BEGIN, printed, [SPACE] + rest);
    assert printed + [SPACE] + rest == printed + ([SPACE] + rest);
  }

  lemma {:induction false} ShelteredJoined(argv: seq<Text>)
    ensures Sheltered(BEGIN, JoinArguments(argv))
  {
    if |argv| == 1 {
      ShelteredArgument(argv[0]);
    } else if argv != [] {
      ShelteredJoined(argv[1..]);
      ShelteredNext(argv[0], ShellArgument(argv[0]), JoinArguments(argv[1..]));
    }
  }

  lemma {:induction false} ShelteredAt(s: Scanner, text: Text, i: nat)
    requires Sheltered(s, text) && i < |text| && Scan(s, text[..i]).quote == Bare
    ensures !Meta(text[i])
    decreases text
  {
    if i > 0 {
      assert text[..i][1..] == text[1..][..i - 1];
      ShelteredAt(Feed(s, text[0]), text[1..], i - 1);
    }
  }

  /** In a printed command, every metacharacter of a shell stands inside quotes. */
  lemma MetaIsQuoted(argv: seq<Text>, i: nat)
    requires i < |JoinArguments(argv)| && Meta(JoinArguments(argv)[i])
    ensures Scan(BEGIN, JoinArguments(argv)[..i]).quote != Bare
  {
    ShelteredJoined(argv);
    if Scan(BEGIN, JoinArguments(argv)[..i]).quote == Bare {
      ShelteredAt(BEGIN, JoinArguments(argv), i);
    }
  }

  // ----------------------------------------------------------------- limits

  function EncodedAll(argv: seq<Text>): Framing.Bytes {
    if argv == [] then [] else Utf8.EncodeText(argv[0]) + EncodedAll(argv[1..])
  }

  lemma {:induction false} TotalIsEncoded(argv: seq<Text>)
    ensures TotalUtf8(argv) == |EncodedAll(argv)|
  {
    if argv != [] {
      Utf8.LengthOfEncoding(argv[0]);
      TotalIsEncoded(argv[1..]);
    }
  }

  /** The limits, on the encoded bytes: one to 64 words without NUL, a program that is not empty, at most
      4096 bytes each and 32768 in all. */
  lemma LimitsMean(argv: seq<Text>)
    ensures WithinLimits(argv) <==>
            |argv| > 0 && |argv| <= 64 && |argv[0]| > 0 &&
            (forall i, k :: 0 <= i < |argv| && 0 <= k < |argv[i]| ==> argv[i][k] != 0) &&
            (forall i :: 0 <= i < |argv| ==> |Utf8.EncodeText(argv[i])| <= 4096) &&
            |EncodedAll(argv)| <= 32768
  {
    TotalIsEncoded(argv);
    forall i | 0 <= i < |argv|
      ensures Utf8Length(argv[i]) == |Utf8.EncodeText(argv[i])|
    {
      Utf8.LengthOfEncoding(argv[i]);
    }
  }

  lemma ScanJoinedNext(first: Text, rest: Text, words: seq<Text>)
    requires Complete(Scan(BEGIN, rest)) && Words(Scan(BEGIN, rest)) == words
    ensures var line := ShellArgument(first) + [SPACE] + rest;
            Complete(Scan(BEGIN, line)) && Words(Scan(BEGIN, line)) == [first] + words
  {
    ScanArgument(first);
    SpaceConcatenates(ShellArgument(first), rest);
  }

  lemma {:induction false} ScanJoined(argv: seq<Text>)
    ensures Complete(Scan(BEGIN, JoinArguments(argv)))
    ensures Words(Scan(BEGIN, JoinArguments(argv))) == argv
  {
    if |argv| > 1 {
      assert argv == [argv[0]] + argv[1..];
      ScanJoined(argv[1..]);
      ScanJoinedNext(argv[0], JoinArguments(argv[1..]), argv[1..]);
    } else if |argv| == 1 {
      ScanArgument(argv[0]);
    }
  }

  lemma SafeIsNoSpace(u: Unit)
    requires IsSafe(u)
    ensures !IsSpace(u)
  {
  }

  lemma ArgumentEnds(value: Text)
    ensures var t := ShellArgument(value); t != [] && !IsSpace(t[0]) && !IsSpace(t[|t| - 1])
  {
    var t := ShellArgument(value);
    if t == value && value != [] && forall i :: 0 <= i < |value| ==> IsSafe(value[i]) {
      SafeIsNoSpace(value[0]);
      SafeIsNoSpace(value[|value| - 1]);
    } else {
      assert t == [SINGLE] + ReplaceQuotes(value) + [SINGLE];
      QuotedEnds(ReplaceQuotes(value));
    }
  }

  lemma QuotedEnds(inside: Text)
    ensures var t := [SINGLE] + inside + [SINGLE]; t[0] == SINGLE && t[|t| - 1] == SINGLE
  {
  }

  lemma OuterEnds(front: Text, back: Text)
    requires front != [] && back != []
    ensures var t := front + [SPACE] + back; t[0] == front[0] && t[|t| - 1] == back[|back| - 1]
  {
  }

  lemma {:induction false} JoinedEnds(argv: seq<Text>)
    requires argv != []
    ensures var t := JoinArguments(argv); t != [] && !IsSpace(t[0]) && !IsSpace(t[|t| - 1])
  {
    ArgumentEnds(argv[0]);
    if |argv| > 1 {
      JoinedEnds(argv[1..]);
      OuterEnds(ShellArgument(argv[0]), JoinArguments(argv[1..]));
    }
  }

  /** Reading back the printed command gives the argv exactly when the argv is within the limits;
      otherwise the reader says so, except that an absent argv prints as the word `Unavailable`. */
  lemma RoundTrip(argv: seq<Text>)
    ensures Interpret(ExecutionCommand(Recorded(argv))) == Argv(argv) <==> WithinLimits(argv)
    ensures argv != [] && !WithinLimits(argv) ==>
              Interpret(ExecutionCommand(Recorded(argv))) == OutOfLimits
  {
    if argv != [] {
      JoinedEnds(argv);
      TrimKeeps(JoinArguments(argv));
      ScanJoined(argv);
    }
  }

  /** Distinct command lines within the limits print differently. */
  lemma PrintedDistinct(a: seq<Text>, b: seq<Text>)
    requires a != [] && b != [] && JoinArguments(a) == JoinArguments(b)
    ensures a == b
  {
    ScanJoined(a);
    ScanJoined(b);
  }

  // ---------------------------------------------------- the accepted grammar

  datatype Item = Literal(u: Unit) | Backslashed(u: Unit)

  datatype Piece =
    | Plain(u: Unit)
    | Escape(u: Unit)
    | SingleQuoted(text: Text)
    | DoubleQuoted(items: seq<Item>)

  datatype Chunk = Chunk(word: seq<Piece>, gap: Text)

  predicate ValidItem(i: Item) {
    i.Literal? ==> i.u != DOUBLE && i.u != BACKSLASH
  }

  predicate ValidPiece(p: Piece) {
    match p
    case Plain(u) => u != SINGLE && u != DOUBLE && u != BACKSLASH && !IsSpace(u)
    case Escape(_) => true
    case SingleQuoted(text) => SINGLE !in text
    case DoubleQuoted(items) => forall k :: 0 <= k < |items| ==> ValidItem(items[k])
  }

  predicate ValidWord(w: seq<Piece>) {
    forall k :: 0 <= k < |w| ==> ValidPiece(w[k])
  }

  /** Words end at white space; only the last one may end at the end of the text. */
  predicate ValidLine(line: seq<Chunk>) {
    forall k :: 0 <= k < |line| ==>
      line[k].word != [] && ValidWord(line[k].word) && AllSpace(line[k].gap) &&
      (k + 1 < |line| ==> line[k].gap != [])
  }

  function RenderItems(items: seq<Item>): Text {
    if items == [] then []
    else RenderItems(items[..|items| - 1]) +
         (match items[|items| - 1] case Literal(u) => [u] case Backslashed(u) => [BACKSLASH, u])
  }

  function ItemsValue(items: seq<Item>): Text {
    if items == [] then [] else ItemsValue(items[..|items| - 1]) + [items[|items| - 1].u]
  }

  function RenderPiece(p: Piece): Text {
    match p
    case Plain(u) => [u]
    case Escape(u) => [BACKSLASH, u]
    case SingleQuoted(text) => [SINGLE] + text + [SINGLE]
    case DoubleQuoted(items) => [DOUBLE] + RenderItems(items) + [DOUBLE]
  }

  function PieceValue(p: Piece): Text {
    match p
    case Plain(u) => [u]
    case Escape(u) => [u]
    case SingleQuoted(text) => text
    case DoubleQuoted(items) => ItemsValue(items)
  }

  function RenderWord(w: seq<Piece>): Text {
    if w == [] then [] else RenderWord(w[..|w| - 1]) + RenderPiece(w[|w| - 1])
  }

  function WordValue(w: seq<Piece>): Text {
    if w == [] then [] else WordValue(w[..|w| - 1]) + PieceValue(w[|w| - 1])
  }

  function RenderLine(line: seq<Chunk>): Text {
    if line == [] then []
    else var last := line[|line| - 1];
         RenderLine(line[..|line| - 1]) + RenderWord(last.word) + last.gap
  }

  function LineValues(line: seq<Chunk>): seq<Text> {
    if line == [] then [] else LineValues(line[..|line| - 1]) + [WordValue(line[|line| - 1].word)]
  }

  lemma ScanSnoc(s: Scanner, text: Text, u: Unit)
    ensures Scan(s, text + [u]) == Feed(Scan(s, text), u)
  {
    ScanAppend(s, text, [u]);
    var mid := Scan(s, text);
    assert Scan(Feed(mid, u), []) == Feed(mid, u);
  }

  lemma {:induction false} ScanSingle(s: Scanner, text: Text)
    requires !s.escaped && s.quote == InSingle && s.started && SINGLE !in text
    ensures Scan(s, text) == s.(argument := s.argument + text)
    decreases text
  {
    if text == [] {
      assert s.argument + text == s.argument;
    } else {
      ScanSingle(s.(argument := s.argument + [text[0]]), text[1..]);
      assert s.argument + [text[0]] + text[1..] == s.argument + text;
    }
  }

  lemma {:induction false} ScanItems(s: Scanner, items: seq<Item>)
    requires !s.escaped && s.quote == InDouble && s.started && ValidPiece(DoubleQuoted(items))
    ensures Scan(s, RenderItems(items)) == s.(argument := s.argument + ItemsValue(items))
  {
    if items == [] {
      assert s.argument + [] == s.argument;
    } else {
      var front, last := items[..|items| - 1], items[|items| - 1];
      ScanItems(s, front);
      var mid := s.(argument := s.argument + ItemsValue(front));
      if last.Backslashed? {
        assert RenderItems(front) + [BACKSLASH, last.u] == RenderItems(front) + [BACKSLASH] + [last.u];
        ScanSnoc(s, RenderItems(front), BACKSLASH);
        ScanSnoc(s, RenderItems(front) + [BACKSLASH], last.u);
      } else {
        assert ValidItem(last);
        ScanSnoc(s, RenderItems(front), last.u);
      }
      assert s.argument + ItemsValue(front) + [last.u] == s.argument + (ItemsValue(front) + [last.u]);
    }
  }

  lemma ScanPiece(s: Scanner, p: Piece)
    requires Complete(s) && ValidPiece(p)
    ensures Scan(s, RenderPiece(p)) == s.(argument := s.argument + PieceValue(p), started := true)
  {
    match p
    case Plain(u) => ScanSnoc(s, [], u); assert [] + [u] == [u];
    case Escape(u) =>
      ScanSnoc(s, [], BACKSLASH);
      ScanSnoc(s, [BACKSLASH], u);
      assert [] + [BACKSLASH] == [BACKSLASH] && [BACKSLASH] + [u] == [BACKSLASH, u];
    case SingleQuoted(text) =>
      var inside := s.(quote := InSingle, started := true);
      ScanSnoc(s, [SINGLE] + text, SINGLE);
      assert ([SINGLE] + text)[1..] == text;
      ScanSingle(inside, text);
    case DoubleQuoted(items) =>
      var inside := s.(quote := InDouble, started := true);
      ScanSnoc(s, [DOUBLE] + RenderItems(items), DOUBLE);
      assert ([DOUBLE] + RenderItems(items))[1..] == RenderItems(items);
      ScanItems(inside, items);
  }

  lemma Associate(a: Text, b: Text, c: Text)
    ensures a + b + c == a + (b + c)
  {
  }

  lemma {:induction false} ScanWord(s: Scanner, w: seq<Piece>)
    requires Complete(s) && ValidWord(w)
    ensures Scan(s, RenderWord(w)) ==
            s.(argument := s.argument + WordValue(w), started := s.started || w != [])
  {
    if w == [] {
      assert s.argument + [] == s.argument;
    } else {
      var front, last := w[..|w| - 1], w[|w| - 1];
      ScanWord(s, front);
      var mid := s.(argument := s.argument + WordValue(front), started := s.started || front != []);
      ScanAppend(s, RenderWord(front), RenderPiece(last));
      ScanPiece(mid, last);
      Associate(s.argument, WordValue(front), PieceValue(last));
    }
  }

  lemma {:induction false} ScanGap(s: Scanner, gap: Text)
    requires Complete(s) && AllSpace(gap) && (!s.started ==> s.argument == [])
    ensures Scan(s, gap) == if gap == [] then s else Scanner(Words(s), [], Bare, false, false)
    decreases gap
  {
    if gap != [] {
      ScanGap(Feed(s, gap[0]), gap[1..]);
    }
  }

  /** Soundness of the grammar: a line scans as the values of its words. */
  lemma {:induction false} ScanLine(line: seq<Chunk>)
    requires ValidLine(line)
    ensures var s := Scan(BEGIN, RenderLine(line));
            Complete(s) && Words(s) == LineValues(line) &&
            (line != [] && line[|line| - 1].gap == [] ==> s.started) &&
            (line == [] || line[|line| - 1].gap != [] ==> !s.started && s.argument == [])
  {
    if line != [] {
      var front, last := line[..|line| - 1], line[|line| - 1];
      assert front != [] ==> front[|front| - 1] == line[|line| - 2];
      ScanLine(front);
      var s := Scan(BEGIN, RenderLine(front));
      assert [] + WordValue(last.word) == WordValue(last.word);
      ScanAppend(BEGIN, RenderLine(front), RenderWord(last.word));
      ScanWord(s, last.word);
      ScanAppend(BEGIN, RenderLine(front) + RenderWord(last.word), last.gap);
      ScanGap(s.(argument := WordValue(last.word), started := true), last.gap);
    }
  }

  /** A text read so far: finished words, the current word, and what is still open in it. */
  datatype Derivation = Derivation(lead: Text, line: seq<Chunk>, word: seq<Piece>, open: Open, escaped: bool)

  datatype Open = Closed | Single(text: Text) | Double(items: seq<Item>)

  predicate ValidDerivation(d: Derivation) {
    AllSpace(d.lead) && ValidLine(d.line) && (d.line != [] ==> d.line[|d.line| - 1].gap != []) &&
    ValidWord(d.word) && (d.escaped ==> !d.open.Single?) &&
    (match d.open
     case Closed => true
     case Single(text) => SINGLE !in text
     case Double(items) => ValidPiece(DoubleQuoted(items)))
  }

  function RenderOpen(d: Derivation): Text {
    (match d.open
     case Closed => []
     case Single(text) => [SINGLE] + text
     case Double(items) => [DOUBLE] + RenderItems(items)) +
    (if d.escaped then [BACKSLASH] else [])
  }

  function RenderDerivation(d: Derivation): Text {
    d.lead + RenderLine(d.line) + RenderWord(d.word) + RenderOpen(d)
  }

  function StateOf(d: Derivation): Scanner {
    var value := match d.open case Closed => [] case Single(text) => text case Double(items) => ItemsValue(items);
    Scanner(LineValues(d.line), WordValue(d.word) + value,
            match d.open case Closed => Bare case Single(_) => InSingle case Double(_) => InDouble,
            d.escaped, d.word != [] || d.open != Closed || d.escaped)
  }

  lemma SnocWord(w: seq<Piece>, p: Piece)
    ensures RenderWord(w + [p]) == RenderWord(w) + RenderPiece(p)
    ensures WordValue(w + [p]) == WordValue(w) + PieceValue(p)
    ensures ValidWord(w) && ValidPiece(p) ==> ValidWord(w + [p])
  {
    assert (w + [p])[..|w|] == w;
  }

  lemma SnocItems(items: seq<Item>, i: Item)
    ensures RenderItems(items + [i]) ==
            RenderItems(items) + (match i case Literal(u) => [u] case Backslashed(u) => [BACKSLASH, u])
    ensures ItemsValue(items + [i]) == ItemsValue(items) + [i.u]
  {
    assert (items + [i])[..|items|] == items;
  }

  lemma SnocLine(line: seq<Chunk>, c: Chunk)
    ensures RenderLine(line + [c]) == RenderLine(line) + RenderWord(c.word) + c.gap
    ensures LineValues(line + [c]) == LineValues(line) + [WordValue(c.word)]
  {
    assert (line + [c])[..|line|] == line;
  }

  lemma Regroup(a: Text, b: Text, word: Text, open: Text, word': Text, open': Text, u: Unit)
    requires word' + open' == word + open + [u]
    ensures a + b + word' + open' == a + b + word + open + [u]
  {
    assert a + b + word' + open' == a + b + (word' + open');
    assert a + b + word + open + [u] == a + b + (word + open + [u]);
  }

  /** `e` reads one unit more than `d`. */
  ghost predicate Extends(d: Derivation, u: Unit, e: Derivation) {
    ValidDerivation(e) && StateOf(e) == Feed(StateOf(d), u) && RenderDerivation(e) == RenderDerivation(d) + [u]
  }

  /** The step when only the current word and what is open in it change. */
  lemma ExtendWord(d: Derivation, u: Unit, e: Derivation)
    requires ValidDerivation(d) && e == d.(word := e.word, open := e.open, escaped := e.escaped)
    requires ValidDerivation(e) && StateOf(e) == Feed(StateOf(d), u)
    requires RenderWord(e.word) + RenderOpen(e) == RenderWord(d.word) + RenderOpen(d) + [u]
    ensures Extends(d, u, e)
  {
    Regroup(d.lead, RenderLine(d.line), RenderWord(d.word), RenderOpen(d), RenderWord(e.word), RenderOpen(e), u);
  }

  /** The scanner's variables when no quote is open. */
  lemma WordOnly(d: Derivation)
    requires d.open == Closed && !d.escaped
    ensures StateOf(d) == Scanner(LineValues(d.line), WordValue(d.word), Bare, false, d.word != [])
  {
    assert WordValue(d.word) + [] == WordValue(d.word);
  }

  lemma SnocWordValue(w: seq<Piece>, p: Piece)
    ensures WordValue(w + [p]) == WordValue(w) + PieceValue(p)
  {
    assert (w + [p])[..|w|] == w;
  }

  lemma SnocWordRender(w: seq<Piece>, p: Piece)
    ensures RenderWord(w + [p]) == RenderWord(w) + RenderPiece(p)
  {
    assert (w + [p])[..|w|] == w;
  }

  /** A quote ends what it opened. */
  lemma QuoteEnds(s: Scanner, u: Unit)
    requires !s.escaped && ((s.quote == InSingle && u == SINGLE) || (s.quote == InDouble && u == DOUBLE))
    ensures Feed(s, u) == s.(quote := Bare, started := true)
  {
  }

  lemma CloseQuoteFeeds(d: Derivation, u: Unit, p: Piece)
    requires !d.escaped
    requires (u == SINGLE && d.open.Single? && p == SingleQuoted(d.open.text)) ||
             (u == DOUBLE && d.open.Double? && p == DoubleQuoted(d.open.items))
    ensures StateOf(d.(word := d.word + [p], open := Closed)) == Feed(StateOf(d), u)
  {
    WordOnly(d.(word := d.word + [p], open := Closed));
    SnocWordValue(d.word, p);
    QuoteEnds(StateOf(d), u);
  }

  lemma CloseQuoteRenders(d: Derivation, u: Unit, p: Piece)
    requires !d.escaped
    requires (u == SINGLE && d.open.Single? && p == SingleQuoted(d.open.text)) ||
             (u == DOUBLE && d.open.Double? && p == DoubleQuoted(d.open.items))
    ensures RenderWord(d.word + [p]) + [] == RenderWord(d.word) + RenderOpen(d) + [u]
  {
    SnocWordRender(d.word, p);
    assert RenderPiece(p) == RenderOpen(d) + [u];
    LastUnit(RenderWord(d.word), RenderOpen(d), u);
  }

  lemma LastUnit(front: Text, open: Text, u: Unit)
    ensures front + (open + [u]) + [] == front + open + [u]
  {
  }

  lemma CloseQuote(d: Derivation, u: Unit, p: Piece)
    requires ValidDerivation(d) && !d.escaped
    requires (u == SINGLE && d.open.Single? && p == SingleQuoted(d.open.text)) ||
             (u == DOUBLE && d.open.Double? && p == DoubleQuoted(d.open.items))
    ensures Extends(d, u, d.(word := d.word + [p], open := Closed))
  {
    CloseQuoteFeeds(d, u, p);
    CloseQuoteRenders(d, u, p);
    ExtendWord(d, u, d.(word := d.word + [p], open := Closed));
  }

  lemma ExtendSingle(d: Derivation, u: Unit) returns (e: Derivation)
    requires ValidDerivation(d) && d.open.Single?
    ensures Extends(d, u, e)
  {
    var text := d.open.text;
    if u == SINGLE {
      e := d.(word := d.word + [SingleQuoted(text)], open := Closed);
      CloseQuote(d, u, SingleQuoted(text));
    } else {
      e := d.(open := Single(text + [u]));
      ExtendWord(d, u, e);
    }
  }

  lemma ItemRenders(items: seq<Item>, item: Item)
    ensures [DOUBLE] + RenderItems(items + [item]) ==
            [DOUBLE] + RenderItems(items) + (if item.Backslashed? then [BACKSLASH] else []) + [item.u]
  {
    SnocItems(items, item);
    var inner := RenderItems(items);
    assert inner + [BACKSLASH, item.u] == inner + [BACKSLASH] + [item.u];
  }

  /** The scanner's variables inside double quotes. */
  lemma DoubleOpen(d: Derivation)
    requires d.open.Double?
    ensures StateOf(d) ==
            Scanner(LineValues(d.line), WordValue(d.word) + ItemsValue(d.open.items), InDouble, d.escaped, true)
  {
  }

  /** A unit that stands for itself inside double quotes, escaped or not. */
  lemma ItemFeeds(s: Scanner, u: Unit)
    requires s.quote == InDouble && s.started && (s.escaped || ValidItem(Literal(u)))
    ensures Feed(s, u) == s.(argument := s.argument + [u], escaped := false)
  {
  }

  lemma ItemKeepsState(d: Derivation, u: Unit, item: Item)
    requires d.open.Double? && ValidItem(item) && item.u == u && (item.Backslashed? <==> d.escaped)
    ensures StateOf(d.(open := Double(d.open.items + [item]), escaped := false)) == Feed(StateOf(d), u)
  {
    DoubleOpen(d);
    DoubleOpen(d.(open := Double(d.open.items + [item]), escaped := false));
    ItemFeeds(StateOf(d), u);
    SnocItems(d.open.items, item);
    Associate(WordValue(d.word), ItemsValue(d.open.items), [u]);
  }

  lemma ItemKeepsRender(d: Derivation, u: Unit, item: Item)
    requires d.open.Double? && item.u == u && (item.Backslashed? <==> d.escaped)
    ensures RenderWord(d.word) + RenderOpen(d.(open := Double(d.open.items + [item]), escaped := false)) ==
            RenderWord(d.word) + RenderOpen(d) + [u]
  {
    var e := d.(open := Double(d.open.items + [item]), escaped := false);
    assert RenderOpen(e) == RenderOpen(d) + [u] by {
      ItemRenders(d.open.items, item);
    }
    Associate(RenderWord(d.word), RenderOpen(d), [u]);
  }

  lemma ExtendItem(d: Derivation, u: Unit, item: Item)
    requires ValidDerivation(d) && d.open.Double? && ValidItem(item) && item.u == u
    requires item.Backslashed? <==> d.escaped
    ensures Extends(d, u, d.(open := Double(d.open.items + [item]), escaped := false))
  {
    var e := d.(open := Double(d.open.items + [item]), escaped := false);
    ItemKeepsState(d, u, item);
    ItemKeepsRender(d, u, item);
    ExtendWord(d, u, e);
  }

  lemma ExtendDouble(d: Derivation, u: Unit) returns (e: Derivation)
    requires ValidDerivation(d) && d.open.Double?
    ensures Extends(d, u, e)
  {
    var items := d.open.items;
    if d.escaped {
      e := d.(open := Double(items + [Backslashed(u)]), escaped := false);
      ExtendItem(d, u, Backslashed(u));
    } else if u == BACKSLASH {
      e := d.(escaped := true);
      ExtendWord(d, u, e);
    } else if u == DOUBLE {
      e := d.(word := d.word + [DoubleQuoted(items)], open := Closed);
      CloseQuote(d, u, DoubleQuoted(items));
    } else {
      e := d.(open := Double(items + [Literal(u)]));
      ExtendItem(d, u, Literal(u));
    }
  }

  lemma EndWordValid(d: Derivation, u: Unit)
    requires ValidDerivation(d) && d.open == Closed && !d.escaped && IsSpace(u) && d.word != []
    ensures ValidDerivation(d.(line := d.line + [Chunk(d.word, [u])], word := []))
  {
  }

  lemma EndWordValues(line: seq<Chunk>, word: seq<Piece>, gap: Text)
    ensures LineValues(line + [Chunk(word, gap)]) == LineValues(line) + [WordValue(word)]
  {
    assert (line + [Chunk(word, gap)])[..|line|] == line;
  }

  /** White space outside quotes ends a started word. */
  lemma SpaceEndsWord(s: Scanner, u: Unit)
    requires Complete(s) && s.started && IsSpace(u)
    ensures Feed(s, u) == Scanner(s.parsed + [s.argument], [], Bare, false, false)
  {
  }

  lemma EndWordFeeds(d: Derivation, u: Unit)
    requires d.open == Closed && !d.escaped && IsSpace(u) && d.word != []
    ensures StateOf(d.(line := d.line + [Chunk(d.word, [u])], word := [])) == Feed(StateOf(d), u)
  {
    WordOnly(d);
    WordOnly(d.(line := d.line + [Chunk(d.word, [u])], word := []));
    EndWordValues(d.line, d.word, [u]);
    SpaceEndsWord(StateOf(d), u);
  }

  lemma EndWordRenders(d: Derivation, u: Unit)
    requires d.open == Closed && !d.escaped && d.word != []
    ensures RenderDerivation(d.(line := d.line + [Chunk(d.word, [u])], word := [])) == RenderDerivation(d) + [u]
  {
    SnocLine(d.line, Chunk(d.word, [u]));
    EndWordConcat(d.lead, RenderLine(d.line), RenderWord(d.word), u);
  }

  lemma EndWordConcat(lead: Text, line: Text, word: Text, u: Unit)
    ensures lead + (line + word + [u]) + [] + [] == lead + line + word + [] + [u]
  {
  }

  lemma WidenGapValid(d: Derivation, u: Unit, front: seq<Chunk>, last: Chunk)
    requires ValidDerivation(d) && d.line == front + [last] && IsSpace(u)
    ensures ValidDerivation(d.(line := front + [last.(gap := last.gap + [u])]))
  {
    var e := d.(line := front + [last.(gap := last.gap + [u])]);
    assert forall k :: 0 <= k < |front| ==> d.line[k] == front[k] && e.line[k] == front[k];
    assert d.line[|front|] == last;
  }

  lemma WidenGapFeeds(d: Derivation, u: Unit, front: seq<Chunk>, last: Chunk)
    requires d.open == Closed && !d.escaped && IsSpace(u) && d.word == [] && d.line == front + [last]
    ensures StateOf(d.(line := front + [last.(gap := last.gap + [u])])) == Feed(StateOf(d), u)
  {
    SnocLine(front, last);
    SnocLine(front, last.(gap := last.gap + [u]));
  }

  lemma WidenGapRenders(d: Derivation, u: Unit, front: seq<Chunk>, last: Chunk)
    requires d.open == Closed && !d.escaped && d.word == [] && d.line == front + [last]
    ensures RenderDerivation(d.(line := front + [last.(gap := last.gap + [u])])) == RenderDerivation(d) + [u]
  {
    SnocLine(front, last);
    SnocLine(front, last.(gap := last.gap + [u]));
    WidenGapConcat(d.lead, RenderLine(front) + RenderWord(last.word), last.gap, u);
  }

  lemma WidenGapConcat(lead: Text, start: Text, gap: Text, u: Unit)
    ensures lead + (start + (gap + [u])) + [] + [] == lead + (start + gap) + [] + [] + [u]
  {
  }

  lemma ExtendSpace(d: Derivation, u: Unit) returns (e: Derivation)
    requires ValidDerivation(d) && d.open == Closed && !d.escaped && IsSpace(u)
    ensures Extends(d, u, e)
  {
    if d.word != [] {
      e := d.(line := d.line + [Chunk(d.word, [u])], word := []);
      EndWordValid(d, u);
      EndWordFeeds(d, u);
      EndWordRenders(d, u);
    } else if d.line == [] {
      e := d.(lead := d.lead + [u]);
    } else {
      var n := |d.line| - 1;
      var front, last := d.line[..n], d.line[n];
      e := d.(line := front + [last.(gap := last.gap + [u])]);
      WidenGapValid(d, u, front, last);
      WidenGapFeeds(d, u, front, last);
      WidenGapRenders(d, u, front, last);
    }
  }

  /** A unit that stands for itself, escaped or not. */
  lemma UnitFeeds(s: Scanner, u: Unit)
    requires s.quote == Bare && (s.escaped || ValidPiece(Plain(u)))
    ensures Feed(s, u) == s.(argument := s.argument + [u], escaped := false, started := true)
  {
  }

  lemma WordOpen(d: Derivation)
    requires d.open == Closed
    ensures StateOf(d) == Scanner(LineValues(d.line), WordValue(d.word), Bare, d.escaped, d.word != [] || d.escaped)
  {
    assert WordValue(d.word) + [] == WordValue(d.word);
  }

  lemma AddPieceFeeds(d: Derivation, u: Unit, p: Piece)
    requires d.open == Closed && p == (if d.escaped then Escape(u) else Plain(u)) && ValidPiece(p)
    ensures StateOf(d.(word := d.word + [p], escaped := false)) == Feed(StateOf(d), u)
  {
    WordOpen(d);
    WordOnly(d.(word := d.word + [p], escaped := false));
    SnocWordValue(d.word, p);
    UnitFeeds(StateOf(d), u);
  }

  lemma AddPieceRenders(d: Derivation, u: Unit, p: Piece)
    requires d.open == Closed && p == (if d.escaped then Escape(u) else Plain(u))
    ensures RenderWord(d.word + [p]) + [] == RenderWord(d.word) + RenderOpen(d) + [u]
  {
    SnocWordRender(d.word, p);
    assert RenderPiece(p) == RenderOpen(d) + [u];
    LastUnit(RenderWord(d.word), RenderOpen(d), u);
  }

  lemma AddPiece(d: Derivation, u: Unit, p: Piece)
    requires ValidDerivation(d) && d.open == Closed && ValidPiece(p)
    requires p == (if d.escaped then Escape(u) else Plain(u))
    ensures Extends(d, u, d.(word := d.word + [p], escaped := false))
  {
    AddPieceFeeds(d, u, p);
    AddPieceRenders(d, u, p);
    ExtendWord(d, u, d.(word := d.word + [p], escaped := false));
  }

  lemma StartEscape(d: Derivation)
    requires ValidDerivation(d) && d.open == Closed && !d.escaped
    ensures Extends(d, BACKSLASH, d.(escaped := true))
  {
    WordOpen(d);
    WordOpen(d.(escaped := true));
    LastUnit(RenderWord(d.word), [], BACKSLASH);
    ExtendWord(d, BACKSLASH, d.(escaped := true));
  }

  function Opened(d: Derivation, u: Unit): Derivation {
    d.(open := if u == SINGLE then Single([]) else Double([]))
  }

  lemma StartQuoteFeeds(d: Derivation, u: Unit)
    requires d.open == Closed && !d.escaped && (u == SINGLE || u == DOUBLE)
    ensures StateOf(Opened(d, u)) == Feed(StateOf(d), u)
  {
    WordOpen(d);
    assert WordValue(d.word) + [] == WordValue(d.word);
  }

  lemma StartQuoteRenders(d: Derivation, u: Unit)
    requires d.open == Closed && !d.escaped && (u == SINGLE || u == DOUBLE)
    ensures RenderWord(d.word) + RenderOpen(Opened(d, u)) == RenderWord(d.word) + RenderOpen(d) + [u]
  {
    assert RenderOpen(Opened(d, u)) == [u] && RenderOpen(d) == [];
    assert RenderWord(d.word) + [] == RenderWord(d.word);
  }

  lemma StartQuote(d: Derivation, u: Unit)
    requires ValidDerivation(d) && d.open == Closed && !d.escaped && (u == SINGLE || u == DOUBLE)
    ensures Extends(d, u, Opened(d, u))
  {
    StartQuoteFeeds(d, u);
    StartQuoteRenders(d, u);
    ExtendWord(d, u, Opened(d, u));
  }

  lemma ExtendBare(d: Derivation, u: Unit) returns (e: Derivation)
    requires ValidDerivation(d) && d.open == Closed && (d.escaped || !IsSpace(u))
    ensures Extends(d, u, e)
  {
    if d.escaped {
      e := d.(word := d.word + [Escape(u)], escaped := false);
      AddPiece(d, u, Escape(u));
    } else if u == BACKSLASH {
      e := d.(escaped := true);
      StartEscape(d);
    } else if u == SINGLE || u == DOUBLE {
      e := Opened(d, u);
      StartQuote(d, u);
    } else {
      e := d.(word := d.word + [Plain(u)], escaped := false);
      AddPiece(d, u, Plain(u));
    }
  }

  /** `d` is a valid partial derivation of `text`, and the scanner's variables are its meaning. */
  ghost predicate Explains(d: Derivation, text: Text) {
    ValidDerivation(d) && RenderDerivation(d) == text && StateOf(d) == Scan(BEGIN, text)
  }

  lemma ExplainsMore(d: Derivation, text: Text, u: Unit, e: Derivation)
    requires Explains(d, text) && Extends(d, u, e)
    ensures Explains(e, text + [u])
  {
    ScanSnoc(BEGIN, text, u);
  }

  lemma ExtendOne(d: Derivation, u: Unit) returns (e: Derivation)
    requires ValidDerivation(d)
    ensures Extends(d, u, e)
  {
    if d.open.Single? {
      e := ExtendSingle(d, u);
    } else if d.open.Double? {
      e := ExtendDouble(d, u);
    } else if IsSpace(u) && !d.escaped {
      e := ExtendSpace(d, u);
    } else {
      e := ExtendBare(d, u);
    }
  }

  lemma NothingRead() returns (d: Derivation)
    ensures Explains(d, [])
  {
    d := Derivation([], [], [], Closed, false);
  }

  lemma ExplainOne(before: Derivation, front: Text, u: Unit) returns (d: Derivation)
    requires Explains(before, front)
    ensures Explains(d, front + [u])
  {
    d := ExtendOne(before, u);
    ExplainsMore(before, front, u, d);
  }

  lemma {:induction false} EveryTextExplained(text: Text) returns (d: Derivation)
    ensures Explains(d, text)
  {
    if text == [] {
      d := NothingRead();
    } else {
      var front, u := text[..|text| - 1], text[|text| - 1];
      assert text == front + [u];
      var before := EveryTextExplained(front);
      d := ExplainOne(before, front, u);
    }
  }

  lemma TrimStartStarts(t: Text)
    ensures TrimStart(t) != [] ==> !IsSpace(TrimStart(t)[0])
  {
  }

  lemma TrimEndKeepsHead(t: Text)
    ensures TrimEnd(t) != [] ==> t != [] && TrimEnd(t)[0] == t[0]
  {
  }

  function Close(d: Derivation): seq<Chunk> {
    if d.word == [] then d.line else d.line + [Chunk(d.word, [])]
  }

  lemma CloseRenders(d: Derivation)
    requires d.lead == [] && d.open == Closed && !d.escaped
    ensures RenderLine(Close(d)) == RenderDerivation(d)
  {
    SnocLine(d.line, Chunk(d.word, []));
    CloseConcat(RenderLine(d.line), RenderWord(d.word));
  }

  lemma CloseConcat(line: Text, word: Text)
    ensures [] + line + word + ([] + []) == line + word + []
    ensures line + [] + [] == line
  {
  }

  lemma CloseMeans(d: Derivation)
    requires d.open == Closed && !d.escaped
    ensures LineValues(Close(d)) == Words(StateOf(d))
  {
    SnocLine(d.line, Chunk(d.word, []));
    assert WordValue(d.word) + [] == WordValue(d.word);
  }

  lemma CloseValid(d: Derivation)
    requires ValidDerivation(d)
    ensures ValidLine(Close(d))
  {
  }

  lemma LeadIsSpace(d: Derivation)
    requires ValidDerivation(d) && d.lead != []
    ensures RenderDerivation(d) != [] && IsSpace(RenderDerivation(d)[0])
  {
    LeadFirst(d.lead, RenderLine(d.line), RenderWord(d.word), RenderOpen(d));
    assert IsSpace(d.lead[0]);
  }

  lemma LeadFirst(lead: Text, line: Text, word: Text, open: Text)
    requires lead != []
    ensures |lead + line + word + open| > 0 && (lead + line + word + open)[0] == lead[0]
  {
  }

  lemma TrimmedStart(value: Text)
    ensures Trim(value) != [] ==> !IsSpace(Trim(value)[0])
  {
    TrimStartStarts(value);
    TrimEndKeepsHead(TrimStart(value));
  }

  ghost predicate ReadsAs(line: seq<Chunk>, text: Text, argv: seq<Text>) {
    ValidLine(line) && RenderLine(line) == text && LineValues(line) == argv
  }

  lemma AcceptedIsLine(text: Text) returns (line: seq<Chunk>)
    requires Complete(Scan(BEGIN, text)) && (text != [] ==> !IsSpace(text[0]))
    ensures ReadsAs(line, text, Words(Scan(BEGIN, text)))
  {
    var d := EveryTextExplained(text);
    if d.lead != [] {
      LeadIsSpace(d);
    }
    line := Close(d);
    CloseValid(d);
    CloseRenders(d);
    CloseMeans(d);
  }

  /** The tokeniser accepts a text exactly when its trimmed form is a line of the grammar whose
      word values are within the limits, and then returns those values. */
  lemma AcceptsExactlyLines(value: Text, argv: seq<Text>)
    ensures Interpret(value) == Argv(argv) <==>
            WithinLimits(argv) && exists line :: ReadsAs(line, Trim(value), argv)
  {
    if Interpret(value) == Argv(argv) {
      TrimmedStart(value);
      var line := AcceptedIsLine(Trim(value));
    }
    if exists line :: ReadsAs(line, Trim(value), argv) {
      var line :| ReadsAs(line, Trim(value), argv);
      ScanLine(line);
    }
  }

  /** The two refusals: a text that is no line of the grammar has an unfinished quote or escape, and a
      line is refused exactly when its words are outside the limits. */
  lemma RefusalsMean(value: Text)
    ensures Interpret(value) == Unfinished <==> !exists line :: ValidLine(line) && RenderLine(line) == Trim(value)
    ensures Interpret(value) == OutOfLimits <==>
            exists line :: ValidLine(line) && RenderLine(line) == Trim(value) && !WithinLimits(LineValues(line))
  {
    if Complete(Scan(BEGIN, Trim(value))) {
      TrimmedStart(value);
      var line := AcceptedIsLine(Trim(value));
    }
    forall line | ValidLine(line) && RenderLine(line) == Trim(value)
      ensures Complete(Scan(BEGIN, Trim(value))) && Words(Scan(BEGIN, Trim(value))) == LineValues(line)
    {
      ScanLine(line);
    }
  }

  lemma JoinedNotEmpty(argv: seq<Text>)
    requires argv != []
    ensures JoinArguments(argv) != []
  {
  }

  lemma UnavailableIsSafe()
    ensures JoinArguments([Lit("Unavailable")]) == Lit("Unavailable")
  {
    var word := Lit("Unavailable");
    forall i | 0 <= i < |word|
      ensures IsSafe(word[i])
    {
      assert "Unavailable"[i] in "Unvailbe";
    }
  }

  /** For a word that prints as itself. */
  lemma PrintsWord(argv: seq<Text>, word: Text)
    requires argv != [] && JoinArguments([word]) == word
    ensures JoinArguments(argv) == word <==> argv == [word]
  {
    if JoinArguments(argv) == word {
      PrintedDistinct(argv, [word]);
    }
  }

  /** A non-empty record is printed. */
  lemma RecordShown(argv: seq<Text>, word: Text)
    requires argv != [] && JoinArguments([word]) == word
    ensures ExecutionCommand(Recorded(argv)) == JoinArguments(argv)
    ensures ExecutionCommand(Recorded(argv)) == word <==> argv == [word]
  {
    JoinedNotEmpty(argv);
    PrintsWord(argv, word);
  }

  /** The page shows the printed command of a non-empty record; it says that there is none for a missing
      and for an empty one, which reads like the one-word command of that name. */
  lemma CommandShown(command: Command)
    ensures command.Recorded? && command.argv != [] ==> ExecutionCommand(command) == JoinArguments(command.argv)
    ensures ExecutionCommand(command) == Lit("Unavailable") <==>
            command.Missing? || command.argv == [] || command.argv == [Lit("Unavailable")]
  {
    if command.Recorded? && command.argv != [] {
      UnavailableIsSafe();
      RecordShown(command.argv, Lit("Unavailable"));
    }
  }
}
