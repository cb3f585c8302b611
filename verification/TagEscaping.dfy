/**
 * Tag values on the wire. `Unescape` is the runner's chain of five whole-string replacements;
 * `Escape` and `StandardUnescape` are the IRCv3 Message Tags specification, section "Escaping values".
 */
module TagEscaping {

  predicate IsEscapeLetter(c: char) {
    c == ':' || c == 's' || c == 'r' || c == 'n'
  }

  /** The character that a backslash and an escape letter stand for. */
  function Decoded(letter: char): (c: char)
    requires IsEscapeLetter(letter)
    ensures c != '\\' && !IsEscapeLetter(c)
  {
    match letter
    case ':' => ';'
    case 's' => ' '
    case 'r' => '\r'
    case _ => '\n'
  }

  /** `s.replace(/\\X/g, put)`: every leftmost, non-overlapping backslash-letter pair. */
  function ReplacePair(s: string, letter: char, put: char): string {
    if |s| < 2 then s
    else if s[0] == '\\' && s[1] == letter then [put] + ReplacePair(s[2..], letter, put)
    else [s[0]] + ReplacePair(s[1..], letter, put)
  }

  /** The runner's unescaping: five passes, one after the other. */
  function Unescape(value: string): string {
    var afterSemicolon := ReplacePair(value, ':', ';');
    var afterSpace := ReplacePair(afterSemicolon, 's', ' ');
    var afterReturn := ReplacePair(afterSpace, 'r', '\r');
    var afterNewline := ReplacePair(afterReturn, 'n', '\n');
    ReplacePair(afterNewline, '\\', '\\')
  }

  // ----- The standard -----

  function EscapedChar(c: char): (e: string) {
    match c
    case ';' => "\\:"
    case ' ' => "\\s"
    case '\\' => "\\\\"
    case '\r' => "\\r"
    case '\n' => "\\n"
    case _ => [c]
  }

  function Escape(value: string): (e: string)
    ensures forall c :: c in e ==> c != ';' && c != ' ' && c != '\r' && c != '\n'
  {
    if value == "" then "" else EscapedChar(value[0]) + Escape(value[1..])
  }

  /** One scan from the left; an unknown escape drops its backslash, and so does a final one. */
  function StandardUnescape(value: string): string {
    if value == "" then ""
    else if value[0] != '\\' then [value[0]] + StandardUnescape(value[1..])
    else if |value| == 1 then ""
    else if IsEscapeLetter(value[1]) then [Decoded(value[1])] + StandardUnescape(value[2..])
    else [value[1]] + StandardUnescape(value[2..])
  }

  // ----- The five passes are one scan -----

  /**
   * What the five passes amount to: one scan from the left that, at a doubled backslash, looks one
   * character further. A doubled backslash before an escape letter is read as a backslash and an
   * escape; an unknown escape and a final backslash are kept.
   */
  function Scan(value: string): string {
    if value == "" then ""
    else if value[0] != '\\' || |value| == 1 then [value[0]] + Scan(value[1..])
    else if IsEscapeLetter(value[1]) then [Decoded(value[1])] + Scan(value[2..])
    else if value[1] == '\\' then
      if |value| > 2 && IsEscapeLetter(value[2]) then ['\\', Decoded(value[2])] + Scan(value[3..])
      else ['\\'] + Scan(value[2..])
    else ['\\'] + Scan(value[1..])
  }

  /** The first four passes together. */
  function LettersDecoded(value: string): string {
    if |value| < 2 then value
    else if value[0] == '\\' && IsEscapeLetter(value[1]) then [Decoded(value[1])] + LettersDecoded(value[2..])
    else [value[0]] + LettersDecoded(value[1..])
  }

  predicate StartsWithLetter(s: string) {
    s != "" && IsEscapeLetter(s[0])
  }

  lemma PassOnOther(s: string, letter: char, put: char)
    requires s != "" && (s[0] != '\\' || |s| == 1 || s[1] != letter)
    ensures ReplacePair(s, letter, put) == [s[0]] + ReplacePair(s[1..], letter, put)
  {
    if |s| == 1 {
      assert s[1..] == "";
    }
  }

  lemma PassKeepsHead(s: string, letter: char, put: char)
    requires !IsEscapeLetter(put)
    ensures StartsWithLetter(s) <==> StartsWithLetter(ReplacePair(s, letter, put))
  {
    if |s| >= 2 && s[0] == '\\' && s[1] == letter {
      assert ReplacePair(s, letter, put)[0] == put;
    }
  }

  /** The four letter passes applied to a text whose first character no pass touches. */
  lemma FourPassesStep(s: string)
    requires s != "" && (s[0] != '\\' || !StartsWithLetter(s[1..]))
    ensures FourPasses(s) == [s[0]] + FourPasses(s[1..])
  {
    var t := s[1..];
    var t1 := ReplacePair(t, ':', ';');
    var t2 := ReplacePair(t1, 's', ' ');
    var t3 := ReplacePair(t2, 'r', '\r');
    PassKeepsHead(t, ':', ';');
    PassKeepsHead(t1, 's', ' ');
    PassKeepsHead(t2, 'r', '\r');
    PassOnOther(s, ':', ';');
    PassPrepend(s[0], t1, 's', ' ');
    PassPrepend(s[0], t2, 'r', '\r');
    PassPrepend(s[0], t3, 'n', '\n');
  }

  lemma PassPrepend(c: char, t: string, letter: char, put: char)
    requires c != '\\' || t == "" || t[0] != letter
    ensures ReplacePair([c] + t, letter, put) == [c] + ReplacePair(t, letter, put)
  {
    PassOnOther([c] + t, letter, put);
    assert ([c] + t)[1..] == t;
  }

  function FourPasses(value: string): string {
    ReplacePair(ReplacePair(ReplacePair(ReplacePair(value, ':', ';'), 's', ' '), 'r', '\r'), 'n', '\n')
  }

  lemma {:induction false} FourPassesDecodeLetters(value: string)
    ensures FourPasses(value) == LettersDecoded(value)
  {
    if value == "" {
    } else if value[0] == '\\' && StartsWithLetter(value[1..]) {
      assert value == ['\\'] + ([value[1]] + value[2..]);
      FourPassesDecodeLetters(value[2..]);
      FourPassesOnEscape(value[1], value[2..]);
    } else {
      FourPassesDecodeLetters(value[1..]);
      FourPassesStep(value);
    }
  }

  lemma FourPassesOnEscape(letter: char, rest: string)
    requires IsEscapeLetter(letter)
    ensures FourPasses(['\\'] + ([letter] + rest)) == [Decoded(letter)] + FourPasses(rest)
  {
    var r1 := ReplacePair(rest, ':', ';');
    var r2 := ReplacePair(r1, 's', ' ');
    var r3 := ReplacePair(r2, 'r', '\r');
    PassOnEscape(letter, rest, ':', ';');
    PassOnEscape(letter, r1, 's', ' ');
    PassOnEscape(letter, r2, 'r', '\r');
    PassOnEscape(letter, r3, 'n', '\n');
    var d := Decoded(letter);
    PassPrepend(d, r1, 's', ' ');
    PassPrepend(d, r2, 'r', '\r');
    PassPrepend(d, r3, 'n', '\n');
  }

  lemma PassOnEscape(first: char, rest: string, letter: char, put: char)
    requires IsEscapeLetter(first) && IsEscapeLetter(letter)
    ensures ReplacePair(['\\'] + ([first] + rest), letter, put)
         == if first == letter then [put] + ReplacePair(rest, letter, put)
            else ['\\'] + ([first] + ReplacePair(rest, letter, put))
  {
    if first == letter {
      assert (['\\'] + ([first] + rest))[2..] == rest;
    } else {
      PassPrepend(first, rest, letter, put);
      PassPrepend('\\', [first] + rest, letter, put);
    }
  }

  /** The runner's five passes compute exactly the one-pass scan. */
  lemma UnescapeIsScan(value: string)
    ensures Unescape(value) == Scan(value)
  {
    FourPassesDecodeLetters(value);
    LastPass(value);
  }

  /** A doubled backslash before an escape letter: the last pass leaves its second half for the letter. */
  lemma LastPassBeforeLetter(value: string)
    requires |value| > 2 && value[0] == '\\' && value[1] == '\\' && IsEscapeLetter(value[2])
    requires ReplacePair(LettersDecoded(value[3..]), '\\', '\\') == Scan(value[3..])
    ensures ReplacePair(LettersDecoded(value), '\\', '\\') == Scan(value)
  {
    var tail := [Decoded(value[2])] + LettersDecoded(value[3..]);
    assert value[1..][2..] == value[3..];
    assert LettersDecoded(value[1..]) == tail;
    PassPrepend('\\', tail, '\\', '\\');
    PassPrepend(Decoded(value[2]), LettersDecoded(value[3..]), '\\', '\\');
  }

  lemma LastPassDoubled(value: string)
    requires |value| >= 2 && value[0] == '\\' && value[1] == '\\'
    requires |value| > 2 ==> !IsEscapeLetter(value[2])
    requires ReplacePair(LettersDecoded(value[2..]), '\\', '\\') == Scan(value[2..])
    ensures ReplacePair(LettersDecoded(value), '\\', '\\') == Scan(value)
  {
    assert value[1..][1..] == value[2..];
    assert LettersDecoded(value[1..]) == ['\\'] + LettersDecoded(value[2..]);
    assert LettersDecoded(value) == ['\\', '\\'] + LettersDecoded(value[2..]);
    assert LettersDecoded(value)[2..] == LettersDecoded(value[2..]);
  }

  lemma {:induction false} LastPass(value: string)
    ensures ReplacePair(LettersDecoded(value), '\\', '\\') == Scan(value)
    decreases |value|
  {
    if value == "" {
    } else if value[0] != '\\' || |value| == 1 {
      LastPass(value[1..]);
      PassPrepend(value[0], LettersDecoded(value[1..]), '\\', '\\');
    } else if IsEscapeLetter(value[1]) {
      LastPass(value[2..]);
      PassPrepend(Decoded(value[1]), LettersDecoded(value[2..]), '\\', '\\');
    } else if value[1] == '\\' {
      if |value| > 2 && IsEscapeLetter(value[2]) {
        LastPass(value[3..]);
        LastPassBeforeLetter(value);
      } else {
        LastPass(value[2..]);
        LastPassDoubled(value);
      }
    } else {
      LastPass(value[1..]);
      PassPrepend('\\', LettersDecoded(value[1..]), '\\', '\\');
    }
  }

  // ----- Where the passes and the standard agree -----

  /**
   * Reading from the left, every backslash starts one of the five escapes, and a doubled backslash
   * is not followed by an escape letter.
   */
  predicate Unambiguous(value: string) {
    if value == "" then true
    else if value[0] != '\\' then Unambiguous(value[1..])
    else if |value| == 1 then false
    else if IsEscapeLetter(value[1]) then Unambiguous(value[2..])
    else value[1] == '\\' && !StartsWithLetter(value[2..]) && Unambiguous(value[2..])
  }

  lemma AgreesWithStandardExactly(value: string)
    ensures Unescape(value) == StandardUnescape(value) <==> Unambiguous(value)
  {
    UnescapeIsScan(value);
    ScanAgreesExactly(value);
  }

  lemma {:induction false} ScanAgreesExactly(value: string)
    ensures Scan(value) == StandardUnescape(value) <==> Unambiguous(value)
  {
    if value == "" {
    } else if value[0] != '\\' {
      ScanAgreesExactly(value[1..]);
      SameHead(value[0], Scan(value[1..]), StandardUnescape(value[1..]));
    } else if |value| == 1 {
      assert Scan(value) == ['\\'] + Scan(value[1..]);
    } else if IsEscapeLetter(value[1]) {
      ScanAgreesExactly(value[2..]);
      SameHead(Decoded(value[1]), Scan(value[2..]), StandardUnescape(value[2..]));
    } else if value[1] == '\\' {
      if StartsWithLetter(value[2..]) {
        assert Scan(value)[1] == Decoded(value[2]);
        assert StandardUnescape(value)[1] == value[2];
      } else {
        ScanAgreesExactly(value[2..]);
        SameHead('\\', Scan(value[2..]), StandardUnescape(value[2..]));
      }
    } else {
      assert Scan(value)[0] == '\\';
      assert StandardUnescape(value)[0] == value[1];
    }
  }

  lemma SameHead(c: char, s: string, t: string)
    ensures [c] + s == [c] + t <==> s == t
  {
    assert ([c] + s)[1..] == s && ([c] + t)[1..] == t;
  }

  // ----- The round trip, exactly -----

  /** What a value comes back as after escaping and the runner's unescaping. */
  function ComesBackAs(value: string): (r: string)
    ensures |r| == |value|
  {
    if value == "" then ""
    else if value[0] == '\\' && StartsWithLetter(value[1..]) then ['\\', Decoded(value[1])] + ComesBackAs(value[2..])
    else [value[0]] + ComesBackAs(value[1..])
  }

  /** Position by position: only a letter right after a backslash is changed. */
  lemma {:induction false} ComesBackAt(value: string, i: nat)
    requires i < |value|
    ensures ComesBackAs(value)[i]
         == if i > 0 && value[i - 1] == '\\' && IsEscapeLetter(value[i]) then Decoded(value[i]) else value[i]
  {
    if value[0] == '\\' && StartsWithLetter(value[1..]) {
      if i >= 2 {
        ComesBackAt(value[2..], i - 2);
        assert i == 2 ==> value[1] != '\\';
      }
    } else if i >= 1 {
      ComesBackAt(value[1..], i - 1);
    }
  }

  lemma {:induction false} ScanOfEscape(value: string)
    ensures Scan(Escape(value)) == ComesBackAs(value)
  {
    if value == "" {
    } else if value[0] != '\\' {
      ScanOfEscape(value[1..]);
      ScanOfEscapedChar(value[0], Escape(value[1..]));
    } else {
      var rest := Escape(value[1..]);
      var pair := ['\\', '\\'] + rest;
      assert Escape(value) == pair;
      EscapeHead(value[1..]);
      if StartsWithLetter(value[1..]) {
        assert value[1..][1..] == value[2..];
        assert pair[3..] == rest[1..] == Escape(value[2..]);
        ScanOfEscape(value[2..]);
      } else {
        assert pair[2..] == rest;
        ScanOfEscape(value[1..]);
      }
    }
  }

  lemma ScanOfEscapedChar(c: char, rest: string)
    requires c != '\\'
    ensures Scan(EscapedChar(c) + rest) == [c] + Scan(rest)
  {
    var e := EscapedChar(c);
    assert (e + rest)[|e|..] == rest;
    if |e| == 2 {
      assert IsEscapeLetter(e[1]) && Decoded(e[1]) == c;
    }
  }

  lemma EscapedCharHead(c: char)
    ensures EscapedChar(c) != "" && (IsEscapeLetter(EscapedChar(c)[0]) <==> IsEscapeLetter(c))
    ensures IsEscapeLetter(c) ==> EscapedChar(c) == [c]
  {
  }

  lemma EscapeHead(value: string)
    ensures StartsWithLetter(Escape(value)) <==> StartsWithLetter(value)
    ensures StartsWithLetter(value) ==> Escape(value) == [value[0]] + Escape(value[1..])
  {
    if value != "" {
      EscapedCharHead(value[0]);
      assert Escape(value) == EscapedChar(value[0]) + Escape(value[1..]);
    }
  }

  /** The round trip of every value. */
  lemma UnescapeOfEscape(value: string)
    ensures Unescape(Escape(value)) == ComesBackAs(value)
  {
    UnescapeIsScan(Escape(value));
    ScanOfEscape(value);
  }

  /** No backslash directly before an escape letter. */
  predicate Clean(value: string) {
    forall i :: 0 < i < |value| && value[i - 1] == '\\' ==> !IsEscapeLetter(value[i])
  }

  /** Escaping then unescaping gives the value back exactly when it is `Clean`. */
  lemma RoundTripExactlyWhenClean(value: string)
    ensures Unescape(Escape(value)) == value <==> Clean(value)
  {
    UnescapeOfEscape(value);
    var back := ComesBackAs(value);
    forall i | 0 <= i < |value|
      ensures back[i]
           == if i > 0 && value[i - 1] == '\\' && IsEscapeLetter(value[i]) then Decoded(value[i]) else value[i]
    {
      ComesBackAt(value, i);
    }
    if Clean(value) {
      forall i | 0 <= i < |value| ensures back[i] == value[i] {
        assert i > 0 && value[i - 1] == '\\' ==> !IsEscapeLetter(value[i]);
      }
    } else {
      var i :| 0 < i < |value| && value[i - 1] == '\\' && IsEscapeLetter(value[i]);
      assert back[i] != value[i];
    }
  }

  /** The standard's own decoder undoes `Escape` on every value, so the loss above is the runner's. */
  lemma {:induction false} StandardRoundTrip(value: string)
    ensures StandardUnescape(Escape(value)) == value
  {
    if value != "" {
      StandardRoundTrip(value[1..]);
      StandardOfEscapedChar(value[0], Escape(value[1..]));
    }
  }

  lemma StandardOfEscapedChar(c: char, rest: string)
    ensures StandardUnescape(EscapedChar(c) + rest) == [c] + StandardUnescape(rest)
  {
    var e := EscapedChar(c);
    assert (e + rest)[|e|..] == rest;
  }
}
