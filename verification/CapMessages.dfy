/** What the runner reads out of a CAP line: the subcommand, and the capability tokens of its payload. */
module CapMessages {
  import opened Text

  datatype Token = Token(name: string, value: Option<string>)

  datatype Subcommand = LS | LIST | REQ | ACK | NAK | NEW | DEL

  /** A decoded CAP message. `continuation` marks an LS reply that is not the last one. */
  datatype CapMessage = CapMessage(subcommand: Subcommand, payload: string, continuation: bool)

  // ----- Tokens -----

  predicate Spaceless(s: string) {
    forall i :: 0 <= i < |s| ==> !IsSpace(s[i])
  }

  /** What is left of `s` after a word at its head, if there is one. */
  function SkipWord(s: string): (rest: string)
    ensures |rest| <= |s|
    ensures rest != "" ==> IsSpace(rest[0])
    ensures Spaceless(s[..|s| - |rest|])
    ensures s != "" && IsSpace(s[0]) ==> rest == s
  {
    s[RunLength(s, false)..]
  }

  /** What is left of `s` after white space at its head, if there is some. */
  function SkipGap(s: string): (rest: string)
    ensures |rest| <= |s|
    ensures s != "" && IsSpace(s[0]) ==> |rest| < |s| && rest == SkipGap(s[1..])
    ensures s == "" || !IsSpace(s[0]) ==> rest == s
  {
    if s == "" || !IsSpace(s[0]) then s else SkipGap(s[1..])
  }

  /** `s.split(/\s+/)`. */
  function SplitSpaces(s: string): (pieces: seq<string>)
    decreases |s|
  {
    var rest := SkipWord(s);
    if rest == "" then [s] else [s[..|s| - |rest|]] + SplitSpaces(SkipGap(rest))
  }

  function TrimAll(pieces: seq<string>): seq<string> {
    if pieces == [] then [] else [Trim(pieces[0])] + TrimAll(pieces[1..])
  }

  predicate NonEmpty(s: string) {
    s != ""
  }

  function ParseToken(token: string, lower: string -> string): Token {
    var parts := Split(token, '=');
    Token(lower(parts[0]), if |parts| == 1 then None else Some(Join(parts[1..], "=")))
  }

  function ParseTokenList(tokens: seq<string>, lower: string -> string): (parsed: seq<Token>)
    ensures |parsed| == |tokens|
  {
    if tokens == [] then [] else [ParseToken(tokens[0], lower)] + ParseTokenList(tokens[1..], lower)
  }

  function Words(payload: string): seq<string> {
    Filter(TrimAll(SplitSpaces(payload)), NonEmpty)
  }

  /** `parseCapTokens`; `lower` is the engine's `toLowerCase`. */
  function ParseCapTokens(payload: string, lower: string -> string): seq<Token> {
    if payload == "" then [] else ParseTokenList(Words(payload), lower)
  }

  lemma {:induction false} PiecesAreSpaceless(s: string)
    ensures forall i :: 0 <= i < |SplitSpaces(s)| ==> Spaceless(SplitSpaces(s)[i])
    decreases |s|
  {
    var rest := SkipWord(s);
    if rest == "" {
      assert s[..|s|] == s;
    } else {
      PiecesAreSpaceless(SkipGap(rest));
    }
  }

  /** Trimming has nothing to remove from the pieces of the split. */
  lemma {:induction false} TrimOfPieces(pieces: seq<string>)
    requires forall i :: 0 <= i < |pieces| ==> Spaceless(pieces[i])
    ensures TrimAll(pieces) == pieces
  {
    if pieces != [] {
      TrimOfPieces(pieces[1..]);
      TrimOfWord(pieces[0]);
    }
  }

  lemma TrimOfWord(word: string)
    requires Spaceless(word)
    ensures Trim(word) == word
  {
    if word != "" {
      NothingToTrim(word);
    }
  }

  lemma WordsAreNonEmptyPieces(s: string)
    ensures Words(s) == Filter(SplitSpaces(s), NonEmpty)
  {
    PiecesAreSpaceless(s);
    TrimOfPieces(SplitSpaces(s));
  }

  lemma FilterSkipsEmpty(pieces: seq<string>)
    ensures Filter([""] + pieces, NonEmpty) == Filter(pieces, NonEmpty)
  {
    assert ([""] + pieces)[1..] == pieces;
  }

  lemma FilterKeepsWord(word: string, pieces: seq<string>)
    requires word != ""
    ensures Filter([word] + pieces, NonEmpty) == [word] + Filter(pieces, NonEmpty)
  {
    assert ([word] + pieces)[1..] == pieces;
  }

  /** Leading white space leaves one empty piece, which is filtered out. */
  lemma WordsSkipGap(s: string)
    ensures Words(s) == Words(SkipGap(s))
  {
    if s != "" && IsSpace(s[0]) {
      assert s[..0] == "";
      WordsAreNonEmptyPieces(s);
      WordsAreNonEmptyPieces(SkipGap(s));
      FilterSkipsEmpty(SplitSpaces(SkipGap(s)));
    }
  }

  lemma WordsAfterSpace(c: char, s: string)
    requires IsSpace(c)
    ensures Words([c] + s) == Words(s)
  {
    assert ([c] + s)[1..] == s;
    WordsSkipGap(s);
    WordsSkipGap([c] + s);
  }

  lemma SkipWordOf(word: string, s: string)
    requires Spaceless(word)
    requires s == "" || IsSpace(s[0])
    ensures SkipWord(word + s) == s
  {
    RunLengthOfWord(word, s);
    assert (word + s)[|word|..] == s;
  }

  lemma {:induction false} RunLengthOfWord(word: string, s: string)
    requires Spaceless(word)
    requires s == "" || IsSpace(s[0])
    ensures RunLength(word + s, false) == |word|
  {
    if word == "" {
      assert word + s == s;
    } else {
      assert (word + s)[1..] == word[1..] + s;
      RunLengthOfWord(word[1..], s);
    }
  }

  lemma WordsAfterWord(word: string, s: string)
    requires word != "" && Spaceless(word)
    requires s == "" || IsSpace(s[0])
    ensures Words(word + s) == [word] + Words(s)
  {
    SkipWordOf(word, s);
    assert (word + s)[..|word|] == word;
    WordsAreNonEmptyPieces(word + s);
    if s == "" {
      assert word + s == word;
      EmptyPayload(s);
      FilterKeepsWord(word, []);
    } else {
      FilterKeepsWord(word, SplitSpaces(SkipGap(s)));
      WordsAreNonEmptyPieces(SkipGap(s));
      WordsSkipGap(s);
    }
  }

  /** The words of two payloads joined by a space. */
  lemma {:induction false} WordsOfJoined(a: string, b: string)
    ensures Words(a + " " + b) == Words(a) + Words(b)
    decreases |a|
  {
    if a == "" {
      NothingThenJoined(b);
    } else if IsSpace(a[0]) {
      CutAt(a, 1);
      WordsOfJoined(a[1..], b);
      SpaceThenJoined(a[..1], a[1..], a, b);
    } else {
      var n := RunLength(a, false);
      CutAt(a, n);
      WordsOfJoined(a[n..], b);
      WordThenJoined(a[..n], a[n..], a, b);
    }
  }

  lemma NothingThenJoined(b: string)
    ensures Words("" + " " + b) == Words("") + Words(b)
  {
    NothingBefore(b);
    WordsAfterSpace(' ', b);
    EmptyPayload("");
  }

  lemma NothingBefore(b: string)
    ensures "" + " " + b == [' '] + b
  {
  }

  lemma SpaceThenJoined(space: string, rest: string, a: string, b: string)
    requires |space| == 1 && IsSpace(space[0])
    requires a == space + rest
    requires Words(rest + " " + b) == Words(rest) + Words(b)
    ensures Words(a + " " + b) == Words(a) + Words(b)
  {
    Regroup(space, rest + " ", b);
    Regroup(space, rest, " ");
    assert space == [space[0]];
    WordsAfterSpace(space[0], rest);
    WordsAfterSpace(space[0], rest + " " + b);
  }

  lemma WordThenJoined(word: string, rest: string, a: string, b: string)
    requires word != "" && Spaceless(word)
    requires rest == "" || IsSpace(rest[0])
    requires a == word + rest
    requires Words(rest + " " + b) == Words(rest) + Words(b)
    ensures Words(a + " " + b) == Words(a) + Words(b)
  {
    Regroup(word, rest + " ", b);
    Regroup(word, rest, " ");
    WordsAfterWord(word, rest);
    WordsAfterWord(word, rest + " " + b);
    Regroup([word], Words(rest), Words(b));
  }

  lemma EmptyPayload(payload: string)
    requires payload == ""
    ensures Words(payload) == []
  {
    WordsAreNonEmptyPieces(payload);
    assert SplitSpaces(payload) == [""];
  }

  lemma {:induction false} TokenListOfAppend(a: seq<string>, b: seq<string>, lower: string -> string)
    ensures ParseTokenList(a + b, lower) == ParseTokenList(a, lower) + ParseTokenList(b, lower)
  {
    if a == [] {
      assert a + b == b;
    } else {
      assert (a + b)[1..] == a[1..] + b;
      TokenListOfAppend(a[1..], b, lower);
    }
  }

  lemma TokensOfWords(payload: string, lower: string -> string)
    ensures ParseCapTokens(payload, lower) == ParseTokenList(Words(payload), lower)
  {
    EmptyPayload("");
  }

  lemma TokensOfJoined(a: string, b: string, lower: string -> string)
    ensures ParseCapTokens(a + " " + b, lower) == ParseCapTokens(a, lower) + ParseCapTokens(b, lower)
  {
    WordsOfJoined(a, b);
    TokenListOfAppend(Words(a), Words(b), lower);
    TokensOfWords(a, lower);
    TokensOfWords(b, lower);
    TokensOfWords(a + " " + b, lower);
  }

  // ----- Tokens as a server writes them -----

  function PrintToken(token: Token): string {
    if token.value.None? then token.name else token.name + "=" + token.value.value
  }

  function PrintTokens(tokens: seq<Token>): (texts: seq<string>)
    ensures |texts| == |tokens|
    ensures forall i :: 0 <= i < |tokens| ==> texts[i] == PrintToken(tokens[i])
  {
    seq(|tokens|, i requires 0 <= i < |tokens| => PrintToken(tokens[i]))
  }

  /** A name in lower case, and no white space. */
  predicate GoodToken(token: Token, lower: string -> string) {
    && token.name != "" && Spaceless(token.name) && '=' !in token.name && lower(token.name) == token.name
    && (token.value.Some? ==> Spaceless(token.value.value))
  }

  lemma ParsePrintedToken(token: Token, lower: string -> string)
    requires GoodToken(token, lower)
    ensures ParseToken(PrintToken(token), lower) == token
    ensures PrintToken(token) != "" && Spaceless(PrintToken(token))
  {
    if token.value.Some? {
      var value := token.value.value;
      IndexOfAfter(token.name, '=', value);
      var text := token.name + ['='] + value;
      assert text[..|token.name|] == token.name && text[|token.name| + 1..] == value;
      JoinUndoesSplit(value, '=');
      assert Split(text, '=')[1..] == Split(value, '=');
    }
  }

  lemma {:induction false} WordsOfWords(words: seq<string>)
    requires forall i :: 0 <= i < |words| ==> words[i] != "" && Spaceless(words[i])
    ensures Words(Join(words, " ")) == words
  {
    if words == [] {
      EmptyPayload("");
    } else if |words| == 1 {
      EmptyPayload("");
      WordsAfterWord(words[0], "");
      assert words[0] + "" == words[0];
    } else {
      WordsOfWords(words[1..]);
      WordsOfJoined(words[0], Join(words[1..], " "));
      EmptyPayload("");
      WordsAfterWord(words[0], "");
      assert words[0] + "" == words[0];
    }
  }

  lemma {:induction false} ParsePrintedTokenList(tokens: seq<Token>, lower: string -> string)
    requires forall i :: 0 <= i < |tokens| ==> GoodToken(tokens[i], lower)
    ensures ParseTokenList(PrintTokens(tokens), lower) == tokens
  {
    if tokens != [] {
      ParsePrintedToken(tokens[0], lower);
      ParsePrintedTokenList(tokens[1..], lower);
      assert PrintTokens(tokens)[1..] == PrintTokens(tokens[1..]);
    }
  }

  /** Reading back the capability list that a server prints gives the tokens, in order. */
  lemma TokensReadBack(tokens: seq<Token>, lower: string -> string)
    requires forall i :: 0 <= i < |tokens| ==> GoodToken(tokens[i], lower)
    ensures ParseCapTokens(Join(PrintTokens(tokens), " "), lower) == tokens
  {
    ParsePrintedTokenList(tokens, lower);
    forall i | 0 <= i < |tokens| ensures PrintTokens(tokens)[i] != "" && Spaceless(PrintTokens(tokens)[i]) {
      ParsePrintedToken(tokens[i], lower);
    }
    WordsOfWords(PrintTokens(tokens));
    TokensOfWords(Join(PrintTokens(tokens), " "), lower);
  }

  // ----- The message -----

  /** The words of `CAP_SUBCOMMANDS`. */
  function SubcommandOf(word: string): Option<Subcommand> {
    match word
    case "LS" => Some(LS)
    case "LIST" => Some(LIST)
    case "REQ" => Some(REQ)
    case "ACK" => Some(ACK)
    case "NAK" => Some(NAK)
    case "NEW" => Some(NEW)
    case "DEL" => Some(DEL)
    case _ => None
  }

  predicate IsSubcommand(param: string, upper: string -> string) {
    SubcommandOf(upper(param)).Some?
  }

  function FirstSubcommand(params: seq<string>, upper: string -> string): (i: int)
    ensures -1 <= i < |params|
    ensures 0 <= i ==> IsSubcommand(params[i], upper)
  {
    if params == [] then -1
    else if IsSubcommand(params[0], upper) then 0
    else
      var rest := FirstSubcommand(params[1..], upper);
      if rest < 0 then -1 else rest + 1
  }

  predicate NotStar(param: string) {
    param != "*"
  }

  /** What the parameters after the subcommand word are taken for. */
  function Decode(word: string, after: seq<string>, upper: string -> string): CapMessage
    requires IsSubcommand(word, upper)
  {
    CapMessage(SubcommandOf(upper(word)).value, Join(Filter(after, NotStar), " "), "*" in after)
  }

  /** `getCapMessage`; `upper` is the engine's `toUpperCase`. */
  function GetCapMessage(params: seq<string>, upper: string -> string): Option<CapMessage> {
    var i := FirstSubcommand(params, upper);
    if i < 0 then None else Some(Decode(params[i], params[i + 1..], upper))
  }

  /**
   * A server sends the client's identifier before the subcommand. The message is read as sent
   * exactly when that identifier is not itself a subcommand word.
   */
  lemma ReadAsSentExactly(client: string, word: string, after: seq<string>, upper: string -> string)
    requires IsSubcommand(word, upper) && word != "" && word != "*"
    ensures GetCapMessage([client, word] + after, upper) == Some(Decode(word, after, upper))
       <==> !IsSubcommand(client, upper)
  {
    var params := [client, word] + after;
    assert params[1..] == [word] + after;
    assert params[2..] == after;
    if IsSubcommand(client, upper) {
      var others := Filter(after, NotStar);
      assert Filter([word] + after, NotStar) == [word] + others by {
        assert ([word] + after)[1..] == after;
      }
      PayloadWithWord(word, others);
      assert params[0] == client && FirstSubcommand(params, upper) == 0;
    } else {
      assert FirstSubcommand(params[1..], upper) == 0;
      assert FirstSubcommand(params, upper) == 1;
    }
  }

  lemma PayloadWithWord(word: string, others: seq<string>)
    requires word != ""
    ensures Join([word] + others, " ") != Join(others, " ")
  {
    assert ([word] + others)[1..] == others;
    if others != [] {
      assert |Join([word] + others, " ")| == |word| + 1 + |Join(others, " ")|;
    }
  }
}
