/**
 * Splitting the text of a message without formatting codes into drawn pieces: white space, links,
 * channels, identities, nicks and plain words.
 */
module ClickableText {
  import opened Text

  datatype Piece =
    | Space(text: string)
    | Plain(text: string)
    | Url(leading: string, url: string, trailing: string)
    | Channel(leading: string, name: string, trailing: string)
    | Identity(leading: string, identity: string, trailing: string)
    | Nick(leading: string, core: string, trailing: string)

  /** What is drawn on screen for a piece. */
  function Drawn(piece: Piece): string {
    match piece
    case Space(text) => text
    case Plain(text) => text
    case Url(leading, url, trailing) => leading + url + trailing
    case Channel(leading, name, trailing) => leading + name + trailing
    case Identity(leading, identity, trailing) => leading + identity + trailing
    case Nick(leading, core, trailing) => leading + core + trailing
  }

  /**
   * What the split depends on: which press handlers there are, who wrote the message (empty texts
   * stand for missing fields), and which nicks are on the channel.
   */
  datatype Context = Context(channelPress: bool, nickPress: bool, from: string, username: string, hostname: string,
                             knows: string -> bool)

  // ----- Tokens -----

  /** `text.match(/\S+|\s+/g)`: the maximal runs of white space and of other characters. */
  function Tokens(text: string): (tokens: seq<string>)
    ensures forall i :: 0 <= i < |tokens| ==> tokens[i] != ""
    decreases |text|
  {
    if text == "" then []
    else
      var n := RunLength(text, IsSpace(text[0]));
      assert n > 0;
      [text[..n]] + Tokens(text[n..])
  }

  function Concat(parts: seq<string>): string {
    if parts == [] then "" else parts[0] + Concat(parts[1..])
  }

  lemma {:induction false} TokensMakeTheText(text: string)
    ensures Concat(Tokens(text)) == text
    decreases |text|
  {
    if text != "" {
      var n := RunLength(text, IsSpace(text[0]));
      TokensMakeTheText(text[n..]);
      CutAt(text, n);
    }
  }

  /** All characters of `s` are white space, or none is. */
  predicate AllSpace(s: string, space: bool) {
    forall i :: 0 <= i < |s| ==> IsSpace(s[i]) == space
  }

  /** Tokens are runs of one kind, and neighbours are of different kinds. */
  lemma {:induction false} TokensAreRuns(text: string)
    ensures forall i :: 0 <= i < |Tokens(text)| ==> AllSpace(Tokens(text)[i], IsSpace(Tokens(text)[i][0]))
    ensures forall i :: 0 < i < |Tokens(text)| ==> IsSpace(Tokens(text)[i - 1][0]) != IsSpace(Tokens(text)[i][0])
    ensures text != "" ==> Tokens(text) != [] && Tokens(text)[0][0] == text[0]
    decreases |text|
  {
    if text != "" {
      var n := RunLength(text, IsSpace(text[0]));
      var rest := Tokens(text[n..]);
      TokensAreRuns(text[n..]);
      assert Tokens(text) == [text[..n]] + rest;
      assert rest != [] ==> rest[0][0] == text[n];
    }
  }

  // ----- Links -----

  /** `scheme` stands in `token` at `i`, letter case aside, with something after it. */
  predicate SchemeAt(token: string, i: int, scheme: string) {
    0 <= i && i + |scheme| < |token| && forall k :: 0 <= k < |scheme| ==> LowerChar(token[i + k]) == scheme[k]
  }

  predicate UrlAt(token: string, i: int) {
    SchemeAt(token, i, "https://") || SchemeAt(token, i, "http://") || SchemeAt(token, i, "ftp://")
  }

  /** Where the first link in a token starts; it goes on to the end of the token. */
  function UrlStart(token: string, from: nat): (i: int)
    requires from <= |token|
    ensures i == -1 || (from <= i < |token| && UrlAt(token, i))
    ensures forall j :: from <= j < (if i < 0 then |token| else i) ==> !UrlAt(token, j)
    decreases |token| - from
  {
    if from == |token| then -1 else if UrlAt(token, from) then from else UrlStart(token, from + 1)
  }

  // ----- Channels -----

  predicate IsSign(c: char) {
    c == '#' || c == '&'
  }

  /** Where the first channel sign of a token stands. */
  function SignAt(token: string): (i: int)
    ensures -1 <= i < |token|
    ensures 0 <= i ==> IsSign(token[i])
    ensures forall j :: 0 <= j < (if i < 0 then |token| else i) ==> !IsSign(token[j])
  {
    if token == "" then -1
    else if IsSign(token[0]) then 0
    else
      var rest := SignAt(token[1..]);
      if rest < 0 then -1 else rest + 1
  }

  predicate EndsName(c: char) {
    IsSpace(c) || c == ',' || c == ':'
  }

  /** How far a channel name goes. */
  function NameLength(s: string): (n: nat)
    ensures n <= |s|
    ensures forall i :: 0 <= i < n ==> !EndsName(s[i])
    ensures n < |s| ==> EndsName(s[n])
  {
    if s == "" || EndsName(s[0]) then 0 else 1 + NameLength(s[1..])
  }

  /** Where the name at the first sign ends. */
  function NameEnd(token: string): (end: nat)
    requires SignAt(token) >= 0
    ensures SignAt(token) < end <= |token|
    ensures forall k :: SignAt(token) < k < end ==> !EndsName(token[k])
    ensures end < |token| ==> EndsName(token[end])
  {
    var at := SignAt(token);
    var rest := token[at + 1..];
    assert forall k :: at < k < |token| ==> token[k] == rest[k - at - 1];
    at + 1 + NameLength(rest)
  }

  /** The token holds a channel: at its first sign, with at least one name character after it. */
  predicate HasChannel(token: string) {
    SignAt(token) >= 0 && NameEnd(token) > SignAt(token) + 1
  }

  predicate IsStatus(c: char) {
    c in {'~', '&', '@', '%', '+'}
  }

  /** `name.replace(/^[~&@%+]+/, '')`. */
  function StripStatus(name: string): (stripped: string)
    ensures |stripped| <= |name|
    ensures stripped == name <==> name == "" || !IsStatus(name[0])
    ensures stripped != name ==> |stripped| < |name|
  {
    if name != "" && IsStatus(name[0]) then StripStatus(name[1..]) else name
  }

  function DrawChannel(token: string): Piece
    requires HasChannel(token)
  {
    var at, end := SignAt(token), NameEnd(token);
    Channel(token[..at], StripStatus(token[at..end]), token[end..])
  }

  // ----- Identities and nicks -----

  function UserHost(context: Context): string {
    if context.username != "" && context.hostname != "" then context.username + "@" + context.hostname else ""
  }

  function Hostmask(context: Context): string {
    if context.from != "" && UserHost(context) != "" then context.from + "!" + UserHost(context) else ""
  }

  /** The identity found in a token, the longer form first; empty if there is none. */
  function IdentityIn(token: string, context: Context): (identity: string)
    ensures identity != "" ==> Includes(token, identity)
  {
    if Hostmask(context) != "" && Includes(token, Hostmask(context)) then Hostmask(context)
    else if UserHost(context) != "" && Includes(token, UserHost(context)) then UserHost(context)
    else ""
  }

  function DrawIdentity(token: string, identity: string): Piece
    requires Includes(token, identity)
  {
    var at := Find(token, identity);
    Identity(token[..at], identity, token[at + |identity|..])
  }

  /**
   * The characters of a nick. The source's class has a backslash-to-bracket range where a hyphen
   * might be expected, so a hyphen is not one of them.
   */
  predicate IsNickChar(c: char) {
    || 'A' <= c <= 'Z' || 'a' <= c <= 'z' || '0' <= c <= '9'
    || c in {'_', '`', '^', '\\', ']', '[', '{', '}', '|'}
  }

  function NickRun(s: string, nick: bool): (n: nat)
    ensures n <= |s|
    ensures forall i :: 0 <= i < n ==> IsNickChar(s[i]) == nick
    ensures n < |s| ==> IsNickChar(s[n]) != nick
  {
    if s == "" || IsNickChar(s[0]) != nick then 0 else 1 + NickRun(s[1..], nick)
  }

  /** Where the first run of nick characters starts and ends. */
  function NickStart(token: string): (start: nat)
    ensures start <= |token|
    ensures forall k :: 0 <= k < start ==> !IsNickChar(token[k])
    ensures start < |token| ==> IsNickChar(token[start])
  {
    NickRun(token, false)
  }

  function NickEnd(token: string): (end: nat)
    ensures NickStart(token) <= end <= |token|
    ensures forall k :: NickStart(token) <= k < end ==> IsNickChar(token[k])
    ensures end < |token| ==> !IsNickChar(token[end])
  {
    var start := NickStart(token);
    var rest := token[start..];
    assert forall k :: start <= k < |token| ==> token[k] == rest[k - start];
    start + NickRun(rest, true)
  }

  /** There is such a run, and none other after it. */
  predicate OneRun(token: string) {
    NickStart(token) < NickEnd(token) && NickEnd(token) + NickRun(token[NickEnd(token)..], false) == |token|
  }

  /** The nick pattern: one run of nick characters with other characters around it. */
  function DrawNick(token: string, context: Context): Piece {
    if !OneRun(token) then Plain(token)
    else
      var start, end := NickStart(token), NickEnd(token);
      var core := token[start..end];
      if context.knows(if core[0] == '@' then core[1..] else core) then Nick(token[..start], core, token[end..])
      else Plain(token)
  }

  // ----- One token, one text -----

  function DrawToken(token: string, context: Context): Piece
    requires token != ""
  {
    var url := UrlStart(token, 0);
    var identity := IdentityIn(token, context);
    if IsSpace(token[0]) then Space(token)
    else if url >= 0 then
      if '\U{0007}' in token[url..] || '\U{0000}' in token[url..] then Plain(token)
      else Url(token[..url], token[url..], "")
    else if HasChannel(token) && context.channelPress then DrawChannel(token)
    else if identity != "" && context.nickPress && context.from != "" then DrawIdentity(token, identity)
    else DrawNick(token, context)
  }

  function DrawTokens(tokens: seq<string>, context: Context): (pieces: seq<Piece>)
    requires forall i :: 0 <= i < |tokens| ==> tokens[i] != ""
    ensures |pieces| == |tokens|
  {
    if tokens == [] then [] else [DrawToken(tokens[0], context)] + DrawTokens(tokens[1..], context)
  }

  function DrawAll(pieces: seq<Piece>): string {
    if pieces == [] then "" else Drawn(pieces[0]) + DrawAll(pieces[1..])
  }

  /** `renderTextWithNickActions` for a text without formatting codes. */
  function Draw(text: string, context: Context): seq<Piece> {
    DrawTokens(Tokens(text), context)
  }

  // ----- What is drawn is what was written -----

  /** A word with no link in it whose first channel sign is an ampersand that starts a clickable channel. */
  predicate LosesSign(token: string, context: Context)
    requires token != ""
  {
    && !IsSpace(token[0])
    && UrlStart(token, 0) < 0
    && context.channelPress
    && HasChannel(token)
    && token[SignAt(token)] == '&'
  }

  lemma ThreeParts(s: string, i: nat, j: nat)
    requires i <= j <= |s|
    ensures s[..i] + s[i..j] + s[j..] == s
  {
  }

  lemma ChannelDrawn(token: string)
    requires HasChannel(token)
    ensures var drawn := Drawn(DrawChannel(token));
            if token[SignAt(token)] == '&' then |drawn| < |token| else drawn == token
  {
    var at, end := SignAt(token), NameEnd(token);
    var name := token[at..end];
    ThreeParts(token, at, end);
    assert name[0] == token[at];
  }

  lemma NickDrawn(token: string, context: Context)
    ensures Drawn(DrawNick(token, context)) == token
  {
    ThreeParts(token, NickStart(token), NickEnd(token));
  }

  lemma TokenDrawn(token: string, context: Context)
    requires token != ""
    ensures var drawn := Drawn(DrawToken(token, context));
            if LosesSign(token, context) then |drawn| < |token| else drawn == token
  {
    if IsSpace(token[0]) {
    } else if UrlStart(token, 0) >= 0 {
      ThreeParts(token, UrlStart(token, 0), |token|);
    } else if HasChannel(token) && context.channelPress {
      ChannelDrawn(token);
    } else {
      WordDrawn(token, context);
    }
  }

  lemma WordDrawn(token: string, context: Context)
    requires token != "" && !IsSpace(token[0]) && UrlStart(token, 0) < 0
    requires !(HasChannel(token) && context.channelPress)
    ensures Drawn(DrawToken(token, context)) == token
  {
    var identity := IdentityIn(token, context);
    if identity != "" && context.nickPress && context.from != "" {
      var at := Find(token, identity);
      ThreeParts(token, at, at + |identity|);
    } else {
      NickDrawn(token, context);
    }
  }

  /** All characters of `s` are nick characters, or none is. */
  predicate AllNick(s: string, nick: bool) {
    forall i :: 0 <= i < |s| ==> IsNickChar(s[i]) == nick
  }

  // ----- What can be pressed in a word -----

  ghost predicate HasLink(token: string) {
    exists i :: UrlAt(token, i)
  }

  predicate FirstLink(token: string, i: int) {
    UrlAt(token, i) && forall j :: 0 <= j < i ==> !UrlAt(token, j)
  }

  predicate HasControl(s: string) {
    '\U{0007}' in s || '\U{0000}' in s
  }

  /** The first link, to the end of the word. */
  ghost predicate LinkPiece(token: string, piece: Piece) {
    exists i :: FirstLink(token, i) &&
      piece == if HasControl(token[i..]) then Plain(token) else Url(token[..i], token[i..], "")
  }

  /** From the first sign to the first separator, with something in between. */
  predicate NameStretch(token: string, i: int, j: int) {
    && 0 <= i && i + 1 < j <= |token|
    && IsSign(token[i]) && (forall k :: 0 <= k < i ==> !IsSign(token[k]))
    && (forall k :: i < k < j ==> !EndsName(token[k])) && (j < |token| ==> EndsName(token[j]))
  }

  ghost predicate NamesChannel(token: string) {
    exists i, j :: NameStretch(token, i, j)
  }

  /** `name` is `raw` without the status characters at its head. */
  predicate StrippedOf(raw: string, name: string) {
    && |name| <= |raw| && name == raw[|raw| - |name|..]
    && (forall k :: 0 <= k < |raw| - |name| ==> IsStatus(raw[k])) && (name != "" ==> !IsStatus(name[0]))
  }

  ghost predicate ChannelPiece(token: string, piece: Piece) {
    exists i, j :: NameStretch(token, i, j) && piece.Channel? && StrippedOf(token[i..j], piece.name) &&
      piece == Channel(token[..i], piece.name, token[j..])
  }

  /** The sender's identity in a word: the full one if it is there, else the shorter one. */
  predicate SenderIn(token: string, context: Context, identity: string) {
    && identity != "" && Includes(token, identity)
    && (identity == Hostmask(context)
        || (identity == UserHost(context) && !(Hostmask(context) != "" && Includes(token, Hostmask(context)))))
  }

  ghost predicate NamesSender(token: string, context: Context) {
    context.nickPress && context.from != "" && exists identity :: SenderIn(token, context, identity)
  }

  predicate FirstPlace(token: string, t: string, i: int) {
    StandsAt(token, t, i) && forall j :: 0 <= j < i ==> !StandsAt(token, t, j)
  }

  ghost predicate IdentityPiece(token: string, context: Context, piece: Piece) {
    exists identity, i :: SenderIn(token, context, identity) && FirstPlace(token, identity, i) &&
      piece == Identity(token[..i], identity, token[i + |identity|..])
  }

  /** The only run of nick characters. */
  predicate NickStretch(token: string, i: int, j: int) {
    0 <= i < j <= |token| && forall k :: 0 <= k < |token| ==> (IsNickChar(token[k]) <==> i <= k < j)
  }

  ghost predicate NickPiece(token: string, context: Context, piece: Piece) {
    exists i, j :: NickStretch(token, i, j) && context.knows(token[i..j]) &&
      piece == Nick(token[..i], token[i..j], token[j..])
  }

  ghost predicate HoldsKnownNick(token: string, context: Context) {
    exists i, j :: NickStretch(token, i, j) && context.knows(token[i..j])
  }

  /** A link, else a channel, else the sender's identity, else a known nick, else nothing to press. */
  ghost predicate DrawsAs(token: string, context: Context, piece: Piece) {
    if HasLink(token) then LinkPiece(token, piece)
    else if context.channelPress && NamesChannel(token) then ChannelPiece(token, piece)
    else if NamesSender(token, context) then IdentityPiece(token, context, piece)
    else if HoldsKnownNick(token, context) then NickPiece(token, context, piece)
    else piece == Plain(token)
  }

  lemma LinkDrawn(token: string, context: Context)
    requires token != "" && !IsSpace(token[0])
    ensures HasLink(token) <==> UrlStart(token, 0) >= 0
    ensures HasLink(token) ==> LinkPiece(token, DrawToken(token, context))
  {
    var i := UrlStart(token, 0);
    if i >= 0 {
      assert FirstLink(token, i);
    }
  }

  lemma OneLink(token: string, p: Piece, q: Piece)
    requires LinkPiece(token, p) && LinkPiece(token, q)
    ensures p == q
  {
    var i :| FirstLink(token, i) &&
      p == if HasControl(token[i..]) then Plain(token) else Url(token[..i], token[i..], "");
    var j :| FirstLink(token, j) &&
      q == if HasControl(token[j..]) then Plain(token) else Url(token[..j], token[j..], "");
    assert i == j;
  }

  lemma {:induction false} StripStatusStrips(raw: string)
    ensures StrippedOf(raw, StripStatus(raw))
  {
    if raw != "" && IsStatus(raw[0]) {
      var name := StripStatus(raw[1..]);
      StripStatusStrips(raw[1..]);
      assert name == raw[1..][|raw| - 1 - |name|..] == raw[|raw| - |name|..];
      assert forall k :: 0 < k < |raw| ==> raw[k] == raw[1..][k - 1];
    }
  }

  lemma StrippedNoShorter(raw: string, name: string, other: string)
    requires StrippedOf(raw, name) && StrippedOf(raw, other)
    ensures |other| <= |name|
  {
    if other != "" {
      assert other[0] == raw[|raw| - |other|];
    }
  }

  lemma OneStripped(raw: string, name: string, other: string)
    requires StrippedOf(raw, name) && StrippedOf(raw, other)
    ensures name == other
  {
    StrippedNoShorter(raw, name, other);
    StrippedNoShorter(raw, other, name);
  }

  lemma ChannelStretch(token: string)
    ensures HasChannel(token) <==> NamesChannel(token)
    ensures HasChannel(token) ==> NameStretch(token, SignAt(token), NameEnd(token))
  {
    if HasChannel(token) {
      assert NameStretch(token, SignAt(token), NameEnd(token));
    }
    if NamesChannel(token) {
      var i, j :| NameStretch(token, i, j);
      assert i == SignAt(token) && !EndsName(token[i + 1]);
    }
  }

  lemma ChannelNamed(token: string)
    requires HasChannel(token)
    ensures ChannelPiece(token, DrawChannel(token))
  {
    var raw := token[SignAt(token)..NameEnd(token)];
    ChannelStretch(token);
    StripStatusStrips(raw);
    ChannelPieceAt(token, SignAt(token), NameEnd(token), StripStatus(raw));
  }

  lemma ChannelPieceAt(token: string, i: nat, j: nat, name: string)
    requires NameStretch(token, i, j) && StrippedOf(token[i..j], name)
    ensures ChannelPiece(token, Channel(token[..i], name, token[j..]))
  {
  }

  lemma OneStretch(token: string, i: int, j: int, g: int, h: int)
    requires NameStretch(token, i, j) && NameStretch(token, g, h)
    ensures i == g && j == h
  {
  }

  lemma OneChannel(token: string, p: Piece, q: Piece)
    requires ChannelPiece(token, p) && ChannelPiece(token, q)
    ensures p == q
  {
    var i, j :| NameStretch(token, i, j) && p.Channel? && StrippedOf(token[i..j], p.name) &&
      p == Channel(token[..i], p.name, token[j..]);
    var g, h :| NameStretch(token, g, h) && q.Channel? && StrippedOf(token[g..h], q.name) &&
      q == Channel(token[..g], q.name, token[h..]);
    OneStretch(token, i, j, g, h);
    OneStripped(token[i..j], p.name, q.name);
  }

  lemma SenderFound(token: string, context: Context)
    ensures IdentityIn(token, context) != "" ==> SenderIn(token, context, IdentityIn(token, context))
    ensures forall identity :: SenderIn(token, context, identity) ==> identity == IdentityIn(token, context)
  {
  }

  lemma SenderChosen(token: string, context: Context)
    ensures NamesSender(token, context)
       <==> IdentityIn(token, context) != "" && context.nickPress && context.from != ""
  {
    SenderFound(token, context);
  }

  lemma IdentityDrawn(token: string, context: Context, identity: string)
    requires SenderIn(token, context, identity)
    ensures IdentityPiece(token, context, DrawIdentity(token, identity))
  {
    assert FirstPlace(token, identity, Find(token, identity));
  }

  lemma OneIdentity(token: string, context: Context, p: Piece, q: Piece)
    requires IdentityPiece(token, context, p) && IdentityPiece(token, context, q)
    ensures p == q
  {
    var v, i :| SenderIn(token, context, v) && FirstPlace(token, v, i) &&
      p == Identity(token[..i], v, token[i + |v|..]);
    var w, j :| SenderIn(token, context, w) && FirstPlace(token, w, j) &&
      q == Identity(token[..j], w, token[j + |w|..]);
    SenderFound(token, context);
    assert v == w;
    OnePlace(token, v, i, j);
  }

  lemma OnePlace(token: string, t: string, i: int, j: int)
    requires FirstPlace(token, t, i) && FirstPlace(token, t, j)
    ensures i == j
  {
  }

  lemma OneNickStretch(token: string, i: int, j: int, g: int, h: int)
    requires NickStretch(token, i, j) && NickStretch(token, g, h)
    ensures i == g && j == h
  {
    assert IsNickChar(token[i]) && IsNickChar(token[g]);
    assert IsNickChar(token[j - 1]) && IsNickChar(token[h - 1]);
  }

  lemma NothingAfter(token: string, end: nat)
    requires end <= |token|
    ensures end + NickRun(token[end..], false) == |token| <==> forall k :: end <= k < |token| ==> !IsNickChar(token[k])
  {
    var after := token[end..];
    assert forall k :: end <= k < |token| ==> token[k] == after[k - end];
  }

  /** The run that the pattern takes is the stretch, if there is one. */
  lemma RunIsStretch(token: string)
    ensures OneRun(token) <==> NickStretch(token, NickStart(token), NickEnd(token))
  {
    NothingAfter(token, NickEnd(token));
  }

  lemma StretchIsRun(token: string, i: int, j: int)
    requires NickStretch(token, i, j)
    ensures i == NickStart(token) && j == NickEnd(token)
  {
    var start, end := NickStart(token), NickEnd(token);
    assert IsNickChar(token[i]) && IsNickChar(token[j - 1]);
    assert start < end ==> IsNickChar(token[end - 1]);
  }

  lemma NickFound(token: string, context: Context)
    ensures HoldsKnownNick(token, context) ==> NickPiece(token, context, DrawNick(token, context))
    ensures !HoldsKnownNick(token, context) ==> DrawNick(token, context) == Plain(token)
  {
    var start, end := NickStart(token), NickEnd(token);
    RunIsStretch(token);
    if OneRun(token) {
      assert token[start..end][0] == token[start] != '@';
    } else if HoldsKnownNick(token, context) {
      var i, j :| NickStretch(token, i, j) && context.knows(token[i..j]);
      StretchIsRun(token, i, j);
    }
    if HoldsKnownNick(token, context) {
      var i, j :| NickStretch(token, i, j) && context.knows(token[i..j]);
      StretchIsRun(token, i, j);
    }
  }

  lemma OneNick(token: string, context: Context, p: Piece, q: Piece)
    requires NickPiece(token, context, p) && NickPiece(token, context, q)
    ensures p == q
  {
    var i, j :| NickStretch(token, i, j) && context.knows(token[i..j]) &&
      p == Nick(token[..i], token[i..j], token[j..]);
    var g, h :| NickStretch(token, g, h) && context.knows(token[g..h]) &&
      q == Nick(token[..g], token[g..h], token[h..]);
    OneNickStretch(token, i, j, g, h);
  }

  lemma DrawnAs(token: string, context: Context)
    requires token != "" && !IsSpace(token[0])
    ensures DrawsAs(token, context, DrawToken(token, context))
  {
    LinkDrawn(token, context);
    ChannelStretch(token);
    if HasLink(token) {
    } else if context.channelPress && HasChannel(token) {
      ChannelNamed(token);
    } else {
      OtherDrawn(token, context);
    }
  }

  lemma OtherDrawn(token: string, context: Context)
    requires token != "" && !IsSpace(token[0]) && UrlStart(token, 0) < 0
    requires !(context.channelPress && HasChannel(token))
    ensures var piece := DrawToken(token, context);
            if NamesSender(token, context) then IdentityPiece(token, context, piece)
            else if HoldsKnownNick(token, context) then NickPiece(token, context, piece)
            else piece == Plain(token)
  {
    SenderChosen(token, context);
    SenderFound(token, context);
    if NamesSender(token, context) {
      IdentityDrawn(token, context, IdentityIn(token, context));
    } else {
      NickFound(token, context);
    }
  }

  /** What is drawn for a word is exactly what the order link, channel, identity, nick says. */
  lemma PressableExactly(token: string, context: Context, piece: Piece)
    requires token != "" && !IsSpace(token[0])
    ensures DrawToken(token, context) == piece <==> DrawsAs(token, context, piece)
  {
    var drawn := DrawToken(token, context);
    DrawnAs(token, context);
    if DrawsAs(token, context, piece) {
      if HasLink(token) {
        OneLink(token, drawn, piece);
      } else if context.channelPress && NamesChannel(token) {
        OneChannel(token, drawn, piece);
      } else if NamesSender(token, context) {
        OneIdentity(token, context, drawn, piece);
      } else if HoldsKnownNick(token, context) {
        OneNick(token, context, drawn, piece);
      }
    }
  }

  // ----- Which nicks can be pressed -----

  lemma WholeStretch(nick: string)
    requires nick != ""
    ensures NickStretch(nick, 0, |nick|) <==> AllNick(nick, true)
  {
  }

  /** A nick that stands alone can be pressed exactly when it is known and holds nick characters only. */
  lemma NickPressedExactly(nick: string, context: Context)
    requires nick != "" && !IsSpace(nick[0])
    ensures DrawToken(nick, context) == Nick("", nick, "")
       <==> && !HasLink(nick) && !(context.channelPress && NamesChannel(nick)) && !NamesSender(nick, context)
            && context.knows(nick) && AllNick(nick, true)
  {
    PressableExactly(nick, context, Nick("", nick, ""));
    WholeStretch(nick);
    assert nick[0..|nick|] == nick && nick[..0] == "" && nick[|nick|..] == "";
    if AllNick(nick, true) && context.knows(nick) {
      assert NickPiece(nick, context, Nick("", nick, ""));
    }
    if NickPiece(nick, context, Nick("", nick, "")) {
      var i, j :| NickStretch(nick, i, j) && context.knows(nick[i..j]) &&
        Nick("", nick, "") == Nick(nick[..i], nick[i..j], nick[j..]);
      assert i == 0 && j == |nick|;
    }
  }

  lemma SchemeHasColon(token: string, i: int, scheme: string, k: nat)
    requires SchemeAt(token, i, scheme) && k < |scheme| && scheme[k] == ':'
    ensures ':' in token
  {
    assert LowerChar(token[i + k]) == scheme[k];
  }

  lemma LinkHasColon(token: string, i: int)
    requires UrlAt(token, i)
    ensures ':' in token
  {
    if SchemeAt(token, i, "https://") {
      SchemeHasColon(token, i, "https://", 5);
    } else if SchemeAt(token, i, "http://") {
      SchemeHasColon(token, i, "http://", 4);
    } else {
      SchemeHasColon(token, i, "ftp://", 3);
    }
  }

  lemma InIncluded(token: string, t: string, c: char)
    requires Includes(token, t) && c in t
    ensures c in token
  {
    var i, k := Find(token, t), IndexOf(t, c);
    assert token[i..i + |t|][k] == token[i + k];
  }

  lemma InMiddle(a: string, c: char, b: string)
    ensures c in a + [c] + b
  {
    assert (a + [c] + b)[|a|] == c;
  }

  lemma SenderHasAt(token: string, context: Context, identity: string)
    requires SenderIn(token, context, identity)
    ensures '@' in token
  {
    InMiddle(context.username, '@', context.hostname);
    assert '@' in UserHost(context);
    assert '@' in identity;
    InIncluded(token, identity, '@');
  }

  /** A word of nick characters and hyphens holds no link, channel or identity. */
  lemma NothingElseIn(token: string, context: Context)
    requires forall k :: 0 <= k < |token| ==> IsNickChar(token[k]) || token[k] == '-'
    ensures !HasLink(token) && !NamesChannel(token) && !NamesSender(token, context)
  {
    forall i | UrlAt(token, i) ensures false {
      LinkHasColon(token, i);
    }
    forall identity | SenderIn(token, context, identity) ensures false {
      SenderHasAt(token, context, identity);
    }
    assert forall k :: 0 <= k < |token| ==> !IsSign(token[k]);
  }

  /** No nick with a hyphen between nick characters can be pressed, known or not. */
  lemma HyphenatedIsPlain(a: string, b: string, context: Context)
    requires a != "" && b != "" && AllNick(a, true) && AllNick(b, true)
    ensures DrawToken(a + "-" + b, context) == Plain(a + "-" + b)
  {
    var token := a + "-" + b;
    forall k | 0 <= k < |token| ensures IsNickChar(token[k]) || token[k] == '-' {
      assert token[k] == if k < |a| then a[k] else if k == |a| then '-' else b[k - |a| - 1];
    }
    NothingElseIn(token, context);
    assert !HoldsKnownNick(token, context) by {
      assert IsNickChar(token[|a| - 1]) && !IsNickChar(token[|a|]) && IsNickChar(token[|a| + 1]);
    }
    PressableExactly(token, context, Plain(token));
  }

  lemma {:induction false} TokensDrawn(tokens: seq<string>, context: Context)
    requires forall i :: 0 <= i < |tokens| ==> tokens[i] != ""
    ensures |DrawAll(DrawTokens(tokens, context))| <= |Concat(tokens)|
    ensures DrawAll(DrawTokens(tokens, context)) == Concat(tokens)
       <==> forall i :: 0 <= i < |tokens| ==> !LosesSign(tokens[i], context)
    ensures DrawAll(DrawTokens(tokens, context)) != Concat(tokens)
        ==> |DrawAll(DrawTokens(tokens, context))| < |Concat(tokens)|
  {
    if tokens != [] {
      var first, rest := tokens[0], tokens[1..];
      TokenDrawn(first, context);
      TokensDrawn(rest, context);
      var d, ds := Drawn(DrawToken(first, context)), DrawAll(DrawTokens(rest, context));
      assert DrawTokens(tokens, context)[1..] == DrawTokens(rest, context);
      assert DrawAll(DrawTokens(tokens, context)) == d + ds && Concat(tokens) == first + Concat(rest);
      AppendEqual(d, ds, first, Concat(rest));
      assert (forall i :: 0 <= i < |tokens| ==> !LosesSign(tokens[i], context))
        <==> !LosesSign(first, context) && (forall i :: 0 <= i < |rest| ==> !LosesSign(rest[i], context)) by {
        forall i | 0 < i < |tokens| ensures tokens[i] == rest[i - 1] {
        }
        forall i | 0 <= i < |rest| ensures rest[i] == tokens[i + 1] {
        }
      }
    }
  }

  lemma AppendEqual(a: string, b: string, c: string, d: string)
    requires |a| <= |c| && |b| <= |d|
    requires |a| == |c| ==> a == c
    ensures a + b == c + d <==> a == c && b == d
  {
    if a + b == c + d {
      assert |a| == |c|;
      assert b == (a + b)[|a|..] && d == (c + d)[|c|..];
    }
  }

  /** The drawn pieces read as the text exactly when no word loses its ampersand. */
  lemma DrawsTheTextExactly(text: string, context: Context)
    ensures DrawAll(Draw(text, context)) == text
       <==> forall i :: 0 <= i < |Tokens(text)| ==> !LosesSign(Tokens(text)[i], context)
  {
    TokensMakeTheText(text);
    TokensDrawn(Tokens(text), context);
  }

  lemma {:induction false} TokensHaveTextCharacters(text: string, c: char)
    requires c !in text
    ensures forall i :: 0 <= i < |Tokens(text)| ==> c !in Tokens(text)[i]
    decreases |text|
  {
    if text != "" {
      TokensHaveTextCharacters(text[RunLength(text, IsSpace(text[0]))..], c);
    }
  }

  /** Every text without an ampersand is drawn as written, whatever the context. */
  lemma DrawsTextWithoutAmpersand(text: string, context: Context)
    requires '&' !in text
    ensures DrawAll(Draw(text, context)) == text
  {
    DrawsTheTextExactly(text, context);
    TokensHaveTextCharacters(text, '&');
    forall i | 0 <= i < |Tokens(text)| ensures !LosesSign(Tokens(text)[i], context) {
      var token := Tokens(text)[i];
      assert SignAt(token) >= 0 ==> token[SignAt(token)] in token;
    }
  }
}
