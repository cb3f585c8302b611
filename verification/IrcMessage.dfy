/**
 * One IRC line: `ParseLine` is the runner's parser, `Print` the RFC 1459 / RFC 2812
 * section 2.3.1 text of a message, with IRCv3 message tags in front.
 */
module IrcMessage {
  import opened Text
  import TagEscaping

  /** A tag has a text value, or none at all (the runner stores `true`). */
  datatype TagValue = Bare | Value(text: string)

  datatype Tag = Tag(key: string, value: TagValue)

  datatype Message = Message(tags: map<string, TagValue>, prefix: Option<string>, command: string, params: seq<string>)

  // ----- Parsing -----

  function ParseTag(entry: string): Tag {
    var parts := Split(entry, '=');
    var valueParts := parts[1..];
    Tag(parts[0], if valueParts == [] then Bare else Value(TagEscaping.Unescape(Join(valueParts, "="))))
  }

  function ParseTagList(entries: seq<string>): seq<Tag> {
    if entries == [] then [] else [ParseTag(entries[0])] + ParseTagList(entries[1..])
  }

  /** `Object.fromEntries`: a later entry with the same key replaces the earlier one. */
  function FromEntries(tags: seq<Tag>): map<string, TagValue> {
    if tags == [] then map[]
    else
      var last := tags[|tags| - 1];
      FromEntries(tags[..|tags| - 1])[last.key := last.value]
  }

  predicate NonEmpty(s: string) {
    s != ""
  }

  function ParseTags(raw: string): map<string, TagValue> {
    FromEntries(ParseTagList(Filter(Split(raw, ';'), NonEmpty)))
  }

  /** `s.replace(/^ +/, '')`. */
  function StripSpaces(s: string): (t: string)
    ensures |t| <= |s|
    ensures !StartsWith(t, ' ')
    ensures !StartsWith(s, ' ') ==> t == s
  {
    if StartsWith(s, ' ') then StripSpaces(s[1..]) else s
  }

  function ParseParams(rest: string): (params: seq<string>)
    decreases |rest|
  {
    if rest == "" then []
    else if rest[0] == ':' then [rest[1..]]
    else
      var space := IndexOf(rest, ' ');
      if space < 0 then [rest]
      else [rest[..space]] + ParseParams(StripSpaces(rest[space + 1..]))
  }

  /** What follows the tags and the prefix. */
  function ParseCommand(tags: map<string, TagValue>, prefix: Option<string>, rest: string,
                        upper: string -> string): Message {
    var space := IndexOf(rest, ' ');
    if space < 0 then Message(tags, prefix, upper(rest), [])
    else Message(tags, prefix, upper(rest[..space]), ParseParams(rest[space + 1..]))
  }

  function ParsePrefixed(tags: map<string, TagValue>, rest: string, upper: string -> string): Message {
    if !StartsWith(rest, ':') then ParseCommand(tags, None, rest, upper)
    else
      var space := IndexOf(rest, ' ');
      if space < 0 then Message(tags, Some(rest[1..]), "", [])
      else ParseCommand(tags, Some(rest[1..space]), rest[space + 1..], upper)
  }

  /** `parseIrcLine`; `upper` is the engine's `toUpperCase`. */
  function ParseLine(line: string, upper: string -> string): Message {
    if !StartsWith(line, '@') then ParsePrefixed(map[], line, upper)
    else
      var space := IndexOf(line, ' ');
      if space < 0 then Message(ParseTags(line[1..]), None, "", [])
      else ParsePrefixed(ParseTags(line[1..space]), line[space + 1..], upper)
  }

  /** The parser as the runner writes it: each part read is cut off `rest`. */
  method ParseIrcLine(line: string, upper: string -> string) returns (message: Message)
    ensures message == ParseLine(line, upper)
  {
    var rest := line;
    var tags := map[];
    if StartsWith(rest, '@') {
      var spaceIndex := IndexOf(rest, ' ');
      if spaceIndex == -1 {
        return Message(ParseTags(rest[1..]), None, "", []);
      }
      tags := ParseTags(rest[1..spaceIndex]);
      rest := rest[spaceIndex + 1..];
    }
    message := ParseIrcLineAfterTags(tags, rest, upper);
  }

  method ParseIrcLineAfterTags(tags: map<string, TagValue>, text: string, upper: string -> string)
    returns (message: Message)
    ensures message == ParsePrefixed(tags, text, upper)
  {
    var rest := text;
    var prefix := None;
    if StartsWith(rest, ':') {
      var spaceIndex := IndexOf(rest, ' ');
      if spaceIndex == -1 {
        return Message(tags, Some(rest[1..]), "", []);
      }
      prefix := Some(rest[1..spaceIndex]);
      rest := rest[spaceIndex + 1..];
    }

    message := ParseIrcCommand(tags, prefix, rest, upper);
  }

  method ParseIrcCommand(tags: map<string, TagValue>, prefix: Option<string>, text: string, upper: string -> string)
    returns (message: Message)
    ensures message == ParseCommand(tags, prefix, text, upper)
  {
    var firstSpaceIndex := IndexOf(text, ' ');
    var command := upper(if firstSpaceIndex == -1 then text else text[..firstSpaceIndex]);
    var rest := if firstSpaceIndex == -1 then "" else text[firstSpaceIndex + 1..];
    var params := ReadParams(rest);
    message := Message(tags, prefix, command, params);
  }

  /** The parameter loop: `rest` shrinks, `params` grows. */
  method ReadParams(text: string) returns (params: seq<string>)
    ensures params == ParseParams(text)
  {
    var rest := text;
    params := [];
    while |rest| > 0
      invariant params + ParseParams(rest) == ParseParams(text)
      decreases |rest|
    {
      if StartsWith(rest, ':') {
        params := params + [rest[1..]];
        return;
      }
      var spaceIndex := IndexOf(rest, ' ');
      if spaceIndex == -1 {
        params := params + [rest];
        return;
      }
      params := params + [rest[..spaceIndex]];
      rest := StripSpaces(rest[spaceIndex + 1..]);
    }
  }

  // ----- Printing -----

  function PrintTag(tag: Tag): string {
    match tag.value
    case Bare => tag.key
    case Value(text) => tag.key + "=" + TagEscaping.Escape(text)
  }

  function PrintTagList(tags: seq<Tag>): (entries: seq<string>)
    ensures |entries| == |tags|
  {
    if tags == [] then [] else [PrintTag(tags[0])] + PrintTagList(tags[1..])
  }

  /** Parameters separated by spaces, the last one as a trailing parameter. */
  function PrintList(params: seq<string>): string
    requires params != []
  {
    if |params| == 1 then ":" + params[0] else params[0] + " " + PrintList(params[1..])
  }

  function PrintParams(params: seq<string>): string {
    if params == [] then "" else " " + PrintList(params)
  }

  function PrintPrefixed(prefix: Option<string>, command: string, params: seq<string>): string {
    var rest := command + PrintParams(params);
    if prefix.Some? then ":" + prefix.value + " " + rest else rest
  }

  function Print(tags: seq<Tag>, prefix: Option<string>, command: string, params: seq<string>): string {
    var rest := PrintPrefixed(prefix, command, params);
    if tags == [] then rest else "@" + Join(PrintTagList(tags), ";") + " " + rest
  }

  // ----- What the grammar allows -----

  predicate GoodTag(tag: Tag) {
    tag.key != "" && ';' !in tag.key && '=' !in tag.key && ' ' !in tag.key
  }

  /**
   * All parameters but the last are middle parameters. The grammar has no empty middle parameter;
   * the parser reads one in first place when two spaces follow the command.
   */
  predicate GoodParams(params: seq<string>) {
    forall i :: 0 <= i < |params| - 1 ==>
      ' ' !in params[i] && !StartsWith(params[i], ':') && (i > 0 ==> params[i] != "")
  }

  /** Prefix and command hold no space, and nothing is mistaken for a prefix or for tags. */
  predicate GoodHead(tagged: bool, prefix: Option<string>, command: string) {
    && ' ' !in command
    && (prefix.Some? ==> ' ' !in prefix.value)
    && (prefix.None? ==> !StartsWith(command, ':') && (!tagged ==> !StartsWith(command, '@')))
  }

  // ----- Parsing undoes printing -----

  lemma ParseMiddle(param: string, more: string)
    requires ' ' !in param && !StartsWith(param, ':') && !StartsWith(more, ' ')
    ensures ParseParams(param + " " + more) == [param] + ParseParams(more)
  {
    var rest := param + [' '] + more;
    IndexOfAfter(param, ' ', more);
    assert rest[..|param|] == param && rest[|param| + 1..] == more;
    assert rest[0] != ':';
  }

  lemma TailIsGood(params: seq<string>)
    requires |params| > 1 && GoodParams(params)
    ensures GoodParams(params[1..]) && !StartsWith(PrintList(params[1..]), ' ')
  {
    var tail := params[1..];
    forall i | 0 <= i < |tail| - 1
      ensures ' ' !in tail[i] && !StartsWith(tail[i], ':') && tail[i] != ""
    {
      assert tail[i] == params[i + 1];
    }
    if |tail| > 1 {
      assert PrintList(tail)[0] == tail[0][0];
    }
  }

  lemma {:induction false} ParsePrintedParams(params: seq<string>)
    requires params != [] && GoodParams(params)
    ensures ParseParams(PrintList(params)) == params
  {
    if |params| == 1 {
      assert (":" + params[0])[1..] == params[0];
    } else {
      TailIsGood(params);
      ParsePrintedParams(params[1..]);
      ParseMiddle(params[0], PrintList(params[1..]));
    }
  }

  lemma ParsePrintedCommand(tags: map<string, TagValue>, prefix: Option<string>, command: string, params: seq<string>,
                            upper: string -> string)
    requires ' ' !in command && GoodParams(params)
    ensures ParseCommand(tags, prefix, command + PrintParams(params), upper)
         == Message(tags, prefix, upper(command), params)
  {
    if params == [] {
      assert command + "" == command;
    } else {
      var list := PrintList(params);
      var rest := command + [' '] + list;
      Regroup(command, " ", list);
      IndexOfAfter(command, ' ', list);
      assert rest[..|command|] == command && rest[|command| + 1..] == list;
      ParsePrintedParams(params);
    }
  }

  lemma ParsePrintedPrefix(tags: map<string, TagValue>, tagged: bool, prefix: Option<string>, command: string,
                           params: seq<string>, upper: string -> string)
    requires GoodHead(tagged, prefix, command) && GoodParams(params)
    ensures ParsePrefixed(tags, PrintPrefixed(prefix, command, params), upper)
         == Message(tags, prefix, upper(command), params)
  {
    ParsePrintedCommand(tags, prefix, command, params, upper);
    if prefix.Some? {
      ParseAfterPrefix(tags, prefix.value, command + PrintParams(params), upper);
    } else {
      CommandStart(command, params, ':');
    }
  }

  lemma ParseAfterPrefix(tags: map<string, TagValue>, prefix: string, rest: string, upper: string -> string)
    requires ' ' !in prefix
    ensures ParsePrefixed(tags, ":" + prefix + " " + rest, upper) == ParseCommand(tags, Some(prefix), rest, upper)
  {
    var head := ":" + prefix;
    var text := head + [' '] + rest;
    IndexOfAfter(head, ' ', rest);
    assert text[1..|head|] == prefix && text[|head| + 1..] == rest;
    assert text == ":" + prefix + " " + rest;
  }

  lemma ParseAfterTags(list: string, rest: string, upper: string -> string)
    requires ' ' !in list
    ensures ParseLine("@" + list + " " + rest, upper) == ParsePrefixed(ParseTags(list), rest, upper)
  {
    var head := "@" + list;
    var text := head + [' '] + rest;
    IndexOfAfter(head, ' ', rest);
    assert text[1..|head|] == list && text[|head| + 1..] == rest;
    assert text == "@" + list + " " + rest;
  }

  /** What a tag comes back as: its text may be altered, as `TagEscaping.ComesBackAs` says. */
  function TagComesBackAs(tag: Tag): Tag {
    match tag.value
    case Bare => tag
    case Value(text) => tag.(value := Value(TagEscaping.ComesBackAs(text)))
  }

  function TagsComeBackAs(tags: seq<Tag>): (back: seq<Tag>)
    ensures |back| == |tags|
    ensures forall i :: 0 <= i < |tags| ==> back[i] == TagComesBackAs(tags[i])
  {
    if tags == [] then [] else [TagComesBackAs(tags[0])] + TagsComeBackAs(tags[1..])
  }

  lemma ParsePrintedTag(tag: Tag)
    requires GoodTag(tag)
    ensures ParseTag(PrintTag(tag)) == TagComesBackAs(tag)
    ensures PrintTag(tag) != "" && ';' !in PrintTag(tag) && ' ' !in PrintTag(tag)
  {
    if tag.value.Value? {
      var escaped := TagEscaping.Escape(tag.value.text);
      IndexOfAfter(tag.key, '=', escaped);
      var text := PrintTag(tag);
      assert text == tag.key + ['='] + escaped;
      assert text[..|tag.key|] == tag.key && text[|tag.key| + 1..] == escaped;
      assert Split(text, '=')[1..] == Split(escaped, '=');
      JoinUndoesSplit(escaped, '=');
      TagEscaping.UnescapeOfEscape(tag.value.text);
    }
  }

  lemma {:induction false} ParsePrintedTagList(tags: seq<Tag>)
    requires forall i :: 0 <= i < |tags| ==> GoodTag(tags[i])
    ensures ParseTagList(PrintTagList(tags)) == TagsComeBackAs(tags)
    ensures forall i :: 0 <= i < |tags| ==>
      var e := PrintTagList(tags)[i]; e != "" && ';' !in e && ' ' !in e
  {
    if tags != [] {
      ParsePrintedTag(tags[0]);
      ParsePrintedTagList(tags[1..]);
      assert PrintTagList(tags)[1..] == PrintTagList(tags[1..]);
      forall i | 0 <= i < |tags|
        ensures var e := PrintTagList(tags)[i]; e != "" && ';' !in e && ' ' !in e
      {
        if i > 0 {
          assert PrintTagList(tags)[i] == PrintTagList(tags[1..])[i - 1];
        }
      }
    }
  }

  lemma {:induction false} JoinHasNo(parts: seq<string>, separator: char, c: char)
    requires c != separator
    requires forall i :: 0 <= i < |parts| ==> c !in parts[i]
    ensures c !in Join(parts, [separator])
  {
    if |parts| > 1 {
      JoinHasNo(parts[1..], separator, c);
    }
  }

  lemma ParsePrintedTags(tags: seq<Tag>)
    requires tags != []
    requires forall i :: 0 <= i < |tags| ==> GoodTag(tags[i])
    ensures ParseTags(Join(PrintTagList(tags), ";")) == FromEntries(TagsComeBackAs(tags))
    ensures ' ' !in Join(PrintTagList(tags), ";")
  {
    var entries := PrintTagList(tags);
    ParsePrintedTagList(tags);
    SplitUndoesJoin(entries, ';');
    FilterKeepsAll(entries, NonEmpty);
    JoinHasNo(entries, ';', ' ');
  }

  /** Parsing the text of a message gives the message, up to what its tag values come back as. */
  lemma ParseOfPrint(tags: seq<Tag>, prefix: Option<string>, command: string, params: seq<string>,
                     upper: string -> string)
    requires forall i :: 0 <= i < |tags| ==> GoodTag(tags[i])
    requires GoodHead(tags != [], prefix, command) && GoodParams(params)
    ensures ParseLine(Print(tags, prefix, command, params), upper)
         == Message(FromEntries(TagsComeBackAs(tags)), prefix, upper(command), params)
  {
    var rest := PrintPrefixed(prefix, command, params);
    ParsePrintedPrefix(FromEntries(TagsComeBackAs(tags)), tags != [], prefix, command, params, upper);
    if tags == [] {
      UntaggedStart(prefix, command, params);
    } else {
      ParsePrintedTags(tags);
      ParseAfterTags(Join(PrintTagList(tags), ";"), rest, upper);
    }
  }

  lemma CommandStart(command: string, params: seq<string>, c: char)
    requires c != ' ' && !StartsWith(command, c)
    ensures !StartsWith(command + PrintParams(params), c)
  {
    if command == "" && params != [] {
      assert PrintParams(params)[0] == ' ';
    }
  }

  lemma UntaggedStart(prefix: Option<string>, command: string, params: seq<string>)
    requires GoodHead(false, prefix, command)
    ensures !StartsWith(PrintPrefixed(prefix, command, params), '@')
  {
    if prefix.None? {
      CommandStart(command, params, '@');
    }
  }

  predicate DistinctKeys(tags: seq<Tag>) {
    forall i, j :: 0 <= i < j < |tags| ==> tags[i].key != tags[j].key
  }

  predicate CleanTag(tag: Tag) {
    tag.value.Value? ==> TagEscaping.Clean(tag.value.text)
  }

  /** The tag object has the listed keys; with distinct keys each keeps its own value. */
  lemma {:induction false} FromEntriesKeys(tags: seq<Tag>)
    ensures FromEntries(tags).Keys == set i | 0 <= i < |tags| :: tags[i].key
  {
    if tags != [] {
      var front := tags[..|tags| - 1];
      FromEntriesKeys(front);
      assert forall i :: 0 <= i < |front| ==> front[i] == tags[i];
    }
  }

  lemma {:induction false} FromDistinctEntries(tags: seq<Tag>, i: nat)
    requires DistinctKeys(tags) && i < |tags|
    ensures tags[i].key in FromEntries(tags) && FromEntries(tags)[tags[i].key] == tags[i].value
  {
    var front := tags[..|tags| - 1];
    if i < |front| {
      FromDistinctEntries(front, i);
      assert front[i] == tags[i];
    }
  }

  lemma TagsComeBackExactly(tags: seq<Tag>)
    requires DistinctKeys(tags)
    ensures FromEntries(TagsComeBackAs(tags)) == FromEntries(tags)
       <==> forall i :: 0 <= i < |tags| ==> CleanTag(tags[i])
  {
    if i :| 0 <= i < |tags| && !CleanTag(tags[i]) {
      DistinctEntriesDiffer(TagsComeBackAs(tags), tags, i);
    } else {
      forall i | 0 <= i < |tags| ensures TagsComeBackAs(tags)[i] == tags[i] {
        TagComesBackExactly(tags[i]);
      }
      assert TagsComeBackAs(tags) == tags;
    }
  }

  lemma DistinctEntriesDiffer(back: seq<Tag>, tags: seq<Tag>, i: nat)
    requires DistinctKeys(tags) && i < |tags| == |back|
    requires forall j :: 0 <= j < |tags| ==> back[j] == TagComesBackAs(tags[j])
    requires !CleanTag(tags[i])
    ensures FromEntries(back) != FromEntries(tags)
  {
    TagComesBackExactly(tags[i]);
    assert forall j :: 0 <= j < |tags| ==> back[j].key == tags[j].key;
    FromDistinctEntries(tags, i);
    FromDistinctEntries(back, i);
  }

  lemma TagComesBackExactly(tag: Tag)
    ensures TagComesBackAs(tag) == tag <==> CleanTag(tag)
  {
    if tag.value.Value? {
      TagEscaping.UnescapeOfEscape(tag.value.text);
      TagEscaping.RoundTripExactlyWhenClean(tag.value.text);
    }
  }

  /**
   * The message itself comes back exactly when its command is in upper case and every tag value is
   * free of a backslash right before an escape letter.
   */
  lemma ParsingUndoesPrintingExactly(tags: seq<Tag>, prefix: Option<string>, command: string, params: seq<string>,
                                     upper: string -> string)
    requires forall i :: 0 <= i < |tags| ==> GoodTag(tags[i])
    requires DistinctKeys(tags)
    requires GoodHead(tags != [], prefix, command) && GoodParams(params)
    ensures ParseLine(Print(tags, prefix, command, params), upper)
         == Message(FromEntries(tags), prefix, command, params)
       <==> upper(command) == command && forall i :: 0 <= i < |tags| ==> CleanTag(tags[i])
  {
    ParseOfPrint(tags, prefix, command, params, upper);
    TagsComeBackExactly(tags);
  }

  // ----- Printing what was parsed -----

  /** What is relied on of `toUpperCase`. */
  ghost predicate UpperCases(upper: string -> string) {
    forall s: string ::
      && upper(upper(s)) == upper(s)
      && (' ' in upper(s) <==> ' ' in s)
      && (StartsWith(upper(s), ':') <==> StartsWith(s, ':'))
      && (StartsWith(upper(s), '@') <==> StartsWith(s, '@'))
  }

  function AsciiUpper(s: string): (u: string)
    ensures |u| == |s|
    ensures forall i :: 0 <= i < |s| ==> u[i] == if 'a' <= s[i] <= 'z' then s[i] - 32 as char else s[i]
  {
    if s == "" then "" else [if 'a' <= s[0] <= 'z' then s[0] - 32 as char else s[0]] + AsciiUpper(s[1..])
  }

  lemma AsciiUpperCases()
    ensures UpperCases(AsciiUpper)
  {
    forall s: string
      ensures AsciiUpper(AsciiUpper(s)) == AsciiUpper(s)
      ensures ' ' in AsciiUpper(s) <==> ' ' in s
    {
      if ' ' in s {
        var i :| 0 <= i < |s| && s[i] == ' ';
        assert AsciiUpper(s)[i] == ' ';
      }
    }
  }

  lemma {:induction false} ParsedParamsAreGood(rest: string)
    ensures GoodParams(ParseParams(rest))
    ensures !StartsWith(rest, ' ') && ParseParams(rest) != [] && |ParseParams(rest)| > 1 ==> ParseParams(rest)[0] != ""
    decreases |rest|
  {
    if rest != "" && rest[0] != ':' {
      var space := IndexOf(rest, ' ');
      if space >= 0 {
        var next := StripSpaces(rest[space + 1..]);
        ParsedParamsAreGood(next);
        var params := ParseParams(rest);
        var more := ParseParams(next);
        forall i | 0 <= i < |params| - 1
          ensures ' ' !in params[i] && !StartsWith(params[i], ':') && (i > 0 ==> params[i] != "")
        {
          if i > 0 {
            assert params[i] == more[i - 1];
          }
        }
      }
    }
  }

  /** The messages that lines without tags parse to. */
  predicate Parsed(m: Message, upper: string -> string) {
    && m.tags == map[]
    && upper(m.command) == m.command
    && GoodHead(false, m.prefix, m.command)
    && GoodParams(m.params)
  }

  lemma ParsedCommandIsGood(prefix: Option<string>, rest: string, upper: string -> string)
    requires UpperCases(upper)
    requires prefix.Some? ==> ' ' !in prefix.value
    requires prefix.None? ==> !StartsWith(rest, ':') && !StartsWith(rest, '@')
    ensures Parsed(ParseCommand(map[], prefix, rest, upper), upper)
  {
    var space := IndexOf(rest, ' ');
    var word := if space < 0 then rest else rest[..space];
    assert upper(upper(word)) == upper(word);
    if space >= 0 {
      ParsedParamsAreGood(rest[space + 1..]);
    }
  }

  lemma ParsedLineIsGood(line: string, upper: string -> string)
    requires UpperCases(upper) && !StartsWith(line, '@')
    requires upper("") == ""
    ensures Parsed(ParseLine(line, upper), upper)
  {
    if StartsWith(line, ':') {
      var space := IndexOf(line, ' ');
      if space >= 0 {
        ParsedCommandIsGood(Some(line[1..space]), line[space + 1..], upper);
      }
    } else {
      ParsedCommandIsGood(None, line, upper);
    }
  }

  /** Printing the parse of a line without tags, and parsing again, changes nothing. */
  lemma ParsePrintParse(line: string, upper: string -> string)
    requires UpperCases(upper) && upper("") == ""
    requires !StartsWith(line, '@')
    ensures var m := ParseLine(line, upper);
            ParseLine(Print([], m.prefix, m.command, m.params), upper) == m
  {
    var m := ParseLine(line, upper);
    ParsedLineIsGood(line, upper);
    ParseOfPrint([], m.prefix, m.command, m.params, upper);
  }

  /** `Parsed` describes the parser's range on lines without tags, no more and no less. */
  lemma ParsedExactly(m: Message, upper: string -> string)
    requires UpperCases(upper) && upper("") == ""
    ensures Parsed(m, upper) <==> exists line :: !StartsWith(line, '@') && ParseLine(line, upper) == m
  {
    if Parsed(m, upper) {
      var line := Print([], m.prefix, m.command, m.params);
      ParseOfPrint([], m.prefix, m.command, m.params, upper);
      assert !StartsWith(line, '@');
    } else if exists line :: !StartsWith(line, '@') && ParseLine(line, upper) == m {
      var line :| !StartsWith(line, '@') && ParseLine(line, upper) == m;
      ParsedLineIsGood(line, upper);
    }
  }
}
