/**
 * Cutting the incoming character stream into lines. A chunk is appended to the carried text, the
 * whole is split at CR LF or LF, and what follows the last line end is carried to the next chunk.
 */
module Framing {
  import opened Text

  /** One pass over the carried text: the complete lines, and what is carried on. */
  datatype Framed = Framed(lines: seq<string>, tail: string)

  /** `s.replace(/\r$/, '')`. */
  function DropReturn(s: string): string {
    if s != "" && s[|s| - 1] == '\r' then s[..|s| - 1] else s
  }

  /** `text.split(/\r\n|\n/)`. */
  function SplitLines(text: string): (pieces: seq<string>)
    ensures pieces != []
    decreases |text|
  {
    var end := IndexOf(text, '\n');
    if end < 0 then [text] else [DropReturn(text[..end])] + SplitLines(text[end + 1..])
  }

  function DropReturns(lines: seq<string>): seq<string> {
    if lines == [] then [] else [DropReturn(lines[0])] + DropReturns(lines[1..])
  }

  /** The pieces of a split: complete lines, and what is carried on. */
  function Cut(pieces: seq<string>): Framed
    requires pieces != []
  {
    Framed(DropReturns(pieces[..|pieces| - 1]), pieces[|pieces| - 1])
  }

  /** What one `data` event does with the carried text and the chunk. */
  function Feed(tail: string, chunk: string): Framed {
    Cut(SplitLines(tail + chunk))
  }

  function FeedAll(tail: string, chunks: seq<string>): Framed
    decreases |chunks|
  {
    if chunks == [] then Framed([], tail)
    else
      var first := Feed(tail, chunks[0]);
      var rest := FeedAll(first.tail, chunks[1..]);
      Framed(first.lines + rest.lines, rest.tail)
  }

  function Concat(chunks: seq<string>): string {
    if chunks == [] then "" else chunks[0] + Concat(chunks[1..])
  }

  /** The framing of a text, line end by line end. */
  function Frame(text: string): (f: Framed)
    ensures '\n' !in f.tail
    decreases |text|
  {
    var end := IndexOf(text, '\n');
    if end < 0 then Framed([], text)
    else
      var rest := Frame(text[end + 1..]);
      Framed([DropReturn(DropReturn(text[..end]))] + rest.lines, rest.tail)
  }

  lemma CutFirst(piece: string, more: seq<string>)
    requires more != []
    ensures Cut([piece] + more) == Framed([DropReturn(piece)] + Cut(more).lines, Cut(more).tail)
  {
    var lines := ([piece] + more)[..|more|];
    assert lines[0] == piece && lines[1..] == more[..|more| - 1];
  }

  lemma {:induction false} CutIsFrame(text: string)
    ensures Cut(SplitLines(text)) == Frame(text)
    decreases |text|
  {
    var end := IndexOf(text, '\n');
    if end >= 0 {
      CutIsFrame(text[end + 1..]);
      CutFirst(DropReturn(text[..end]), SplitLines(text[end + 1..]));
    }
  }

  /** Two framings one after the other, the carried text of the first put before the second text. */
  function FrameBoth(first: string, second: string): Framed {
    var a := Frame(first);
    var b := Frame(a.tail + second);
    Framed(a.lines + b.lines, b.tail)
  }

  lemma {:induction false} FrameInTwo(first: string, second: string)
    ensures Frame(first + second) == FrameBoth(first, second)
    decreases |first|
  {
    var end := IndexOf(first, '\n');
    if end >= 0 {
      CutOut(first, end);
      FrameInTwo(first[end + 1..], second);
      FrameLineInTwo(first, first[..end], first[end + 1..], second);
    }
  }

  lemma FrameLineInTwo(first: string, line: string, rest: string, second: string)
    requires '\n' !in line && first == line + ['\n'] + rest
    requires Frame(rest + second) == FrameBoth(rest, second)
    ensures Frame(first + second) == FrameBoth(first, second)
  {
    Regroup(line + ['\n'], rest, second);
    FrameLine(line, rest);
    FrameLine(line, rest + second);
    var a := Frame(rest);
    Regroup([DropReturn(DropReturn(line))], a.lines, Frame(a.tail + second).lines);
  }

  lemma FrameLine(line: string, rest: string)
    requires '\n' !in line
    ensures Frame(line + ['\n'] + rest) == Framed([DropReturn(DropReturn(line))] + Frame(rest).lines, Frame(rest).tail)
  {
    var text := line + ['\n'] + rest;
    IndexOfAfter(line, '\n', rest);
    assert text[..|line|] == line && text[|line| + 1..] == rest;
  }

  lemma FeedIsFrame(tail: string, chunk: string)
    ensures Feed(tail, chunk) == Frame(tail + chunk)
  {
    CutIsFrame(tail + chunk);
  }

  /** Chunk by chunk, or all at once: the same lines in the same order, and the same carried text. */
  lemma {:induction false} ChunkingIsIrrelevant(tail: string, chunks: seq<string>)
    requires '\n' !in tail
    ensures FeedAll(tail, chunks) == Feed(tail, Concat(chunks))
    decreases |chunks|
  {
    FeedIsFrame(tail, Concat(chunks));
    if chunks == [] {
      assert tail + "" == tail;
    } else {
      FeedIsFrame(tail, chunks[0]);
      var first := Feed(tail, chunks[0]);
      ChunkingIsIrrelevant(first.tail, chunks[1..]);
      FeedIsFrame(first.tail, Concat(chunks[1..]));
      FrameInTwo(tail + chunks[0], Concat(chunks[1..]));
      Regroup(tail, chunks[0], Concat(chunks[1..]));
    }
  }

  /** A line on the wire: any text without LF that does not end in CR. */
  predicate WireLine(line: string) {
    '\n' !in line && (line != "" ==> line[|line| - 1] != '\r')
  }

  /** The sender's side: every line followed by CR LF. */
  function Send(lines: seq<string>): string {
    if lines == [] then "" else lines[0] + "\r" + "\n" + Send(lines[1..])
  }

  lemma {:induction false} FrameOfSend(lines: seq<string>)
    requires forall i :: 0 <= i < |lines| ==> WireLine(lines[i])
    ensures Frame(Send(lines)) == Framed(lines, "")
  {
    if lines != [] {
      FrameOfSend(lines[1..]);
      FrameLine(lines[0] + "\r", Send(lines[1..]));
      assert DropReturn(lines[0] + "\r") == lines[0];
    }
  }

  /** However the sent text is cut into chunks, exactly the sent lines arrive and nothing is carried. */
  lemma SentLinesArrive(lines: seq<string>, chunks: seq<string>)
    requires forall i :: 0 <= i < |lines| ==> WireLine(lines[i])
    requires Concat(chunks) == Send(lines)
    ensures FeedAll("", chunks) == Framed(lines, "")
  {
    ChunkingIsIrrelevant("", chunks);
    FeedIsFrame("", Send(lines));
    assert "" + Send(lines) == Send(lines);
    FrameOfSend(lines);
  }
}
