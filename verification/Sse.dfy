/** The server-sent event reader and writer of internal/upstream/sse.go, for the `data` lines of
    section 9.2 of the WHATWG HTML Living Standard. A char stands for one byte. */
module Sse {
  import opened Options

  datatype Chunk = Data(data: string) | Done

  const PREFIX := "data: "
  const DONE_MARK := "[DONE]"

  // ---- Reading ----------------------------------------------------------------

  function FirstNewline(s: string): (i: nat)
    ensures i <= |s|
  {
    if s == "" || s[0] == '\n' then 0 else 1 + FirstNewline(s[1..])
  }

  lemma {:induction false} FirstNewlineSplits(s: string)
    ensures var i := FirstNewline(s);
            '\n' !in s[..i] && if i < |s| then s == s[..i] + "\n" + s[i + 1..] else '\n' !in s
  {
    if s != "" && s[0] != '\n' {
      FirstNewlineSplits(s[1..]);
      var i := FirstNewline(s[1..]);
      assert s[..i + 1] == [s[0]] + s[1..][..i];
    }
  }

  function Chomp(line: string, c: char): string {
    if line != "" && line[|line| - 1] == c then line[..|line| - 1] else line
  }

  /** `processSSELine`: the chunk a line yields, if any. Only a line starting with the prefix does. */
  function Process(line: string): Option<Chunk> {
    var text := Chomp(Chomp(line, '\n'), '\r');
    if |text| < 6 || text[..6] != PREFIX then None
    else if text[6..] == DONE_MARK then Some(Done)
    else Some(Data(text[6..]))
  }

  function Yield(line: string): seq<Chunk> {
    if Process(line).Some? then [Process(line).value] else []
  }

  /** A line with its line end, which the last line of a body may lack. */
  function LineOf(body: string): (line: string)
    requires body != ""
    ensures 0 < |line| <= |body|
  {
    var i := FirstNewline(body);
    if i == |body| then body else body[..i + 1]
  }

  function Parse(body: string): seq<Chunk> {
    if body == "" then [] else Yield(LineOf(body)) + Parse(body[|LineOf(body)|..])
  }

  method ProcessSSELine(line0: string) returns (chunk: Option<Chunk>)
    ensures chunk == Process(line0)
  {
    var line := line0;
    if |line| == 0 || line == "\r\n" || line == "\n" {
      return None;
    }
    if |line| > 0 && line[|line| - 1] == '\n' {
      line := line[..|line| - 1];
    }
    if |line| > 0 && line[|line| - 1] == '\r' {
      line := line[..|line| - 1];
    }
    if |line| < 6 {
      return None;
    }
    if line[..6] == PREFIX {
      var data := line[6..];
      if data == DONE_MARK {
        return Some(Done);
      }
      return Some(Data(data));
    }
    return None;
  }

  method ReadSSEChunks(body: string) returns (ch: seq<Chunk>)
    ensures ch == Parse(body)
  {
    hide Process, LineOf, Parse;
    ch := [];
    var rest := body;
    while rest != ""
      invariant ch + Parse(rest) == Parse(body)
      decreases |rest|
    {
      var line := LineOf(rest);
      ParseAdvance(ch, rest);
      var chunk := ProcessSSELine(line);
      if chunk.Some? {
        ch := ch + [chunk.value];
      }
      rest := rest[|line|..];
    }
    ParseNothing();
  }

  lemma ParseAdvance(ch: seq<Chunk>, rest: string)
    requires rest != ""
    ensures ch + Parse(rest) == ch + Yield(LineOf(rest)) + Parse(rest[|LineOf(rest)|..])
  {
    hide LineOf, Yield;
  }

  lemma ParseNothing()
    ensures Parse("") == []
  {
  }

  // ---- Writing ----------------------------------------------------------------

  function Frame(c: Chunk): string {
    PREFIX + (if c.Done? then DONE_MARK else c.data) + "\n\n"
  }

  /** What is written: every chunk up to and including the first done marker. */
  function UpToDone(cs: seq<Chunk>): seq<Chunk> {
    if cs == [] then []
    else if cs[0].Done? then [Done]
    else [cs[0]] + UpToDone(cs[1..])
  }

  function Frames(cs: seq<Chunk>): string {
    if cs == [] then "" else Frame(cs[0]) + Frames(cs[1..])
  }

  /** `StreamToWriter`. The byte count is exact until the done marker, whose frame of 14 bytes is
      counted as 12; `done` comes back true either way. */
  method StreamToWriter(ch: seq<Chunk>) returns (out: string, totalBytes: nat, firstChunkSize: nat, done: bool)
    ensures out == Frames(UpToDone(ch)) && done
    ensures totalBytes == |out| - if Done in ch then 2 else 0
    ensures firstChunkSize == if ch == [] || ch[0].Done? then 0 else |Frame(ch[0])|
  {
    out, totalBytes, firstChunkSize, done := "", 0, 0, false;
    var i := 0;
    while i < |ch|
      invariant 0 <= i <= |ch| && Done !in ch[..i]
      invariant out == Frames(ch[..i]) && totalBytes == |out|
      invariant firstChunkSize == if i == 0 then 0 else |Frame(ch[0])|
    {
      var chunk := ch[i];
      FramesAppend(ch[..i], chunk);
      assert ch[..i] + [chunk] == ch[..i + 1];
      if chunk.Done? {
        out := out + PREFIX + DONE_MARK + "\n\n";
        totalBytes := totalBytes + 12;
        done := true;
        UpToDoneStops(ch, i);
        assert Done in ch;
        return;
      }
      var line := PREFIX + chunk.data + "\n\n";
      out := out + line;
      totalBytes := totalBytes + |line|;
      if firstChunkSize == 0 {
        firstChunkSize := |line|;
      }
      i := i + 1;
    }
    assert ch[..i] == ch;
    UpToDoneAll(ch);
    done := true;
  }

  lemma {:induction false} FramesAppend(cs: seq<Chunk>, c: Chunk)
    ensures Frames(cs + [c]) == Frames(cs) + Frame(c)
  {
    hide Frame;
    if cs == [] {
      assert cs + [c] == [c] && [c][1..] == [];
    } else {
      FramesAppend(cs[1..], c);
      assert (cs + [c])[1..] == cs[1..] + [c];
    }
  }

  lemma {:induction false} UpToDoneStops(cs: seq<Chunk>, i: nat)
    requires i < |cs| && cs[i] == Done && Done !in cs[..i]
    ensures UpToDone(cs) == cs[..i + 1]
  {
    if i > 0 {
      assert cs[0] in cs[..i];
      assert cs[1..][..i - 1] == cs[..i][1..];
      UpToDoneStops(cs[1..], i - 1);
    }
  }

  lemma {:induction false} UpToDoneAll(cs: seq<Chunk>)
    requires Done !in cs
    ensures UpToDone(cs) == cs
  {
    if cs != [] {
      UpToDoneAll(cs[1..]);
    }
  }

  /** The bytes of the data of some chunks. */
  function Payload(cs: seq<Chunk>): nat {
    if cs == [] then 0 else (if cs[0].Done? then |DONE_MARK| else |cs[0].data|) + Payload(cs[1..])
  }

  /** The framing costs eight bytes for each chunk, and nothing else is written. */
  lemma {:induction false} FramingCost(cs: seq<Chunk>)
    ensures |Frames(cs)| == Payload(cs) + 8 * |cs|
  {
    if cs != [] {
      FramingCost(cs[1..]);
    }
  }

  // ---- Round trip -------------------------------------------------------------

  /** Data that survives one line of the framing. */
  predicate Clean(data: string) {
    '\n' !in data && (data == "" || data[|data| - 1] != '\r') && data != DONE_MARK
  }

  lemma {:induction false} FirstNewlineOf(line: string, rest: string)
    requires '\n' !in line
    ensures FirstNewline(line + "\n" + rest) == |line|
  {
    if line != "" {
      FirstNewlineOf(line[1..], rest);
      assert (line + "\n" + rest)[1..] == line[1..] + "\n" + rest;
    }
  }

  /** Bodies that end in a line end can be read one after the other. */
  lemma {:induction false} ParseConcat(a: string, b: string)
    requires a == "" || a[|a| - 1] == '\n'
    ensures Parse(a + b) == Parse(a) + Parse(b)
    decreases |a|
  {
    assert Parse("") == [];
    hide *;
    if a == "" {
      assert a + b == b;
    } else {
      var line, rest := FirstLine(a);
      ParseConcat(rest, b);
      ParseConcatStep(line, rest, b);
    }
  }

  lemma ParseConcatStep(line: string, rest: string, b: string)
    requires '\n' !in line && Parse(rest + b) == Parse(rest) + Parse(b)
    ensures Parse(line + "\n" + rest + b) == Parse(line + "\n" + rest) + Parse(b)
  {
    hide *;
    ParseLine(line, rest);
    ParseLine(line, rest + b);
    assert line + "\n" + rest + b == line + "\n" + (rest + b);
  }

  lemma FirstLine(a: string) returns (line: string, rest: string)
    requires a != "" && a[|a| - 1] == '\n'
    ensures a == line + "\n" + rest && '\n' !in line && (rest == "" || rest[|rest| - 1] == '\n')
  {
    var i := FirstNewline(a);
    FirstNewlineSplits(a);
    assert a[|a| - 1] in a;
    hide *;
    line, rest := a[..i], a[i + 1..];
  }

  lemma ParseLine(line: string, rest: string)
    requires '\n' !in line
    ensures Parse(line + "\n" + rest) == Yield(line + "\n") + Parse(rest)
  {
    var body := line + "\n" + rest;
    FirstNewlineOf(line, rest);
    assert LineOf(body) == line + "\n" by {
      assert body[..|line| + 1] == line + "\n";
    }
    assert body[|line| + 1..] == rest;
    hide LineOf, Yield, FirstNewline;
  }

  /** One trailing carriage return of the data goes with the line end. */
  function Received(data: string): Chunk {
    if Chomp(data, '\r') == DONE_MARK then Done else Data(Chomp(data, '\r'))
  }

  lemma ChompAfter(prefix: string, data: string)
    requires prefix != "" && prefix[|prefix| - 1] != '\r'
    ensures Chomp(Chomp(prefix + data + "\n", '\n'), '\r') == prefix + Chomp(data, '\r')
  {
    assert Chomp(prefix + data + "\n", '\n') == prefix + data;
  }

  lemma YieldOfData(data: string)
    ensures Yield(PREFIX + data + "\n") == [Received(data)]
  {
    ChompAfter(PREFIX, data);
    hide Chomp;
    var text := PREFIX + Chomp(data, '\r');
    assert text[..6] == PREFIX && text[6..] == Chomp(data, '\r');
  }

  lemma ParseDataLine(data: string, rest: string)
    requires '\n' !in data
    ensures Parse(PREFIX + data + "\n" + rest) == [Received(data)] + Parse(rest)
  {
    YieldOfData(data);
    hide Parse, Yield, Received;
    ParseLine(PREFIX + data, rest);
  }

  lemma ParseCleanFrame(c: Chunk)
    requires c.Data? ==> Clean(c.data)
    ensures Parse(Frame(c)) == [c]
  {
    var data := if c.Done? then DONE_MARK else c.data;
    ParseDataLine(data, "\n");
    ParseEmptyLine();
    assert Received(data) == c;
    hide Parse, Received, Clean;
    TwoLineEnds(PREFIX + data);
  }

  lemma TwoLineEnds(s: string)
    ensures s + "\n\n" == s + "\n" + "\n"
  {
  }

  lemma ParseEmptyLine()
    ensures Parse("\n") == []
  {
    assert FirstNewline("\n") == 0;
    assert LineOf("\n") == "\n";
    assert Yield("\n") == [];
  }

  /** Any other data comes back as something else. */
  lemma ParseUncleanFrame(data: string)
    requires !Clean(data)
    ensures Parse(Frame(Data(data))) != [] && Parse(Frame(Data(data)))[0] != Data(data)
  {
    if '\n' !in data {
      ParseDataLine(data, "\n");
      assert Received(data) != Data(data);
      hide Parse, Received, Clean;
      TwoLineEnds(PREFIX + data);
    } else {
      var i := FirstNewline(data);
      FirstNewlineSplits(data);
      BrokenLine(data[..i], data[i + 1..]);
    }
  }

  lemma BrokenLine(line: string, tail: string)
    requires '\n' !in line
    ensures var data := line + "\n" + tail;
            Parse(Frame(Data(data))) != [] && Parse(Frame(Data(data)))[0] != Data(data)
  {
    ParseDataLine(line, tail + "\n\n");
    Regroup(PREFIX, line, "\n", tail, "\n\n");
    ReceivedIsShort(line, line + "\n" + tail);
    hide Parse, Received;
  }

  lemma Regroup(a: string, b: string, c: string, d: string, e: string)
    ensures a + (b + c + d) + e == a + b + c + (d + e)
  {
  }

  lemma ReceivedIsShort(line: string, data: string)
    requires |line| < |data|
    ensures Received(line) != Data(data)
  {
  }

  lemma FrameEnds(c: Chunk)
    ensures Frame(c) != "" && Frame(c)[|Frame(c)| - 1] == '\n'
  {
  }

  /** Reading what was written gives the chunks back, done marker included and everything after it cut
      off, exactly when no data written contains a newline, ends in a carriage return or is the done
      marker's text. */
  lemma {:induction false} RoundTripIff(cs: seq<Chunk>)
    ensures Parse(Frames(UpToDone(cs))) == UpToDone(cs)
       <==> forall c :: c in UpToDone(cs) && c.Data? ==> Clean(c.data)
  {
    if cs == [] {
    } else if cs[0].Done? {
      ParseCleanFrame(Done);
      assert Frames([Done]) == Frame(Done) + Frames([]) == Frame(Done);
    } else {
      var c, more := cs[0], UpToDone(cs[1..]);
      RoundTripIff(cs[1..]);
      assert UpToDone(cs)[1..] == more;
      FrameEnds(c);
      ParseConcat(Frame(c), Frames(more));
      if Clean(c.data) {
        ParseCleanFrame(c);
        hide Parse, Frame, Clean, Frames;
        assert ([c] + Parse(Frames(more)) == [c] + more) <==> Parse(Frames(more)) == more;
      } else {
        ParseUncleanFrame(c.data);
        hide Parse, Frame, Clean, Frames;
        assert c in UpToDone(cs);
      }
    }
  }

  /** What the proxy does end to end: a stream of frames, with lines of other fields or comments
      anywhere between them, is forwarded as the frames alone. */
  lemma OtherLinesAreDropped(a: string, line: string, b: string)
    requires a == "" || a[|a| - 1] == '\n'
    requires '\n' !in line && !(PREFIX <= line)
    ensures Parse(a + line + "\n" + b) == Parse(a + b)
  {
    hide Parse, Process;
    assert a + line + "\n" + b == a + (line + "\n" + b);
    ParseConcat(a, line + "\n" + b);
    ParseConcat(a, b);
    ParseLine(line, b);
    NoPrefixNoChunk(line);
  }

  lemma NoPrefixNoChunk(line: string)
    requires !(PREFIX <= line)
    ensures Yield(line + "\n") == []
  {
    assert Chomp(line + "\n", '\n') == line;
    assert Chomp(line, '\r') <= line;
  }
}
