/** How the raw lines of a stream are read, and what of them reaches the output. */
module StreamReading {
  import opened Wrappers
  import opened Text
  import opened StreamSpec
  import opened StreamProofs

  // ---------------------------------------------------------------- data lines

  /** A data line: blanks, the prefix, blanks, the body, blanks. */
  ghost predicate IsDataLine(line: string, body: string) {
    Trimmed(body) && exists a, b, c :: Around(line, a, b, body, c)
  }

  predicate Around(line: string, a: string, b: string, body: string, c: string) {
    Blank(a) && Blank(b) && Blank(c) && line == a + "data:" + b + body + c
  }

  lemma BlanksJoin(a: string, b: string)
    requires Blank(a) && Blank(b)
    ensures Blank(a + b)
  {
  }

  lemma DataLineReads(line: string, a: string, b: string, body: string, c: string)
    requires Trimmed(body) && Around(line, a, b, body, c)
    ensures DataOf(line) == Some(body)
  {
    if body == "" {
      EmptyDataLine(line, a, b, c);
    } else {
      var rest := b + body;
      TrimIs(b, body, "");
      assert rest == b + body + "";
      PrefixedLine(line, a, rest, c);
    }
  }

  lemma PrefixedLine(line: string, a: string, rest: string, c: string)
    requires Blank(a) && Blank(c) && rest != "" && !IsSpace(rest[|rest| - 1])
    requires line == a + "data:" + rest + c
    ensures DataOf(line) == Some(TrimSpace(rest))
  {
    var t := "data:" + rest;
    assert |t| == 5 + |rest| && t[0] == 'd' && t[|t| - 1] == rest[|rest| - 1];
    assert line == a + t + c;
    TrimIs(a, t, c);
    assert t[5..] == rest && t[..5] == DATA;
  }

  lemma EmptyDataLine(line: string, a: string, b: string, c: string)
    requires Around(line, a, b, "", c)
    ensures DataOf(line) == Some("")
  {
    BlanksJoin(b, c);
    TrimIs(a, "data:", b + c);
    assert line == a + "data:" + (b + c);
    TrimIs("", "", "");
    assert "data:"[5..] == "" && "" + "" + "" == "";
  }

  lemma DataLineParts(line: string, body: string) returns (a: string, b: string, c: string)
    requires DataOf(line) == Some(body)
    ensures Trimmed(body) && Around(line, a, b, body, c)
  {
    var t := TrimSpace(line);
    var d, e;
    a, e := TrimParts(line);
    b, d := TrimParts(t[5..]);
    c := d + e;
    BlanksJoin(d, e);
    assert t == "data:" + t[5..];
    SameLine(line, a, b, body, d, e);
  }

  lemma SameLine(line: string, a: string, b: string, body: string, d: string, e: string)
    requires line == a + ("data:" + (b + body + d)) + e
    ensures line == a + "data:" + b + body + (d + e)
  {
  }

  /** The data of a line is the trimmed body of a data line, and only data lines have any. */
  lemma DataLinesExactly(line: string, body: string)
    ensures DataOf(line) == Some(body) <==> IsDataLine(line, body)
  {
    if DataOf(line) == Some(body) {
      var a, b, c := DataLineParts(line, body);
    }
    forall a, b, c | Trimmed(body) && Around(line, a, b, body, c) ensures DataOf(line) == Some(body) {
      DataLineReads(line, a, b, body, c);
    }
  }

  // ---------------------------------------------------------------- what a line means

  /** The raw values that ask for no tool call. */
  const ABSENT: set<string> := {"", "null", "false", "[]", "{}", "\"\""}

  /** A raw value asks for something unless it is one of these with blanks around it. */
  lemma PresentExactly(raw: string)
    ensures RawPresent(raw)
            <==> !exists a, v, b :: Blank(a) && Blank(b) && v in ABSENT && raw == a + v + b
  {
    var a, b := TrimParts(raw);
    forall a, v, b | Blank(a) && Blank(b) && v in ABSENT && raw == a + v + b ensures TrimSpace(raw) == v {
      AbsentIsTrimmed(v);
      TrimIs(a, v, b);
    }
  }

  lemma AbsentIsTrimmed(v: string)
    requires v in ABSENT
    ensures Trimmed(v)
  {
  }

  /** A line that carries nothing: no data line, or data without choices. */
  ghost predicate Idle(line: string, decode: ChatDecoder) {
    forall body :: IsDataLine(line, body) ==> body != "[DONE]" && decode(body) == Choices([])
  }

  /** A line that carries a choice: the first one of its data, asking for no tool call. */
  ghost predicate Carries(line: string, decode: ChatDecoder, c: ChatChoice) {
    exists body :: IsDataLine(line, body) && body != "[DONE]"
                   && decode(body).Choices? && |decode(body).choices| > 0 && decode(body).choices[0] == c
                   && !RawPresent(c.toolCalls)
  }

  ghost predicate AsksForTools(line: string, decode: ChatDecoder) {
    exists body :: IsDataLine(line, body) && body != "[DONE]"
                   && decode(body).Choices? && |decode(body).choices| > 0
                   && RawPresent(decode(body).choices[0].toolCalls)
  }

  ghost predicate IsMalformed(line: string, decode: ChatDecoder) {
    exists body :: IsDataLine(line, body) && body != "[DONE]" && decode(body) == Malformed
  }

  /** The event of a line, by what is written in it. */
  lemma EventsExactly(line: string, decode: ChatDecoder)
    ensures ClassifyChat(line, decode) == Skip <==> Idle(line, decode)
    ensures ClassifyChat(line, decode) == Finished <==> IsDataLine(line, "[DONE]")
    ensures ClassifyChat(line, decode) == Broken <==> IsMalformed(line, decode)
    ensures ClassifyChat(line, decode) == Tools <==> AsksForTools(line, decode)
    ensures forall c :: ClassifyChat(line, decode) == Data(c) <==> Carries(line, decode, c)
  {
    forall body ensures DataOf(line) == Some(body) <==> IsDataLine(line, body) {
      DataLinesExactly(line, body);
    }
  }

  // ---------------------------------------------------------------- the choices of a stream

  /** The choices read from the lines: those carried, up to the first line that ends the stream. */
  ghost predicate Reads(lines: seq<string>, decode: ChatDecoder, cs: seq<ChatChoice>)
    decreases |lines|
  {
    if lines == [] then cs == []
    else if Idle(lines[0], decode) then Reads(lines[1..], decode, cs)
    else if cs != [] && Carries(lines[0], decode, cs[0]) then Reads(lines[1..], decode, cs[1..])
    else cs == [] && forall c :: !Carries(lines[0], decode, c)
  }

  lemma {:induction false} KeptIsRead(lines: seq<string>, decode: ChatDecoder)
    ensures Reads(lines, decode, Kept(ChatEvents(lines, decode)))
    decreases |lines|
  {
    if lines != [] {
      var events := ChatEvents(lines, decode);
      EventsExactly(lines[0], decode);
      KeptIsRead(lines[1..], decode);
      assert events[1..] == ChatEvents(lines[1..], decode);
      if events[0].Data? {
        assert Kept(events) == [events[0].choice] + Kept(events[1..]);
        assert Kept(events)[1..] == Kept(events[1..]);
      }
    }
  }

  lemma {:induction false} ReadingIsUnique(lines: seq<string>, decode: ChatDecoder,
                                           a: seq<ChatChoice>, b: seq<ChatChoice>)
    requires Reads(lines, decode, a) && Reads(lines, decode, b)
    ensures a == b
    decreases |lines|
  {
    if lines != [] {
      EventsExactly(lines[0], decode);
      if Idle(lines[0], decode) {
        ReadingIsUnique(lines[1..], decode, a, b);
      } else if a != [] && Carries(lines[0], decode, a[0]) {
        assert b != [] && Carries(lines[0], decode, b[0]);
        ReadingIsUnique(lines[1..], decode, a[1..], b[1..]);
        assert a == [a[0]] + a[1..] && b == [b[0]] + b[1..];
      }
    }
  }

  /** What a stream says is what comes out: from the raw lines to the chunks, content and reasoning are kept,
      each in its field, and the reasons in their order, with one of the translator's own where it must close. */
  lemma RawLinesAreConserved(lines: seq<string>, scanError: bool, decode: ChatDecoder, cs: seq<ChatChoice>)
    requires Reads(lines, decode, cs)
    ensures var s := ChatStream(lines, scanError, decode, None);
            && TextOf(s.out) == Contents(cs)
            && ThinkingOf(s.out) == Reasonings(cs)
            && DoneReasons(s.out)
               == FinishReasons(cs) + if s.ending == Clean && FinishReasons(cs) == [] then ["stop"] else []
  {
    KeptIsRead(lines, decode);
    ReadingIsUnique(lines, decode, cs, Kept(ChatEvents(lines, decode)));
    StreamConservesContent(lines, scanError, decode);
    StreamEndsAsTerminated(lines, scanError, decode);
    ReasonsAreConserved(lines, scanError, decode);
  }

  // ---------------------------------------------------------------- reasons

  /** The reasons of the done chunks, in order. */
  function DoneReasons(out: seq<Chunk>): seq<string> {
    if out == [] then []
    else (if out[0].Chunk? && out[0].done then [out[0].reason] else []) + DoneReasons(out[1..])
  }

  function FinishReasons(cs: seq<ChatChoice>): seq<string> {
    if cs == [] then [] else (if cs[0].finish.Some? then [cs[0].finish.value] else []) + FinishReasons(cs[1..])
  }

  lemma Regrouped(x: seq<string>, y: seq<string>, z: seq<string>)
    ensures x + (y + z) == (x + y) + z
  {
  }

  lemma {:induction false} ReasonsConcat(a: seq<Chunk>, b: seq<Chunk>)
    ensures DoneReasons(a + b) == DoneReasons(a) + DoneReasons(b)
  {
    if a == [] {
      assert a + b == b;
    } else {
      ReasonsConcat(a[1..], b);
      assert (a + b)[1..] == a[1..] + b;
      Regrouped(if a[0].Chunk? && a[0].done then [a[0].reason] else [], DoneReasons(a[1..]), DoneReasons(b));
    }
  }

  lemma ReasonsOfOne(c: ChatChoice)
    ensures DoneReasons(ChunksOf(c)) == if c.finish.Some? then [c.finish.value] else []
  {
    var body := if c.content != "" || ReasoningOf(c) != "" then [TextChunk(c.content, ReasoningOf(c))] else [];
    var end := if c.finish.Some? then [DoneChunk(c.finish.value)] else [];
    ReasonsConcat(body, end);
    assert body != [] ==> body[1..] == [];
    assert end != [] ==> end[1..] == [];
  }

  lemma {:induction false} ReasonsOfAll(cs: seq<ChatChoice>)
    ensures DoneReasons(AllChunks(cs)) == FinishReasons(cs)
  {
    if cs != [] {
      ReasonsOfAll(cs[1..]);
      ReasonsOfOne(cs[0]);
      ReasonsConcat(ChunksOf(cs[0]), AllChunks(cs[1..]));
    }
  }

  lemma {:induction false} ReasonsAreCounted(cs: seq<ChatChoice>)
    ensures |FinishReasons(cs)| == FinishCount(cs)
  {
    if cs != [] {
      ReasonsAreCounted(cs[1..]);
    }
  }

  lemma ReasonsAreConserved(lines: seq<string>, scanError: bool, decode: ChatDecoder)
    ensures var events := ChatEvents(lines, decode);
            DoneReasons(ChatStream(lines, scanError, decode, None).out)
            == FinishReasons(Kept(events))
               + if CleanEnd(events, scanError) && FinishReasons(Kept(events)) == [] then ["stop"] else []
  {
    var events := ChatEvents(lines, decode);
    ChatOutput(lines, scanError, decode);
    ReasonsOfAll(Kept(events));
    ReasonsAreCounted(Kept(events));
    var tail := Tail(events, scanError);
    ReasonsConcat(AllChunks(Kept(events)), tail);
    assert tail != [] ==> tail[1..] == [];
  }
}
