/** The translators as the source writes them: scan loops that write chunks to a pipe. */
module Translators {
  import opened Wrappers
  import opened StreamSpec

  /** The write end of the pipe. */
  class Pipe {
    var chunks: seq<Chunk>
    var ending: Ending
    const limit: Limit

    constructor (limit: Limit)
      ensures chunks == [] && ending == Open && this.limit == limit
    {
      chunks, ending, this.limit := [], Open, limit;
    }

    method WriteLine(chunk: Chunk) returns (ok: bool)
      modifies `chunks
      ensures ok == Accepts(limit, old(chunks))
      ensures chunks == if ok then old(chunks) + [chunk] else old(chunks)
    {
      if limit.Some? && |chunks| >= limit.value {
        return false;
      }
      chunks := chunks + [chunk];
      return true;
    }

    method WriteChatChunk(content: string, reasoning: string, done: bool, doneReason: string) returns (ok: bool)
      modifies `chunks
      ensures ok == Accepts(limit, old(chunks))
      ensures chunks == if ok then old(chunks) + [Chunk(content, reasoning, done, if done then doneReason else "")]
              else old(chunks)
    {
      var reason := "";
      if done && doneReason != "" {
        reason := doneReason;
      }
      ok := WriteLine(Chunk(content, reasoning, done, reason));
    }

    method WriteGenerateChunk(text: string, done: bool, doneReason: string) returns (ok: bool)
      modifies `chunks
      ensures ok == Accepts(limit, old(chunks))
      ensures chunks == if ok then old(chunks) + [Chunk(text, "", done, if done then doneReason else "")]
              else old(chunks)
    {
      var reason := "";
      if done && doneReason != "" {
        reason := doneReason;
      }
      ok := WriteLine(Chunk(text, "", done, reason));
    }

    method Close(how: Ending)
      modifies `ending
      ensures ending == how
    {
      ending := how;
    }

    function Seen(done: bool): State
      reads this
    {
      State(chunks, done, ending)
    }
  }

  /** The part of the loop that handles a decoded choice. */
  method TranslateChatChoice(choice: ChatChoice, wasDone: bool, pipe: Pipe) returns (done: bool)
    requires pipe.ending == Open
    modifies pipe
    ensures pipe.Seen(done) == ChatStep(old(pipe.Seen(wasDone)), Data(choice), pipe.limit)
  {
    done := wasDone;
    var reasoning := choice.reasoningContent;
    if reasoning == "" {
      reasoning := choice.reasoning;
    }
    if choice.content != "" || reasoning != "" {
      var ok := pipe.WriteChatChunk(choice.content, reasoning, false, "");
      if !ok {
        pipe.Close(WriterBroken);
        return;
      }
    }
    if choice.finish.Some? {
      done := true;
      var ok := pipe.WriteChatChunk("", "", true, choice.finish.value);
      if !ok {
        pipe.Close(WriterBroken);
      }
    }
  }

  method TranslateChatStream(lines: seq<string>, scanError: bool, decode: string -> Decoded<ChatChoice>, pipe: Pipe)
    returns (done: bool)
    requires pipe.chunks == [] && pipe.ending == Open
    modifies pipe
    ensures pipe.Seen(done) == ChatStream(lines, scanError, decode, pipe.limit)
  {
    ghost var events := ChatEvents(lines, decode);
    done := false;
    var i := 0;
    while i < |lines|
      invariant i <= |lines| && pipe.ending == Open
      invariant ChatRun(START, events, pipe.limit) == ChatRun(pipe.Seen(done), events[i..], pipe.limit)
    {
      var event := ClassifyChat(lines[i], decode);
      assert event == events[i] && events[i..][1..] == events[i + 1..];
      i := i + 1;
      match event {
        case Skip =>
          continue;
        case Finished =>
          if !done {
            var ok := pipe.WriteChatChunk("", "", true, "stop");
            if !ok {
              pipe.Close(WriterBroken);
              return;
            }
          }
          pipe.Close(Clean);
          return;
        case Broken =>
          pipe.Close(BadChunk);
          return;
        case Tools =>
          var _ := pipe.WriteLine(ErrorLine);
          pipe.Close(ToolCalls);
          return;
        case Data(choice) =>
          done := TranslateChatChoice(choice, done, pipe);
          if pipe.ending != Open {
            return;
          }
      }
    }
    assert events[i..] == [];
    if scanError {
      pipe.Close(ReadError);
      return;
    }
    if !done {
      var _ := pipe.WriteChatChunk("", "", true, "stop");
    }
    pipe.Close(Clean);
  }

  method TranslateGenerateStream(lines: seq<string>, scanError: bool, decode: string -> Decoded<GenerateChoice>,
                                 pipe: Pipe)
    returns (done: bool)
    requires pipe.chunks == [] && pipe.ending == Open
    modifies pipe
    ensures pipe.Seen(done) == GenerateStream(lines, scanError, decode, pipe.limit)
  {
    ghost var events := GenerateEvents(lines, decode);
    done := false;
    var i := 0;
    while i < |lines|
      invariant i <= |lines| && pipe.ending == Open
      invariant GenerateRun(START, events, pipe.limit) == GenerateRun(pipe.Seen(done), events[i..], pipe.limit)
    {
      ghost var before := pipe.Seen(done);
      var event := ClassifyGenerate(lines[i], decode);
      assert event == events[i] && events[i..][1..] == events[i + 1..];
      i := i + 1;
      match event {
        case Skip =>
          continue;
        case Finished =>
          if !done {
            var ok := pipe.WriteGenerateChunk("", true, "stop");
            if !ok {
              pipe.Close(WriterBroken);
              return;
            }
          }
          pipe.Close(Clean);
          return;
        case Broken =>
          pipe.Close(BadChunk);
          return;
        case Tools =>
          assert false;
        case Data(choice) =>
          if choice.text != "" {
            var ok := pipe.WriteGenerateChunk(choice.text, false, "");
            if !ok {
              pipe.Close(WriterBroken);
              return;
            }
          }
          if choice.finish.Some? {
            done := true;
            var ok := pipe.WriteGenerateChunk("", true, choice.finish.value);
            if !ok {
              pipe.Close(WriterBroken);
              return;
            }
          }
          assert pipe.Seen(done) == GenerateStep(before, event, pipe.limit);
      }
    }
    assert events[i..] == [];
    if scanError {
      pipe.Close(ReadError);
      return;
    }
    if !done {
      var _ := pipe.WriteGenerateChunk("", true, "stop");
    }
    pipe.Close(Clean);
  }
}
