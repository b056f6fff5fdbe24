/** The two stream translators on values: lines of an event stream in, chunks of a JSON-lines stream out. */
module StreamSpec {
  import opened Wrappers
  import opened Text

  // ---------------------------------------------------------------- lines

  const DATA := "data:"
  const DONE := "[DONE]"

  /** What the JSON decoder makes of the data of a line. */
  datatype Decoded<C> = Malformed | Choices(choices: seq<C>)

  // ---------------------------------------------------------------- choices and chunks

  datatype ChatChoice = ChatChoice(content: string, reasoningContent: string, reasoning: string, toolCalls: string,
                                   finish: Option<string>)

  datatype GenerateChoice = GenerateChoice(text: string, finish: Option<string>)

  /** `rawPresent`: whether a raw JSON value asks for anything. */
  predicate RawPresent(raw: string) {
    TrimSpace(raw) !in {"", "null", "false", "[]", "{}", "\"\""}
  }

  function ReasoningOf(c: ChatChoice): string {
    if c.reasoningContent == "" then c.reasoning else c.reasoningContent
  }

  /** What a line means to a translator; `Tools` is a choice that asks for tool calls. */
  datatype Event<C> = Skip | Finished | Broken | Tools | Data(choice: C)

  /** The data of a line, if it is a data line. */
  function DataOf(line: string): Option<string> {
    var t := TrimSpace(line);
    if t == "" || ":" <= t || !(DATA <= t) then None else Some(TrimSpace(t[|DATA|..]))
  }

  function ClassifyChat(line: string, decode: string -> Decoded<ChatChoice>): Event<ChatChoice> {
    match DataOf(line)
    case None => Skip
    case Some(data) =>
      if data == DONE then Finished
      else
        match decode(data)
        case Malformed => Broken
        case Choices(cs) => if cs == [] then Skip else if RawPresent(cs[0].toolCalls) then Tools else Data(cs[0])
  }

  function ClassifyGenerate(line: string, decode: string -> Decoded<GenerateChoice>): Event<GenerateChoice> {
    match DataOf(line)
    case None => Skip
    case Some(data) =>
      if data == DONE then Finished
      else
        match decode(data)
        case Malformed => Broken
        case Choices(cs) => if cs == [] then Skip else Data(cs[0])
  }

  function ChatEvents(lines: seq<string>, decode: string -> Decoded<ChatChoice>): (es: seq<Event<ChatChoice>>)
    ensures |es| == |lines|
    ensures forall i :: 0 <= i < |lines| ==> es[i] == ClassifyChat(lines[i], decode)
  {
    seq(|lines|, i requires 0 <= i < |lines| => ClassifyChat(lines[i], decode))
  }

  function GenerateEvents(lines: seq<string>,
                          decode: string -> Decoded<GenerateChoice>): (es: seq<Event<GenerateChoice>>)
    ensures |es| == |lines|
    ensures forall i :: 0 <= i < |lines| ==> es[i] == ClassifyGenerate(lines[i], decode)
  {
    seq(|lines|, i requires 0 <= i < |lines| => ClassifyGenerate(lines[i], decode))
  }

  /** One line of output. An absent thinking or reason field is the empty string. */
  datatype Chunk = Chunk(text: string, thinking: string, done: bool, reason: string) | ErrorLine

  function TextChunk(text: string, thinking: string): Chunk { Chunk(text, thinking, false, "") }
  function DoneChunk(reason: string): Chunk { Chunk("", "", true, reason) }

  // ---------------------------------------------------------------- translation

  /** How a translation ended. Of these only `WriterBroken`, `BadChunk` and `ReadError` reach the reader
      of the pipe as an error. */
  datatype Ending = Open | Clean | ToolCalls | WriterBroken | BadChunk | ReadError

  datatype State = State(out: seq<Chunk>, done: bool, ending: Ending)

  const START := State([], false, Open)

  /** The pipe accepts this many writes, or any number; after the first failure all fail. */
  type Limit = Option<nat>

  predicate Accepts(limit: Limit, out: seq<Chunk>) { limit == None || |out| < limit.value }

  /** A write whose failure ends the translation. */
  function Emit(s: State, chunk: Chunk, limit: Limit): State {
    if Accepts(limit, s.out) then s.(out := s.out + [chunk]) else s.(ending := WriterBroken)
  }

  /** A last write, whose failure is ignored. */
  function EmitLast(s: State, chunk: Chunk, limit: Limit, ending: Ending): State {
    if Accepts(limit, s.out) then s.(out := s.out + [chunk], ending := ending) else s.(ending := ending)
  }

  function OnFinished(s: State, limit: Limit): State {
    if s.done then s.(ending := Clean)
    else
      var t := Emit(s, DoneChunk("stop"), limit);
      if t.ending == Open then t.(ending := Clean) else t
  }

  function OnFinish(s: State, reason: Option<string>, limit: Limit): State {
    if reason == None || s.ending != Open then s else Emit(s.(done := true), DoneChunk(reason.value), limit)
  }

  function ChatStep(s: State, e: Event<ChatChoice>, limit: Limit): State {
    match e
    case Skip => s
    case Finished => OnFinished(s, limit)
    case Broken => s.(ending := BadChunk)
    case Tools => EmitLast(s, ErrorLine, limit, ToolCalls)
    case Data(c) =>
      var r := ReasoningOf(c);
      var t := if c.content != "" || r != "" then Emit(s, TextChunk(c.content, r), limit) else s;
      OnFinish(t, c.finish, limit)
  }

  function GenerateStep(s: State, e: Event<GenerateChoice>, limit: Limit): State {
    match e
    case Skip => s
    case Finished => OnFinished(s, limit)
    case Broken => s.(ending := BadChunk)
    case Tools => s
    case Data(c) =>
      var t := if c.text != "" then Emit(s, TextChunk(c.text, ""), limit) else s;
      OnFinish(t, c.finish, limit)
  }

  /** The scan loop. It stops at the first event that ends the translation. */
  function ChatRun(s: State, events: seq<Event<ChatChoice>>, limit: Limit): State
    decreases |events|
  {
    if events == [] || s.ending != Open then s else ChatRun(ChatStep(s, events[0], limit), events[1..], limit)
  }

  function GenerateRun(s: State, events: seq<Event<GenerateChoice>>, limit: Limit): State
    decreases |events|
  {
    if events == [] || s.ending != Open then s else GenerateRun(GenerateStep(s, events[0], limit), events[1..], limit)
  }

  /** What follows the loop: the scanner's own error, or the end of the stream. */
  function AtEnd(s: State, scanError: bool, limit: Limit): State {
    if s.ending != Open then s
    else if scanError then s.(ending := ReadError)
    else if s.done then s.(ending := Clean)
    else EmitLast(s, DoneChunk("stop"), limit, Clean)
  }

  function ChatStream(lines: seq<string>, scanError: bool, decode: string -> Decoded<ChatChoice>, limit: Limit): State {
    AtEnd(ChatRun(START, ChatEvents(lines, decode), limit), scanError, limit)
  }

  function GenerateStream(lines: seq<string>, scanError: bool, decode: string -> Decoded<GenerateChoice>,
                          limit: Limit): State {
    AtEnd(GenerateRun(START, GenerateEvents(lines, decode), limit), scanError, limit)
  }
}
