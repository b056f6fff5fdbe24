/** What the translators keep of the stream they read. */
module StreamProofs {
  import opened Wrappers
  import opened Text
  import opened StreamSpec

  // ---------------------------------------------------------------- the reference reading of a stream

  type ChatDecoder = string -> Decoded<ChatChoice>

  type ChatEvent = Event<ChatChoice>

  /** The first event that ends a translation, and how. */
  datatype Terminator = Nothing | ByDone | ByBroken | ByTools

  function TerminatorOf(events: seq<ChatEvent>): Terminator {
    if events == [] then Nothing
    else
      match events[0]
      case Finished => ByDone
      case Broken => ByBroken
      case Tools => ByTools
      case _ => TerminatorOf(events[1..])
  }

  /** The first choices of the data lines before that event, in order. */
  function Kept(events: seq<ChatEvent>): seq<ChatChoice> {
    if events == [] then []
    else
      match events[0]
      case Skip => Kept(events[1..])
      case Data(c) => [c] + Kept(events[1..])
      case _ => []
  }

  function ChunksOf(c: ChatChoice): seq<Chunk> {
    (if c.content != "" || ReasoningOf(c) != "" then [TextChunk(c.content, ReasoningOf(c))] else [])
    + (if c.finish.Some? then [DoneChunk(c.finish.value)] else [])
  }

  function AllChunks(cs: seq<ChatChoice>): seq<Chunk> {
    if cs == [] then [] else ChunksOf(cs[0]) + AllChunks(cs[1..])
  }

  function FinishCount(cs: seq<ChatChoice>): nat {
    if cs == [] then 0 else (if cs[0].finish.Some? then 1 else 0) + FinishCount(cs[1..])
  }

  /** The chunk a translator adds of its own accord at the end. */
  function Tail(events: seq<ChatEvent>, scanError: bool): seq<Chunk> {
    if TerminatorOf(events) == ByTools then [ErrorLine]
    else if CleanEnd(events, scanError) && FinishCount(Kept(events)) == 0 then [DoneChunk("stop")]
    else []
  }

  predicate CleanEnd(events: seq<ChatEvent>, scanError: bool) {
    TerminatorOf(events) == ByDone || (TerminatorOf(events) == Nothing && !scanError)
  }

  // ---------------------------------------------------------------- the whole output

  function RunEnding(events: seq<ChatEvent>): Ending {
    match TerminatorOf(events)
    case Nothing => Open
    case ByDone => Clean
    case ByBroken => BadChunk
    case ByTools => ToolCalls
  }

  function RunTail(events: seq<ChatEvent>, done: bool): seq<Chunk> {
    if TerminatorOf(events) == ByTools then [ErrorLine]
    else if TerminatorOf(events) == ByDone && !done then [DoneChunk("stop")]
    else []
  }

  lemma StepWrites(s: State, c: ChatChoice)
    requires s.ending == Open
    ensures ChatStep(s, Data(c), None) == State(s.out + ChunksOf(c), s.done || c.finish.Some?, Open)
  {
  }

  /** What a run from `s` on these events comes to. */
  function Outcome(s: State, events: seq<ChatEvent>): State {
    var done := s.done || FinishCount(Kept(events)) > 0;
    State(s.out + AllChunks(Kept(events)) + RunTail(events, done), done, RunEnding(events))
  }

  lemma OutcomeAfterChoice(s: State, c: ChatChoice, rest: seq<ChatEvent>)
    ensures Outcome(s, [Data(c)] + rest) == Outcome(State(s.out + ChunksOf(c), s.done || c.finish.Some?, Open), rest)
  {
    var events := [Data(c)] + rest;
    assert events[1..] == rest;
    var ks := [c] + Kept(rest);
    assert Kept(events) == ks && ks[1..] == Kept(rest);
    Reassociate(s.out, ChunksOf(c), AllChunks(Kept(rest)));
  }

  lemma Reassociate(a: seq<Chunk>, b: seq<Chunk>, c: seq<Chunk>)
    ensures (a + b) + c == a + (b + c)
  {
  }

  /** What the scan loop has written and remembers after any events, from any open state. */
  lemma {:induction false} ChatRunReadsAll(s: State, events: seq<ChatEvent>)
    requires s.ending == Open
    ensures ChatRun(s, events, None) == Outcome(s, events)
    decreases |events|
  {
    if events != [] {
      match events[0]
      case Data(c) =>
        StepWrites(s, c);
        OutcomeAfterChoice(s, c, events[1..]);
        assert events == [Data(c)] + events[1..];
        ChatRunReadsAll(ChatStep(s, events[0], None), events[1..]);
      case Skip => ChatRunReadsAll(s, events[1..]);
      case _ =>
    }
  }

  /** With a writer that never fails the output is exactly the chunks of the kept choices, in order,
      and the closing chunk of `Tail`. */
  lemma ChatOutput(lines: seq<string>, scanError: bool, decode: ChatDecoder)
    ensures var events := ChatEvents(lines, decode);
            ChatStream(lines, scanError, decode, None).out == AllChunks(Kept(events)) + Tail(events, scanError)
  {
    var events := ChatEvents(lines, decode);
    ChatRunReadsAll(START, events);
    OutcomeAtEnd(events, scanError);
  }

  lemma OutcomeAtEnd(events: seq<ChatEvent>, scanError: bool)
    ensures AtEnd(Outcome(START, events), scanError, None).out == AllChunks(Kept(events)) + Tail(events, scanError)
  {
    var sent := AllChunks(Kept(events));
    assert [] + sent == sent;
  }

  // ---------------------------------------------------------------- conservation and counting

  function TextIn(c: Chunk): string { if c.Chunk? then c.text else "" }

  function ThinkingIn(c: Chunk): string { if c.Chunk? then c.thinking else "" }

  function TextOf(out: seq<Chunk>): string {
    if out == [] then "" else TextIn(out[0]) + TextOf(out[1..])
  }

  function ThinkingOf(out: seq<Chunk>): string {
    if out == [] then "" else ThinkingIn(out[0]) + ThinkingOf(out[1..])
  }

  function DoneCount(out: seq<Chunk>): nat {
    if out == [] then 0 else (if out[0].Chunk? && out[0].done then 1 else 0) + DoneCount(out[1..])
  }

  function Contents(cs: seq<ChatChoice>): string {
    if cs == [] then "" else cs[0].content + Contents(cs[1..])
  }

  /** The reasoning of the choices by their fields: `reasoning` stands in where `reasoningContent` is empty. */
  function Reasonings(cs: seq<ChatChoice>): string {
    if cs == [] then ""
    else if cs[0].reasoningContent != "" then cs[0].reasoningContent + Reasonings(cs[1..])
    else cs[0].reasoning + Reasonings(cs[1..])
  }

  lemma Regroup(x: string, y: string, z: string)
    ensures x + (y + z) == (x + y) + z
  {
  }

  lemma {:induction false} TextConcat(a: seq<Chunk>, b: seq<Chunk>)
    ensures TextOf(a + b) == TextOf(a) + TextOf(b)
  {
    if a == [] {
      assert a + b == b;
    } else {
      TextConcat(a[1..], b);
      assert (a + b)[1..] == a[1..] + b && (a + b)[0] == a[0];
      Regroup(TextIn(a[0]), TextOf(a[1..]), TextOf(b));
    }
  }

  lemma {:induction false} ThinkingConcat(a: seq<Chunk>, b: seq<Chunk>)
    ensures ThinkingOf(a + b) == ThinkingOf(a) + ThinkingOf(b)
  {
    if a == [] {
      assert a + b == b;
    } else {
      ThinkingConcat(a[1..], b);
      assert (a + b)[1..] == a[1..] + b && (a + b)[0] == a[0];
      Regroup(ThinkingIn(a[0]), ThinkingOf(a[1..]), ThinkingOf(b));
    }
  }

  lemma {:induction false} DoneConcat(a: seq<Chunk>, b: seq<Chunk>)
    ensures DoneCount(a + b) == DoneCount(a) + DoneCount(b)
  {
    if a == [] {
      assert a + b == b;
    } else {
      DoneConcat(a[1..], b);
      assert (a + b)[1..] == a[1..] + b;
    }
  }

  lemma Concat(a: seq<Chunk>, b: seq<Chunk>)
    ensures TextOf(a + b) == TextOf(a) + TextOf(b)
    ensures ThinkingOf(a + b) == ThinkingOf(a) + ThinkingOf(b)
    ensures DoneCount(a + b) == DoneCount(a) + DoneCount(b)
  {
    TextConcat(a, b);
    ThinkingConcat(a, b);
    DoneConcat(a, b);
  }

  lemma ChunksOfOne(c: ChatChoice)
    ensures TextOf(ChunksOf(c)) == c.content
    ensures ThinkingOf(ChunksOf(c)) == ReasoningOf(c)
    ensures DoneCount(ChunksOf(c)) == if c.finish.Some? then 1 else 0
  {
    var body := if c.content != "" || ReasoningOf(c) != "" then [TextChunk(c.content, ReasoningOf(c))] else [];
    var finish := if c.finish.Some? then [DoneChunk(c.finish.value)] else [];
    Concat(body, finish);
    assert body != [] ==> body[1..] == [];
    assert finish != [] ==> finish[1..] == [];
  }

  lemma {:induction false} AllChunksAddUp(cs: seq<ChatChoice>)
    ensures TextOf(AllChunks(cs)) == Contents(cs)
    ensures ThinkingOf(AllChunks(cs)) == Reasonings(cs)
    ensures DoneCount(AllChunks(cs)) == FinishCount(cs)
  {
    if cs != [] {
      ChunksOfOne(cs[0]);
      AllChunksAddUp(cs[1..]);
      Concat(ChunksOf(cs[0]), AllChunks(cs[1..]));
    }
  }

  lemma TailAddsNothing(events: seq<ChatEvent>, scanError: bool)
    ensures var t := Tail(events, scanError);
            TextOf(t) == "" && ThinkingOf(t) == ""
            && DoneCount(t) == if CleanEnd(events, scanError) && FinishCount(Kept(events)) == 0 then 1 else 0
  {
    var t := Tail(events, scanError);
    assert t != [] ==> t[1..] == [];
  }

  /** Content and reasoning are conserved: what the chunks carry, put together, is what the kept choices
      carried, put together. */
  lemma StreamConservesContent(lines: seq<string>, scanError: bool, decode: ChatDecoder)
    ensures var out, kept := ChatStream(lines, scanError, decode, None).out, Kept(ChatEvents(lines, decode));
            TextOf(out) == Contents(kept) && ThinkingOf(out) == Reasonings(kept)
  {
    var events := ChatEvents(lines, decode);
    ChatOutput(lines, scanError, decode);
    AllChunksAddUp(Kept(events));
    Concat(AllChunks(Kept(events)), Tail(events, scanError));
    TailAddsNothing(events, scanError);
  }

  /** On a clean end there is one done chunk for every finish reason, and one if there was none; on any
      other end no done chunk is added. */
  lemma DoneChunksMatchFinishReasons(lines: seq<string>, scanError: bool, decode: ChatDecoder)
    ensures var events := ChatEvents(lines, decode);
            var n, finishes := DoneCount(ChatStream(lines, scanError, decode, None).out), FinishCount(Kept(events));
            && (CleanEnd(events, scanError) ==> n == if finishes == 0 then 1 else finishes)
            && (!CleanEnd(events, scanError) ==> n == finishes)
            && (CleanEnd(events, scanError) && finishes <= 1 ==> n == 1)
  {
    var events := ChatEvents(lines, decode);
    ChatOutput(lines, scanError, decode);
    AllChunksAddUp(Kept(events));
    Concat(AllChunks(Kept(events)), Tail(events, scanError));
    TailAddsNothing(events, scanError);
  }

  /** How the pipe is closed: by the first event that ends the translation, or else by the end of the lines. */
  lemma StreamEndsAsTerminated(lines: seq<string>, scanError: bool, decode: ChatDecoder)
    ensures var events, ending := ChatEvents(lines, decode), ChatStream(lines, scanError, decode, None).ending;
            && (ending == Clean <==> CleanEnd(events, scanError))
            && (ending == BadChunk <==> TerminatorOf(events) == ByBroken)
            && (ending == ToolCalls <==> TerminatorOf(events) == ByTools)
            && (ending == ReadError <==> TerminatorOf(events) == Nothing && scanError)
            && ending != Open && ending != WriterBroken
  {
    ChatRunReadsAll(START, ChatEvents(lines, decode));
  }

  // ---------------------------------------------------------------- refinement of prefixes

  lemma {:induction false} RunInTwoParts(s: State, a: seq<ChatEvent>, b: seq<ChatEvent>, limit: Limit)
    ensures ChatRun(s, a + b, limit) == ChatRun(ChatRun(s, a, limit), b, limit)
    decreases |a|
  {
    if a == [] {
      assert a + b == b;
    } else if s.ending == Open {
      assert (a + b)[1..] == a[1..] + b;
      RunInTwoParts(ChatStep(s, a[0], limit), a[1..], b, limit);
    }
  }

  lemma StepOnlyAppends(s: State, e: ChatEvent, limit: Limit)
    ensures s.out <= ChatStep(s, e, limit).out
  {
  }

  lemma {:induction false} RunOnlyAppends(s: State, events: seq<ChatEvent>, limit: Limit)
    ensures s.out <= ChatRun(s, events, limit).out
    decreases |events|
  {
    if events != [] && s.ending == Open {
      StepOnlyAppends(s, events[0], limit);
      RunOnlyAppends(ChatStep(s, events[0], limit), events[1..], limit);
    }
  }

  lemma EventsConcat(a: seq<string>, b: seq<string>, decode: ChatDecoder)
    ensures ChatEvents(a + b, decode) == ChatEvents(a, decode) + ChatEvents(b, decode)
  {
  }

  /** Before the end of the stream is seen, the output on a prefix of the lines is a prefix of the output. */
  lemma PrefixRefinesStream(a: seq<string>, b: seq<string>, decode: ChatDecoder, limit: Limit)
    ensures ChatRun(START, ChatEvents(a, decode), limit).out <= ChatRun(START, ChatEvents(a + b, decode), limit).out
  {
    EventsConcat(a, b, decode);
    RunInTwoParts(START, ChatEvents(a, decode), ChatEvents(b, decode), limit);
    RunOnlyAppends(ChatRun(START, ChatEvents(a, decode), limit), ChatEvents(b, decode), limit);
  }

  /** A line that is blank, or whose first visible character does not begin the word data:, is skipped. */
  predicate IsNoise(line: string) {
    || (forall i :: 0 <= i < |line| ==> IsSpace(line[i]))
    || (exists k :: 0 <= k < |line| && (forall i :: 0 <= i < k ==> IsSpace(line[i])) && !IsSpace(line[k])
                    && !(k + 5 <= |line| && line[k..k + 5] == DATA))
  }

  lemma PrefixAt(s: string, k: nat, p: string)
    requires k <= |s|
    ensures p <= s[k..] <==> k + |p| <= |s| && s[k..k + |p|] == p
  {
    if k + |p| <= |s| {
      assert s[k..][..|p|] == s[k..k + |p|];
    }
  }

  lemma NoDataAt(line: string, k: nat)
    requires k < |line| && (forall i :: 0 <= i < k ==> IsSpace(line[i])) && !IsSpace(line[k])
    requires !(k + 5 <= |line| && line[k..k + 5] == DATA)
    ensures !(DATA <= TrimSpace(line))
  {
    StartIs(line, 0, k);
    PrefixAt(line, k, DATA);
    assert TrimSpace(line) == line[k..End(line, k, |line|)] <= line[k..];
  }

  lemma NoiseIsSkipped(line: string)
    requires IsNoise(line)
    ensures DataOf(line) == None
  {
    if forall i :: 0 <= i < |line| ==> IsSpace(line[i]) {
      StartIs(line, 0, |line|);
    } else {
      var k :| 0 <= k < |line| && (forall i :: 0 <= i < k ==> IsSpace(line[i])) && !IsSpace(line[k])
               && !(k + 5 <= |line| && line[k..k + 5] == DATA);
      NoDataAt(line, k);
    }
  }

  /** Inserting a blank line, a comment or any other line without data changes nothing, whatever the writer does. */
  lemma NoiseChangesNothing(a: seq<string>, noise: string, b: seq<string>, scanError: bool, decode: ChatDecoder,
                            limit: Limit)
    requires IsNoise(noise)
    ensures ChatStream(a + [noise] + b, scanError, decode, limit) == ChatStream(a + b, scanError, decode, limit)
  {
    NoiseIsSkipped(noise);
    var ea, eb, en := ChatEvents(a, decode), ChatEvents(b, decode), ChatEvents([noise], decode);
    EventsConcat(a, b, decode);
    EventsConcat(a + [noise], b, decode);
    EventsConcat(a, [noise], decode);
    RunInTwoParts(START, ea, eb, limit);
    RunInTwoParts(START, ea + en, eb, limit);
    RunInTwoParts(START, ea, en, limit);
    SkipDoesNothing(ChatRun(START, ea, limit), en, limit);
  }

  lemma SkipDoesNothing(s: State, events: seq<ChatEvent>, limit: Limit)
    requires |events| == 1 && events[0] == Skip
    ensures ChatRun(s, events, limit) == s
  {
  }

  // ---------------------------------------------------------------- failing writers

  /** A limited translation is in step with the unlimited one, or has stopped with its prefix. */
  predicate Follows(s: State, full: State, k: nat) {
    || (s == full && |s.out| <= k)
    || (|s.out| == k && s.out <= full.out && s.ending != Open)
  }

  lemma LimitedStepFollows(s: State, full: State, e: ChatEvent, k: nat)
    requires Follows(s, full, k) && s.ending == Open
    ensures Follows(ChatStep(s, e, Some(k)), ChatStep(full, e, None), k)
  {
  }

  lemma {:induction false} LimitedRunFollows(s: State, full: State, events: seq<ChatEvent>, k: nat)
    requires Follows(s, full, k)
    ensures Follows(ChatRun(s, events, Some(k)), ChatRun(full, events, None), k)
    decreases |events|
  {
    if events != [] && s.ending == Open {
      LimitedStepFollows(s, full, events[0], k);
      LimitedRunFollows(ChatStep(s, events[0], Some(k)), ChatStep(full, events[0], None), events[1..], k);
    } else {
      RunOnlyAppends(full, events, None);
    }
  }

  /** A reader that goes away after `k` chunks has received exactly the first `k` chunks of the whole output. */
  lemma BrokenWriterSentAPrefix(lines: seq<string>, scanError: bool, decode: ChatDecoder, k: nat)
    ensures var cut := ChatStream(lines, scanError, decode, Some(k)).out;
            var full := ChatStream(lines, scanError, decode, None).out;
            cut == if |full| <= k then full else full[..k]
  {
    LimitedRunFollows(START, START, ChatEvents(lines, decode), k);
  }

  /** The limited translation has lost a chunk that matters: the whole one has gone on, past one more chunk if it
      ends with one whose loss would not have been noticed. */
  predicate Lost(s: State, full: State, k: nat) {
    s.ending == WriterBroken && |full.out| > k && (full.ending == ToolCalls ==> |full.out| > k + 1)
  }

  /** How it stands with the limited translation: in step, broken, or ended without the error line. */
  predicate Stands(s: State, full: State, k: nat) {
    || (s == full && |s.out| <= k)
    || Lost(s, full, k)
    || (s.ending == full.ending == ToolCalls && |full.out| == k + 1)
  }

  lemma LimitedStepStands(s: State, full: State, e: ChatEvent, k: nat)
    requires s == full && |s.out| <= k && s.ending == Open
    ensures Stands(ChatStep(s, e, Some(k)), ChatStep(full, e, None), k)
  {
  }

  lemma LostStaysLost(s: State, full: State, e: ChatEvent, k: nat)
    requires Lost(s, full, k) && full.ending == Open
    ensures Lost(s, ChatStep(full, e, None), k)
  {
  }

  lemma {:induction false} LostToTheEnd(s: State, full: State, events: seq<ChatEvent>, k: nat)
    requires Lost(s, full, k)
    ensures Lost(s, ChatRun(full, events, None), k)
    decreases |events|
  {
    if events != [] && full.ending == Open {
      LostStaysLost(s, full, events[0], k);
      LostToTheEnd(s, ChatStep(full, events[0], None), events[1..], k);
    }
  }

  lemma {:induction false} LimitedRunStands(s: State, events: seq<ChatEvent>, k: nat)
    requires |s.out| <= k
    ensures Stands(ChatRun(s, events, Some(k)), ChatRun(s, events, None), k)
    decreases |events|
  {
    if events != [] && s.ending == Open {
      var t, full := ChatStep(s, events[0], Some(k)), ChatStep(s, events[0], None);
      LimitedStepStands(s, s, events[0], k);
      if t == full {
        LimitedRunStands(t, events[1..], k);
      } else if Lost(t, full, k) {
        LostToTheEnd(t, full, events[1..], k);
      }
    }
  }

  /** The last chunk of a stream is one whose loss goes unnoticed: the error line, or the closing chunk after the
      last line. */
  predicate LastIsIgnored(events: seq<ChatEvent>, scanError: bool) {
    TerminatorOf(events) == ByTools
    || (TerminatorOf(events) == Nothing && !scanError && FinishCount(Kept(events)) == 0)
  }

  /** How a translation ends whose reader goes away after `k` chunks: as if nothing had happened if there were no
      more, or if only an unnoticed last one is missing, and otherwise with the write error. */
  lemma BrokenWriterEnds(lines: seq<string>, scanError: bool, decode: ChatDecoder, k: nat)
    ensures var events := ChatEvents(lines, decode);
            var cut, full := ChatStream(lines, scanError, decode, Some(k)), ChatStream(lines, scanError, decode, None);
            var unnoticed := |full.out| <= k || (|full.out| == k + 1 && LastIsIgnored(events, scanError));
            cut.ending == if unnoticed then full.ending else WriterBroken
  {
    var events := ChatEvents(lines, decode);
    LimitedRunStands(START, events, k);
    ChatRunReadsAll(START, events);
    RunTailLength(events);
  }

  lemma RunTailLength(events: seq<ChatEvent>)
    ensures TerminatorOf(events) == ByTools <==> Outcome(START, events).ending == ToolCalls
    ensures TerminatorOf(events) == Nothing <==> Outcome(START, events).ending == Open
  {
  }

  // ---------------------------------------------------------------- the generate translator

  function AsChat(c: GenerateChoice): ChatChoice { ChatChoice(c.text, "", "", "", c.finish) }

  /** The decoder that reads a completion stream as a content-only chat stream. */
  function AsChatDecoder(generate: string -> Decoded<GenerateChoice>): ChatDecoder {
    (data: string) =>
      match generate(data)
      case Malformed => Malformed
      case Choices(cs) => if cs == [] then Choices([]) else Choices([AsChat(cs[0])])
  }

  function AsChatEvent(e: Event<GenerateChoice>): ChatEvent {
    match e
    case Skip => Skip
    case Finished => Finished
    case Broken => Broken
    case Tools => Tools
    case Data(c) => Data(AsChat(c))
  }

  lemma LinesAgree(line: string, generate: string -> Decoded<GenerateChoice>)
    ensures ClassifyChat(line, AsChatDecoder(generate)) == AsChatEvent(ClassifyGenerate(line, generate))
    ensures ClassifyGenerate(line, generate) != Tools
  {
    assert !RawPresent("");
  }

  lemma StepsAgree(s: State, e: Event<GenerateChoice>, limit: Limit)
    requires e != Tools
    ensures GenerateStep(s, e, limit) == ChatStep(s, AsChatEvent(e), limit)
  {
  }

  lemma {:induction false} RunsAgree(s: State, events: seq<Event<GenerateChoice>>, chatEvents: seq<ChatEvent>,
                                     limit: Limit)
    requires |events| == |chatEvents|
    requires forall i :: 0 <= i < |events| ==> events[i] != Tools && chatEvents[i] == AsChatEvent(events[i])
    ensures GenerateRun(s, events, limit) == ChatRun(s, chatEvents, limit)
    decreases |events|
  {
    if events != [] && s.ending == Open {
      StepsAgree(s, events[0], limit);
      RunsAgree(GenerateStep(s, events[0], limit), events[1..], chatEvents[1..], limit);
    }
  }

  /** The generate translator writes what the chat translator writes on the matching content-only stream,
      and ends the same way, whatever the writer does. */
  lemma GenerateRefinesChat(lines: seq<string>, scanError: bool, generate: string -> Decoded<GenerateChoice>,
                            limit: Limit)
    ensures GenerateStream(lines, scanError, generate, limit)
            == ChatStream(lines, scanError, AsChatDecoder(generate), limit)
  {
    var events, chatEvents := GenerateEvents(lines, generate), ChatEvents(lines, AsChatDecoder(generate));
    forall i | 0 <= i < |lines| ensures events[i] != Tools && chatEvents[i] == AsChatEvent(events[i]) {
      LinesAgree(lines[i], generate);
    }
    RunsAgree(START, events, chatEvents, limit);
  }
}
