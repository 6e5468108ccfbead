/**
 The imperative programs and the two-process machine: over a whole execution of the
 machine the two programs do what its two processes do.
 */
module Refinement {
  import opened Results
  import opened Cells
  import opened JsonTrees
  import opened Messages
  import opened Handlers
  import opened Protocol
  import opened ClientLoop
  import opened ServerLoop

  // One move of the server

  predicate IsServerStep(step: Step) {
    step == ServerReads || step == ServerRuns || step == ServerReadsReply
  }

  /** The garbage that the server's program meets where the machine takes this step. */
  function GarbageOf(step: Step, gs: nat -> Garbage, lines: nat): Garbage {
    if step == ServerRuns then RunGarbage(gs, lines) else ReadGarbage(gs, lines)
  }

  /** From `s` to `s'`, what the server prints goes into the pipe, and its program keeps its outcome. */
  predicate MovesTo<S>(w: World<S>, s: System<S>, s': System<S>, lines: seq<string>, rest: seq<string>,
                       gs: nat -> Garbage)
  {
    && s.printed <= s'.printed && s.fromServer <= s'.fromServer
    && s'.printed[|s.printed|..] == s'.fromServer[|s.fromServer|..]
    && Fold(w.text, w.native, s.server, lines, s.printed, gs) ==
       Fold(w.text, w.native, s'.server, rest, s'.printed, gs)
  }

  /** With the machine's step, the server's program goes on to the same outcome. */
  lemma ServerMove<S>(w: World<S>, s: System<S>, step: Step, g: Garbage, lines: seq<string>, gs: nat -> Garbage)
    requires Enabled(s, step) && IsServerStep(step) && g == GarbageOf(step, gs, |lines|)
    requires step != ServerRuns ==> lines != [] && lines[0] == FirstLine(s.toServer)
    ensures MovesTo(w, s, Do(w, s, step, g), lines, if step == ServerRuns then lines else lines[1..], gs)
  {
    match step {
      case ServerRuns => MoveRuns(w, s, g, lines, gs);
      case ServerReads => MoveReads(w, s, g, lines, gs);
      case ServerReadsReply => MoveReadsReply(w, s, g, lines, gs);
    }
  }

  lemma MoveRuns<S>(w: World<S>, s: System<S>, g: Garbage, lines: seq<string>, gs: nat -> Garbage)
    requires s.server.Computing? && g == RunGarbage(gs, |lines|)
    ensures MovesTo(w, s, Do(w, s, ServerRuns, g), lines, lines, gs)
  {
    var s' := Do(w, s, ServerRuns, g);
    var text := ServerCompute(w.text, w.native, s.server, g(0)).1;
    assert s'.printed[|s.printed|..] == text && s'.fromServer[|s.fromServer|..] == text;
  }

  lemma MoveReads<S>(w: World<S>, s: System<S>, g: Garbage, lines: seq<string>, gs: nat -> Garbage)
    requires Enabled(s, ServerReads)
    requires lines != [] && lines[0] == FirstLine(s.toServer) && g == ReadGarbage(gs, |lines|)
    ensures MovesTo(w, s, Do(w, s, ServerReads, g), lines, lines[1..], gs)
  {
  }

  lemma MoveReadsReply<S>(w: World<S>, s: System<S>, g: Garbage, lines: seq<string>, gs: nat -> Garbage)
    requires Enabled(s, ServerReadsReply)
    requires lines != [] && lines[0] == FirstLine(s.toServer) && g == ReadGarbage(gs, |lines|)
    ensures MovesTo(w, s, Do(w, s, ServerReadsReply, g), lines, lines[1..], gs)
  {
  }

  // What goes through the pipes

  function Concat(texts: seq<string>): string {
    if texts == [] then "" else Concat(texts[..|texts| - 1]) + texts[|texts| - 1]
  }

  lemma ConcatSnoc(texts: seq<string>, text: string)
    ensures Concat(texts + [text]) == Concat(texts) + text
  {
    assert (texts + [text])[..|texts|] == texts;
  }

  /** The consumed lines, without their newlines, and with them. */
  function Lines(consumed: seq<(Reader, string)>): (lines: seq<string>)
    ensures |lines| == |consumed|
  {
    seq(|consumed|, i requires 0 <= i < |consumed| => consumed[i].1)
  }

  function WithNewlines(lines: seq<string>): (texts: seq<string>)
    ensures |texts| == |lines|
  {
    seq(|lines|, i requires 0 <= i < |lines| => lines[i] + "\n")
  }

  lemma LinesSnoc(consumed: seq<(Reader, string)>, entry: (Reader, string))
    ensures Lines(consumed + [entry]) == Lines(consumed) + [entry.1]
    ensures WithNewlines(Lines(consumed + [entry])) == WithNewlines(Lines(consumed)) + [entry.1 + "\n"]
  {
  }

  lemma {:induction false} LineSplits(pipe: string)
    requires HasLine(pipe)
    ensures pipe == FirstLine(pipe) + "\n" + AfterLine(pipe)
  {
    if pipe[0] != '\n' {
      LineSplits(pipe[1..]);
      assert pipe == [pipe[0]] + pipe[1..];
    }
  }

  /** Nothing is lost or made up in a pipe: what was written is what was read and what is still inside. */
  ghost predicate PipesConserve<S>(s: System<S>) {
    && FromServerConserves(s.printed, s.received, s.fromServer)
    && ToServerConserves(s.written, s.consumed, s.toServer)
  }

  predicate FromServerConserves(printed: string, received: seq<string>, pipe: string) {
    printed == Concat(received) + pipe
  }

  predicate ToServerConserves(written: seq<string>, consumed: seq<(Reader, string)>, pipe: string) {
    Concat(written) == Concat(WithNewlines(Lines(consumed))) + pipe
  }

  lemma ChunkTaken(printed: string, received: seq<string>, pipe: string, chunk: string)
    requires FromServerConserves(printed, received, pipe) && chunk <= pipe
    ensures FromServerConserves(printed, received + [chunk], pipe[|chunk|..])
  {
    ConcatSnoc(received, chunk);
    assert pipe == chunk + pipe[|chunk|..];
  }

  lemma TextPrinted(printed: string, received: seq<string>, pipe: string, text: string)
    requires FromServerConserves(printed, received, pipe)
    ensures FromServerConserves(printed + text, received, pipe + text)
  {
  }

  lemma LineTaken(written: seq<string>, consumed: seq<(Reader, string)>, pipe: string, reader: Reader)
    requires ToServerConserves(written, consumed, pipe) && HasLine(pipe)
    ensures ToServerConserves(written, consumed + [(reader, FirstLine(pipe))], AfterLine(pipe))
  {
    var line, front := FirstLine(pipe), WithNewlines(Lines(consumed));
    LineSplits(pipe);
    LinesSnoc(consumed, (reader, line));
    ConcatSnoc(front, line + "\n");
    assert Concat(front) + (line + "\n" + AfterLine(pipe)) == Concat(front) + (line + "\n") + AfterLine(pipe);
  }

  lemma LineWritten(written: seq<string>, consumed: seq<(Reader, string)>, pipe: string, text: string)
    requires ToServerConserves(written, consumed, pipe)
    ensures ToServerConserves(written + [text], consumed, pipe + text)
  {
    ConcatSnoc(written, text);
  }

  lemma PipeStep<S>(w: World<S>, s: System<S>, step: Step, g: Garbage)
    requires Enabled(s, step) && PipesConserve(s)
    ensures PipesConserve(Do(w, s, step, g))
  {
    if IsServerStep(step) {
      ServerPipeStep(w, s, step, g);
    } else {
      ClientPipeStep(w, s, step, g);
    }
  }

  lemma ServerPipeStep<S>(w: World<S>, s: System<S>, step: Step, g: Garbage)
    requires Enabled(s, step) && PipesConserve(s) && IsServerStep(step)
    ensures PipesConserve(Do(w, s, step, g))
  {
    if step == ServerRuns {
      TextPrinted(s.printed, s.received, s.fromServer, ServerCompute(w.text, w.native, s.server, g(0)).1);
    } else {
      LineTaken(s.written, s.consumed, s.toServer, if step == ServerReads then MainLoop else NestedInvoke);
    }
  }

  lemma ClientPipeStep<S>(w: World<S>, s: System<S>, step: Step, g: Garbage)
    requires Enabled(s, step) && PipesConserve(s) && !IsServerStep(step)
    ensures PipesConserve(Do(w, s, step, g))
  {
    match step {
      case ClientReads =>
        ChunkTaken(s.printed, s.received, s.fromServer, Chunk(s.fromServer, ReadLimit(s.client.pc.first)));
      case ClientSends => LineWritten(s.written, s.consumed, s.toServer, Line(w.text, Call(w.call)));
      case ClientHandles => LineWritten(s.written, s.consumed, s.toServer, ClientHandle(w, s.client, g).1);
      case _ =>
    }
  }

  lemma {:induction false} WholePipes<S>(w: World<S>, states: seq<System<S>>, i: nat)
    requires IsExecution(w, states) && i < |states|
    ensures PipesConserve(states[i])
  {
    if i > 0 {
      WholePipes(w, states, i - 1);
      var step, g := StepAt(w, states, i - 1);
      PipeStep(w, states[i - 1], step, g);
    }
  }

  // The server's program over an execution

  /** The outcome depends on the garbage of the moves still to come only. */
  lemma {:induction false} FoldAgrees(t: Text, native: Native, pc: ServerPc, lines: seq<string>, out: string,
                                      gs: nat -> Garbage, gs': nat -> Garbage)
    requires forall m: nat :: m <= 2 * |lines| + 1 && (m == 2 * |lines| ==> pc.Computing?) ==> gs(m) == gs'(m)
    ensures Fold(t, native, pc, lines, out, gs) == Fold(t, native, pc, lines, out, gs')
    decreases |lines|, if pc.Computing? then 1 else 0
  {
    if pc.Computing? {
      var (pc', text) := ServerCompute(t, native, pc, RunGarbage(gs, |lines|)(0));
      FoldAgrees(t, native, pc', lines, out + text, gs, gs');
    } else if !pc.Ended? && lines != [] {
      var g := ReadGarbage(gs, |lines|);
      var pc' := if pc.MainRead? then ServerMain(t, lines[0], g) else ServerNested(t, pc, lines[0], g);
      FoldAgrees(t, native, pc', lines[1..], out, gs, gs');
    }
  }

  /** The end of a server that gets no more input. */
  function ServerAtRest(pc: ServerPc): ServerPc
    requires !pc.Computing?
  {
    if pc.NestedRead? then Ended(BadJson) else pc
  }

  /** The lines that the server consumes after this state. */
  function LinesAfter<S>(s: System<S>, end: System<S>): seq<string>
    requires |s.consumed| <= |end.consumed|
  {
    Lines(end.consumed)[|s.consumed|..]
  }

  lemma {:induction false} ServerRun<S>(w: World<S>, states: seq<System<S>>, j: nat) returns (gs: nat -> Garbage)
    requires IsExecution(w, states) && j < |states| && !states[|states| - 1].server.Computing?
    ensures var s, end := states[j], states[|states| - 1];
            && s.consumed <= end.consumed
            && Fold(w.text, w.native, s.server, LinesAfter(s, end), s.printed, gs) ==
               (ServerAtRest(end.server), end.printed)
    decreases |states| - j
  {
    var s, end := states[j], states[|states| - 1];
    if j == |states| - 1 {
      gs := _ => (_ => 0);
    } else {
      var later := ServerRun(w, states, j + 1);
      var step, g := StepAt(w, states, j);
      var s' := states[j + 1];
      if IsServerStep(step) {
        gs := ServerStepBack(w, s, step, g, end, later);
      } else {
        gs := later;
      }
    }
  }

  /** One server step earlier: the garbage of the step is put in front of the later one. */
  lemma ServerStepBack<S>(w: World<S>, s: System<S>, step: Step, g: Garbage, end: System<S>, later: nat -> Garbage)
    returns (gs: nat -> Garbage)
    requires Enabled(s, step) && IsServerStep(step)
    requires Do(w, s, step, g).consumed <= end.consumed
    ensures s.consumed <= end.consumed
    ensures var s' := Do(w, s, step, g);
            Fold(w.text, w.native, s.server, LinesAfter(s, end), s.printed, gs) ==
            Fold(w.text, w.native, s'.server, LinesAfter(s', end), s'.printed, later)
  {
    var s' := Do(w, s, step, g);
    var lines, rest := LinesAfter(s, end), LinesAfter(s', end);
    var now := if step == ServerRuns then 2 * |lines| else 2 * |lines| + 1;
    gs := m => if m == now then g else later(m);
    if step != ServerRuns {
      assert s'.consumed[|s.consumed|].1 == FirstLine(s.toServer);
      assert end.consumed[|s.consumed|] == s'.consumed[|s.consumed|];
      assert lines[0] == FirstLine(s.toServer) && lines[1..] == rest;
    }
    ServerMove(w, s, step, g, lines, gs);
    FoldAgrees(w.text, w.native, s'.server, rest, s'.printed, gs, later);
  }

  /** What the server's program does on the lines that the machine's server has consumed. */
  ghost predicate ServerReplays<S>(w: World<S>, end: System<S>, gs: nat -> Garbage)
    requires !end.server.Computing?
  {
    Fold(w.text, w.native, MainRead, Lines(end.consumed), "", gs) == (ServerAtRest(end.server), end.printed)
  }

  /**
   Every execution, up to any point where the native code is not running, is one of the
   server's program: on the lines that were consumed, and then no more, it prints what
   the machine's server has printed and ends where that one is.
   */
  lemma ServerProgramRuns<S>(w: World<S>, states: seq<System<S>>) returns (gs: nat -> Garbage)
    requires IsExecution(w, states) && !states[|states| - 1].server.Computing?
    ensures ServerReplays(w, states[|states| - 1], gs)
  {
    gs := ServerRun(w, states, 0);
    var end := states[|states| - 1];
    assert LinesAfter(states[0], end) == Lines(end.consumed);
  }

  /** The program itself, on the lines of an execution. */
  method ReplayServer<S>(w: World<S>, ghost end: System<S>, jniEnv: Raw, lines: seq<string>,
                         loaderGarbage: nat -> Raw, gs: nat -> Garbage) returns (server: Server, r: Result<()>)
    requires !end.server.Computing? && lines == Lines(end.consumed) && ServerReplays(w, end, gs)
    ensures fresh(server) && server.stdout == end.printed
    ensures if r.Ok? then end.server == MainRead else ServerAtRest(end.server) == Ended(r.failure)
  {
    server := new Server(w.text, w.native, jniEnv, lines);
    r := server.CallJniProcessor(loaderGarbage, gs);
  }

  // The client's program over an execution

  lemma {:induction false} LoopAgrees<S>(w: World<S>, c: Client<S>, out: string, results: seq<string>, i: nat,
                                         gs: nat -> Garbage, gs': nat -> Garbage)
    requires forall m: nat :: m >= 2 * i ==> gs(m) == gs'(m)
    ensures Loop(w, c, out, results, i, gs) == Loop(w, c, out, results, i, gs')
    decreases |results|
  {
    if c.pc.Reading? && results != [] {
      var (c1, text) := Turn(w, c, results[0], gs(2 * i), gs(2 * i + 1));
      LoopAgrees(w, c1, out + text, results[1..], i + 1, gs, gs');
    }
  }

  /** What holds of the client and its reads in every reachable state. */
  predicate ReadsCounted<S>(s: System<S>, j: nat) {
    && (s.client.pc.Start? <==> j == 0)
    && (s.client.pc.Start? ==> s.received == [])
    && (s.client.pc.Reading? ==> (s.client.pc.first <==> s.received == []))
    && (s.client.pc.Handling? ==> s.received != [])
    && forall i :: 0 <= i < |s.received| ==> 0 < |s.received[i]| <= ReadLimit(i == 0)
  }

  lemma {:induction false} CountReads<S>(w: World<S>, states: seq<System<S>>, j: nat)
    requires IsExecution(w, states) && j < |states|
    ensures ReadsCounted(states[j], j)
  {
    if j > 0 {
      CountReads(w, states, j - 1);
      var step, g := StepAt(w, states, j - 1);
      CountStep(w, states[j - 1], j - 1, step, g);
    }
  }

  lemma CountStep<S>(w: World<S>, s: System<S>, j: nat, step: Step, g: Garbage)
    requires ReadsCounted(s, j) && Enabled(s, step) && (j == 0 ==> step == ClientSends)
    ensures ReadsCounted(Do(w, s, step, g), j + 1)
  {
  }

  /** The end of a client that reads no more: its loop sees the end of the stream. */
  function ClientAtRest<S>(c: Client<S>): Client<S> {
    if c.pc.Reading? then c.(pc := Left(NoResult)) else c
  }

  /** The rest of the client's loop after `i` reads, from between a read and its processMessage too. */
  function Continue<S>(w: World<S>, c: Client<S>, out: string, results: seq<string>, i: nat, gs: nat -> Garbage)
    : (Client<S>, string)
    requires c.pc.Handling? ==> i > 0
  {
    if c.pc.Handling? then
      var (c1, text) := ClientHandle(w, c, gs(2 * i - 1));
      Loop(w, c1, out + text, results, i, gs)
    else Loop(w, c, out, results, i, gs)
  }

  function Resume<S>(w: World<S>, s: System<S>, results: seq<string>, gs: nat -> Garbage): (Client<S>, string)
    requires s.client.pc.Handling? ==> s.received != []
  {
    Continue(w, s.client, Concat(s.written), results, |s.received|, gs)
  }

  /** What the client's reads give after this state. */
  function ResultsAfter<S>(s: System<S>, end: System<S>): seq<string>
    requires |s.received| <= |end.received|
  {
    end.received[|s.received|..]
  }

  lemma {:induction false} ClientRun<S>(w: World<S>, states: seq<System<S>>, j: nat) returns (gs: nat -> Garbage)
    requires IsExecution(w, states) && 0 < j < |states| && !states[|states| - 1].client.pc.Handling?
    ensures RunOfClient(w, states[j], j, states[|states| - 1], gs)
    decreases |states| - j
  {
    var s, end := states[j], states[|states| - 1];
    CountReads(w, states, j);
    if j == |states| - 1 {
      gs := _ => (_ => 0);
      NoMoreReads(w, end, gs);
    } else {
      var later := ClientRun(w, states, j + 1);
      var step, g := StepAt(w, states, j);
      gs := ClientStepBack(w, s, j, step, g, end, later);
    }
  }

  /** The client's program, from this state on, ends as the client of the last state. */
  ghost predicate RunOfClient<S>(w: World<S>, s: System<S>, j: nat, end: System<S>, gs: nat -> Garbage) {
    && s.received <= end.received && ReadsCounted(s, j)
    && (IsFinal(s) ==> s.received == end.received)
    && Resume(w, s, ResultsAfter(s, end), gs) == (ClientAtRest(end.client), Concat(end.written))
  }

  lemma NoMoreReads<S>(w: World<S>, s: System<S>, gs: nat -> Garbage)
    requires !s.client.pc.Handling?
    ensures Resume(w, s, [], gs) == (ClientAtRest(s.client), Concat(s.written))
  {
    if s.client.pc.Reading? {
      TurnUpdates(w, s.client, "", gs(2 * |s.received|), gs(2 * |s.received| + 1));
    }
  }

  /** One step earlier: the garbage of a client's step is put in front of the later one. */
  lemma ClientStepBack<S>(w: World<S>, s: System<S>, j: nat, step: Step, g: Garbage, end: System<S>,
                          later: nat -> Garbage) returns (gs: nat -> Garbage)
    requires Enabled(s, step) && j > 0 && ReadsCounted(s, j)
    requires RunOfClient(w, Do(w, s, step, g), j + 1, end, later)
    ensures RunOfClient(w, s, j, end, gs)
  {
    if step == ClientReads {
      gs := ReadBack(w, s, j, g, end, later);
    } else if step == ClientHandles {
      gs := HandleBack(w, s, j, g, end, later);
    } else {
      gs := later;
      if step == ClientSeesEof {
        TurnUpdates(w, s.client, "", later(2 * |s.received|), later(2 * |s.received| + 1));
      }
    }
  }

  lemma ReadBack<S>(w: World<S>, s: System<S>, j: nat, g: Garbage, end: System<S>, later: nat -> Garbage)
    returns (gs: nat -> Garbage)
    requires Enabled(s, ClientReads) && ReadsCounted(s, j)
    requires RunOfClient(w, Do(w, s, ClientReads, g), j + 1, end, later)
    ensures RunOfClient(w, s, j, end, gs)
  {
    var chunk := Chunk(s.fromServer, ReadLimit(s.client.pc.first));
    gs := ReadBackFrom(w, s, j, Do(w, s, ClientReads, g), chunk, g, end, later);
  }

  lemma ReadBackFrom<S>(w: World<S>, s: System<S>, j: nat, s': System<S>, chunk: string, g: Garbage, end: System<S>,
                        later: nat -> Garbage) returns (gs: nat -> Garbage)
    requires s.client.pc.Reading? && ReadsCounted(s, j) && RunOfClient(w, s', j + 1, end, later)
    requires s'.client == ClientReceive(w, s.client, chunk, g)
    requires s'.written == s.written && s'.received == s.received + [chunk]
    ensures RunOfClient(w, s, j, end, gs)
  {
    var i := |s.received|;
    assert end.received[i] == s'.received[i];
    assert ResultsAfter(s, end) == [chunk] + ResultsAfter(s', end);
    gs := m => if m == 2 * i then g else later(m);
    LoopReads(w, s.client, s'.client, Concat(s.written), chunk, ResultsAfter(s', end), i, gs);
    ContinueAgrees(w, s'.client, Concat(s.written), ResultsAfter(s', end), i + 1, gs, later);
  }

  lemma LoopReads<S>(w: World<S>, c: Client<S>, c': Client<S>, out: string, chunk: string, rest: seq<string>, i: nat,
                     gs: nat -> Garbage)
    requires c.pc.Reading? && c' == ClientReceive(w, c, chunk, gs(2 * i))
    ensures Loop(w, c, out, [chunk] + rest, i, gs) == Continue(w, c', out, rest, i + 1, gs)
  {
    assert out + "" == out && ([chunk] + rest)[1..] == rest;
  }

  lemma ContinueAgrees<S>(w: World<S>, c: Client<S>, out: string, results: seq<string>, i: nat,
                          gs: nat -> Garbage, gs': nat -> Garbage)
    requires i > 0 && forall m: nat :: m >= 2 * i - 1 ==> gs(m) == gs'(m)
    ensures Continue(w, c, out, results, i, gs) == Continue(w, c, out, results, i, gs')
  {
    if c.pc.Handling? {
      var (c1, text) := ClientHandle(w, c, gs(2 * i - 1));
      LoopAgrees(w, c1, out + text, results, i, gs, gs');
    } else {
      LoopAgrees(w, c, out, results, i, gs, gs');
    }
  }

  lemma HandleBack<S>(w: World<S>, s: System<S>, j: nat, g: Garbage, end: System<S>, later: nat -> Garbage)
    returns (gs: nat -> Garbage)
    requires Enabled(s, ClientHandles) && ReadsCounted(s, j)
    requires RunOfClient(w, Do(w, s, ClientHandles, g), j + 1, end, later)
    ensures RunOfClient(w, s, j, end, gs)
  {
    var (c, text) := ClientHandle(w, s.client, g);
    AfterHandle(w, s, g);
    gs := HandleBackFrom(w, s, j, Do(w, s, ClientHandles, g), c, text, g, end, later);
  }

  lemma AfterHandle<S>(w: World<S>, s: System<S>, g: Garbage)
    requires s.client.pc.Handling?
    ensures var s' := Do(w, s, ClientHandles, g);
            var (c, text) := ClientHandle(w, s.client, g);
            && s'.client == c && !c.pc.Handling? && s'.received == s.received
            && Concat(s'.written) == Concat(s.written) + text
  {
    var (c, text) := ClientHandle(w, s.client, g);
    var with := s.(client := c);
    assert Do(w, s, ClientHandles, g) == WriteToServer(with, text);
    WrittenConcat(with, text);
  }

  lemma WrittenConcat<S>(s: System<S>, text: string)
    ensures var s' := WriteToServer(s, text);
            && s'.client == s.client && s'.received == s.received
            && Concat(s'.written) == Concat(s.written) + text
  {
    if text == "" {
      assert Concat(s.written) + "" == Concat(s.written);
    } else {
      ConcatSnoc(s.written, text);
    }
  }

  lemma HandleBackFrom<S>(w: World<S>, s: System<S>, j: nat, s': System<S>, c: Client<S>, text: string, g: Garbage,
                          end: System<S>, later: nat -> Garbage) returns (gs: nat -> Garbage)
    requires s.client.pc.Handling? && ReadsCounted(s, j) && RunOfClient(w, s', j + 1, end, later)
    requires (c, text) == ClientHandle(w, s.client, g) && s'.client == c && !c.pc.Handling?
    requires Concat(s'.written) == Concat(s.written) + text && s'.received == s.received
    ensures RunOfClient(w, s, j, end, gs)
  {
    var i := |s.received|;
    gs := m => if m == 2 * i - 1 then g else later(m);
    LoopAgrees(w, c, Concat(s.written) + text, ResultsAfter(s, end), i, gs, later);
  }

  /** What the client's program does on the chunks that the machine's client has read. */
  ghost predicate ClientReplays<S>(w: World<S>, end: System<S>, gs: nat -> Garbage) {
    && Loop(w, Client(Reading(true), w.jvm0, [], 0), Line(w.text, Call(w.call)), end.received, 0, gs) ==
       (ClientAtRest(end.client), Concat(end.written))
    && forall i :: 0 <= i < |end.received| ==> |end.received[i]| <= ReadLimit(i == 0)
  }

  /**
   Every execution, up to any point where the client is not between a read and its
   processMessage, is one of the client's program: on the chunks that were read, and
   then the end of the stream, it writes what the machine's client has written and ends
   where that one is, with the same JVM.
   */
  lemma ClientProgramRuns<S>(w: World<S>, states: seq<System<S>>) returns (gs: nat -> Garbage)
    requires IsExecution(w, states) && |states| > 1 && !states[|states| - 1].client.pc.Handling?
    ensures ClientReplays(w, states[|states| - 1], gs)
  {
    gs := ClientRun(w, states, 1);
    var end := states[|states| - 1];
    CountReads(w, states, |states| - 1);
    FirstState(w, states);
    assert ResultsAfter(states[1], end) == end.received;
  }

  lemma FirstState<S>(w: World<S>, states: seq<System<S>>)
    requires IsExecution(w, states) && |states| > 1
    ensures states[1].client == Client(Reading(true), w.jvm0, [], 0)
    ensures states[1].received == [] && Concat(states[1].written) == Line(w.text, Call(w.call))
  {
    var step, g := StepAt(w, states, 0);
    var line := Line(w.text, Call(w.call));
    ConcatSnoc([], line);
    assert "" + line == line && [] + [line] == [line];
  }

  /** The program itself, on the chunks of an execution. */
  method ReplayClient<S>(w: World<S>, ghost end: System<S>, results: seq<string>, gs: nat -> Garbage)
    returns (client: JniClient<S>, pc: ClientPc)
    requires results == end.received && ClientReplays(w, end, gs)
    ensures fresh(client) && client.View(pc) == ClientAtRest(end.client) && client.toServer == Concat(end.written)
    ensures client.processDone <==> |client.updates| == 1
  {
    client := new JniClient(w);
    assert client.View(Reading(true)) == Client(Reading(true), w.jvm0, [], 0);
    assert client.toServer + Line(w.text, Call(w.call)) == Line(w.text, Call(w.call));
    pc := client.JniClientMain(results, gs);
  }

  /**
   A finished conversation is one of the two programs with each other: what each of
   them writes is, to the last character, what the other one has read.
   */
  lemma ProgramsConverse<S>(w: World<S>, states: seq<System<S>>) returns (gs: nat -> Garbage, hs: nat -> Garbage)
    requires Valid(w) && IsExecution(w, states) && states[|states| - 1].client.pc.Finished?
    ensures var end := states[|states| - 1];
            && end.server == MainRead
            && ClientReplays(w, end, gs) && ServerReplays(w, end, hs)
            && Concat(end.received) == end.printed
            && Concat(WithNewlines(Lines(end.consumed))) == Concat(end.written)
  {
    var i := |states| - 1;
    var p := PhaseOf(w, states, i);
    FinalInPhase(w, states[i], i, p);
    WholePipes(w, states, i);
    assert Concat(states[i].received) + "" == Concat(states[i].received);
    var lines := Concat(WithNewlines(Lines(states[i].consumed)));
    assert lines + "" == lines;
    gs := ClientProgramRuns(w, states);
    hs := ServerProgramRuns(w, states);
  }
}
