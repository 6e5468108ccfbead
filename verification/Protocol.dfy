/**
 The client process, the server process and the two pipes as a step machine,
 and its refinement of the direct run, in which the native code calls the JVM
 itself.
 */
module Protocol {
  import opened Results
  import opened Cells
  import opened JsonTrees
  import opened Values
  import opened Messages
  import opened NativeLoader
  import opened Handlers
  import opened ArrivingCalls

  // Lines in a pipe

  predicate HasLine(pipe: string) {
    '\n' in pipe
  }

  /** getline takes the characters before the first newline, and drops the newline. */
  function FirstLine(pipe: string): (line: string)
    requires HasLine(pipe)
    ensures |line| < |pipe| && '\n' !in line
  {
    if pipe[0] == '\n' then "" else [pipe[0]] + FirstLine(pipe[1..])
  }

  function AfterLine(pipe: string): string
    requires HasLine(pipe)
  {
    pipe[|FirstLine(pipe)| + 1..]
  }

  lemma {:induction false} FirstLineOf(body: string, rest: string)
    requires '\n' !in body
    ensures HasLine(body + "\n" + rest)
    ensures FirstLine(body + "\n" + rest) == body
    ensures AfterLine(body + "\n" + rest) == rest
  {
    var pipe := body + "\n" + rest;
    assert pipe[|body|] == '\n';
    if body != "" {
      assert pipe[1..] == body[1..] + "\n" + rest;
      FirstLineOf(body[1..], rest);
    }
  }

  // The machine

  datatype Reader = MainLoop | NestedInvoke

  /**
   The two processes, the two pipes, and logs: the lines written to the server and
   those its readers took, what the server printed, and what the client's reads gave.
   */
  datatype System<!S> = System(
    client: Client<S>,
    server: ServerPc,
    toServer: string,
    fromServer: string,
    written: seq<string>,
    consumed: seq<(Reader, string)>,
    printed: string,
    received: seq<string>)

  function Init<S>(w: World<S>): System<S> {
    System(Client(Start, w.jvm0, [], 0), MainRead, "", "", [], [], "", [])
  }

  datatype Step =
    | ClientSends | ClientReads | ClientSeesEof | ClientHandles
    | ServerReads | ServerRuns | ServerReadsReply

  predicate Enabled<S>(s: System<S>, k: Step) {
    match k
    case ClientSends => s.client.pc.Start?
    case ClientReads => s.client.pc.Reading? && s.fromServer != ""
    case ClientSeesEof => s.client.pc.Reading? && s.fromServer == "" && s.server.Ended?
    case ClientHandles => s.client.pc.Handling?
    case ServerReads => s.server.MainRead? && HasLine(s.toServer)
    case ServerRuns => s.server.Computing?
    case ServerReadsReply => s.server.NestedRead? && HasLine(s.toServer)
  }

  /** A read takes what the pipe has, up to the size it asked for. */
  function Chunk(pipe: string, limit: nat): (chunk: string)
    ensures chunk <= pipe && |chunk| == if |pipe| < limit then |pipe| else limit
  {
    if |pipe| <= limit then pipe else pipe[..limit]
  }

  function WriteToServer<S>(s: System<S>, text: string): System<S> {
    if text == "" then s
    else s.(toServer := s.toServer + text, written := s.written + [text])
  }

  function Do<S>(w: World<S>, s: System<S>, k: Step, g: Garbage): System<S>
    requires Enabled(s, k)
  {
    match k
    case ClientSends =>
      WriteToServer(s.(client := s.client.(pc := Reading(true))), Line(w.text, Call(w.call)))
    case ClientReads =>
      var chunk := Chunk(s.fromServer, ReadLimit(s.client.pc.first));
      s.(client := ClientReceive(w, s.client, chunk, g), fromServer := s.fromServer[|chunk|..],
         received := s.received + [chunk])
    case ClientSeesEof =>
      s.(client := ClientReceive(w, s.client, "", g))
    case ClientHandles =>
      var (c, text) := ClientHandle(w, s.client, g);
      WriteToServer(s.(client := c), text)
    case ServerReads =>
      var line := FirstLine(s.toServer);
      s.(server := ServerMain(w.text, line, g), toServer := AfterLine(s.toServer),
         consumed := s.consumed + [(MainLoop, line)])
    case ServerRuns =>
      var (pc, text) := ServerCompute(w.text, w.native, s.server, g(0));
      s.(server := pc, fromServer := s.fromServer + text, printed := s.printed + text)
    case ServerReadsReply =>
      var line := FirstLine(s.toServer);
      s.(server := ServerNested(w.text, s.server, line, g), toServer := AfterLine(s.toServer),
         consumed := s.consumed + [(NestedInvoke, line)])
  }

  /** Any enabled step may happen, with any garbage in the uninitialised bytes. */
  ghost predicate Next<S>(w: World<S>, s: System<S>, s': System<S>) {
    exists k: Step, g: Garbage :: Enabled(s, k) && s' == Do(w, s, k, g)
  }

  ghost predicate IsExecution<S>(w: World<S>, states: seq<System<S>>) {
    && states != [] && states[0] == Init(w)
    && forall i :: 0 <= i < |states| - 1 ==> Next(w, states[i], states[i + 1])
  }

  // The direct run

  /** The env calls whose result the machine carries; GetIntArrayElements is called with too few arguments. */
  predicate Supported(r: Request) {
    !r.GetIntArrayElements?
  }

  function DirectReply<S>(jvm: Jvm<S>, s: S, r: Request): (S, int)
    requires Supported(r)
  {
    match r
    case FindClass(name) => var (s', id) := jvm.findClass(s, name); (s', id)
    case GetArrayLength(a) => var (s', n) := jvm.arrayLength(s, a); (s', n)
  }

  datatype DirectState<!S> = DirectState(jvm: S, history: seq<int>, performed: seq<Request>)

  function DirectStep<S>(w: World<S>, d: DirectState<S>): DirectState<S>
    requires IsBasicCall(w.call)
  {
    match w.native(Views(w.call, w.text), d.history)
    case Return(_, _) => d
    case Invoke(r) =>
      if !Supported(r) then d
      else
        var (s, n) := DirectReply(w.jvm, d.jvm, r);
        DirectState(s, d.history + [n], d.performed + [r])
  }

  /** The direct run after k env calls, or where it stopped before. */
  function Direct<S>(w: World<S>, k: nat): DirectState<S>
    requires IsBasicCall(w.call)
  {
    if k == 0 then DirectState(w.jvm0, [], []) else DirectStep(w, Direct(w, k - 1))
  }

  /** The native code's move after k env calls. */
  function Move<S>(w: World<S>, k: nat): Action
    requires IsBasicCall(w.call)
  {
    w.native(Views(w.call, w.text), Direct(w, k).history)
  }

  // The conditions of one call

  predicate Fits(t: Text, m: Message) {
    |Line(t, m)| < BUFFER_SIZE
  }

  /** Every message that the server may have to send fits the client's buffer. */
  ghost predicate MessagesFit<S>(w: World<S>)
    requires IsBasicCall(w.call)
  {
    forall k: nat, garbage: Raw :: MoveFits(w, Move(w, k), garbage)
  }

  predicate MoveFits<S>(w: World<S>, move: Action, garbage: Raw)
    requires IsBasicCall(w.call)
  {
    match move
    case Return(rax, xmm0) => Fits(w.text, ReplyMessage(w, rax, xmm0, garbage))
    case Invoke(r) => Fits(w.text, EnvCall(RequestCall(r, garbage)))
  }

  function ReplyMessage<S>(w: World<S>, rax: Raw, xmm0: Raw, garbage: Raw): Message
    requires IsBasicCall(w.call)
  {
    Reply(Basic(ResultType(w.call), Collected(w, rax, xmm0, garbage)))
  }

  function Collected<S>(w: World<S>, rax: Raw, xmm0: Raw, garbage: Raw): Raw
    requires IsBasicCall(w.call)
  {
    CollectReturn(IsReal(ResultType(w.call)), rax, xmm0, garbage)
  }

  /** JSON text is sound, the call consists of basic values, and the messages fit. */
  ghost predicate Valid<S>(w: World<S>) {
    && w.text.Sound()
    && IsBasicCall(w.call)
    && MessagesFit(w)
  }

  // The invariant: one predicate for each phase of the conversation, with the number of steps so far

  /** The JVM has done exactly what it does in the first `k` env calls of the direct run. */
  ghost predicate InStep<S>(w: World<S>, s: System<S>, k: nat)
    requires IsBasicCall(w.call)
  {
    var d := Direct(w, k);
    && s.client.jvm == d.jvm && s.client.performed == d.performed
    && |d.performed| == k && |d.history| == k
  }

  ghost predicate IsStarting<S>(w: World<S>, s: System<S>, i: nat) {
    s == Init(w) && i == 0
  }

  ghost predicate IsCallSent<S>(w: World<S>, s: System<S>, i: nat) {
    && i == 1 && s.client == Client(Reading(true), w.jvm0, [], 0) && s.server == MainRead
    && s.toServer == Line(w.text, Call(w.call)) && s.fromServer == ""
    && s.written == [s.toServer] && s.consumed == []
  }

  ghost predicate IsNativeRuns<S>(w: World<S>, s: System<S>, i: nat, k: nat)
    requires IsBasicCall(w.call)
  {
    && i == 2 + 4 * k && InStep(w, s, k) && Delivers(w.call, w.text)
    && s.client.pc == Reading(k == 0) && s.client.updates == 0
    && s.server == Computing(Views(w.call, w.text), ResultType(w.call), Direct(w, k).history)
    && s.toServer == "" && s.fromServer == ""
  }

  ghost predicate IsEnvCallSent<S>(w: World<S>, s: System<S>, i: nat, k: nat, r: Request, garbage: Raw)
    requires IsBasicCall(w.call)
  {
    && i == 3 + 4 * k && InStep(w, s, k) && Delivers(w.call, w.text) && Move(w, k) == Invoke(r)
    && s.client.pc == Reading(k == 0) && s.client.updates == 0
    && s.server == NestedRead(Views(w.call, w.text), ResultType(w.call), Direct(w, k).history, r)
    && s.toServer == "" && s.fromServer == Line(w.text, EnvCall(RequestCall(r, garbage)))
  }

  ghost predicate IsEnvCallRead<S>(w: World<S>, s: System<S>, i: nat, k: nat, r: Request, garbage: Raw)
    requires IsBasicCall(w.call)
  {
    && i == 4 + 4 * k && InStep(w, s, k) && Delivers(w.call, w.text) && Move(w, k) == Invoke(r)
    && s.client.pc.Handling? && SameMessage(EnvCall(RequestCall(r, garbage)), s.client.pc.message)
    && s.client.updates == 0
    && s.server == NestedRead(Views(w.call, w.text), ResultType(w.call), Direct(w, k).history, r)
    && s.toServer == "" && s.fromServer == ""
  }

  /** The value that carries a direct reply back. */
  predicate Carries(v: Value, r: Request, n: int) {
    match r
    case FindClass(_) => v.Basic? && v.typ == JObject && v.raw == n
    case GetArrayLength(_) => v.Basic? && v.typ == JSize && Decode(JSize, v.raw) == n
    case GetIntArrayElements(_) => false
  }

  ghost predicate IsEnvReplySent<S>(w: World<S>, s: System<S>, i: nat, k: nat, r: Request, v: Value)
    requires IsBasicCall(w.call)
  {
    && i == 5 + 4 * k && InStep(w, s, k + 1) && Delivers(w.call, w.text) && Move(w, k) == Invoke(r) && Supported(r)
    && s.client.pc == Reading(false) && s.client.updates == 0
    && s.server == NestedRead(Views(w.call, w.text), ResultType(w.call), Direct(w, k).history, r)
    && Carries(v, r, DirectReply(w.jvm, Direct(w, k).jvm, r).1)
    && s.toServer == Line(w.text, EnvReply(v)) && s.fromServer == ""
  }

  ghost predicate IsReplySent<S>(w: World<S>, s: System<S>, i: nat, k: nat, garbage: Raw)
    requires IsBasicCall(w.call)
  {
    && i == 3 + 4 * k && InStep(w, s, k) && Delivers(w.call, w.text) && Move(w, k).Return?
    && s.client.pc == Reading(k == 0) && s.client.updates == 0 && s.server == MainRead
    && s.toServer == ""
    && s.fromServer == Line(w.text, ReplyMessage(w, Move(w, k).rax, Move(w, k).xmm0, garbage))
  }

  /** The returned cell as the server sends it. */
  function SentCell<S>(w: World<S>, k: nat, garbage: Raw): Raw
    requires IsBasicCall(w.call) && Move(w, k).Return?
  {
    Collected(w, Move(w, k).rax, Move(w, k).xmm0, garbage)
  }

  /** `mixed` is the garbage around the value that the client's factory has parsed from the reply. */
  ghost predicate IsReplyRead<S>(w: World<S>, s: System<S>, i: nat, k: nat, garbage: Raw, mixed: Raw)
    requires IsBasicCall(w.call)
  {
    && i == 4 + 4 * k && InStep(w, s, k) && Delivers(w.call, w.text) && Move(w, k).Return?
    && s.client.updates == 0 && s.server == MainRead
    && s.client.pc.Handling? && s.client.pc.message.Reply?
    && s.toServer == "" && s.fromServer == ""
    && s.client.pc.message.result.Basic? && s.client.pc.message.result.typ == ResultType(w.call)
    && ParseBasic(ResultType(w.call), PrintBasic(ResultType(w.call), SentCell(w, k, garbage), w.text), mixed, w.text) ==
       Ok(s.client.pc.message.result.raw)
  }

  ghost predicate IsDone<S>(w: World<S>, s: System<S>, i: nat, k: nat, garbage: Raw)
    requires IsBasicCall(w.call)
  {
    && i == 5 + 4 * k && InStep(w, s, k) && Delivers(w.call, w.text) && Move(w, k).Return?
    && s.client.updates == 1 && s.server == MainRead
    && s.toServer == "" && s.fromServer == ""
    && Arrives(ResultType(w.call), SentCell(w, k, garbage), w.text)
    && s.client.pc == Finished(SignatureOf(ResultType(w.call)),
                               ArrivedText(ResultType(w.call), SentCell(w, k, garbage), w.text))
  }

  /** The server has thrown: an argument does not parse, or the arguments do not fit the registers it can fill. */
  ghost predicate IsServerGone<S>(w: World<S>, s: System<S>, i: nat)
    requires IsBasicCall(w.call)
  {
    && i == 2 && !Delivers(w.call, w.text)
    && s.client == Client(Reading(true), w.jvm0, [], 0)
    && s.server == Ended(RefusalOf(w.call, w.text))
    && s.toServer == "" && s.fromServer == ""
  }

  /** The client has left without a result. */
  ghost predicate HasLeft<S>(s: System<S>, why: Failure) {
    s.client.pc == Left(why) && s.client.updates == 0 && s.toServer == "" && s.fromServer == ""
  }

  /** The client has seen the end of the stream of a server that threw. */
  ghost predicate IsAbandoned<S>(w: World<S>, s: System<S>, i: nat)
    requires IsBasicCall(w.call)
  {
    && i == 3 && !Delivers(w.call, w.text) && HasLeft(s, NoResult)
    && s.client.jvm == w.jvm0 && s.client.performed == []
    && s.server == Ended(RefusalOf(w.call, w.text))
  }

  /** The client has read an argument that was not sent. */
  ghost predicate IsArrayAsked<S>(w: World<S>, s: System<S>, i: nat, k: nat)
    requires IsBasicCall(w.call)
  {
    && i == 5 + 4 * k && InStep(w, s, k) && Delivers(w.call, w.text) && HasLeft(s, UndefinedBehaviour)
    && AsksForArray(w, k) && WaitsInProxy(w, s.server, k)
  }

  /** The client has met a reply value that does not parse, in its first or its second reading. */
  ghost predicate IsUnreadable<S>(w: World<S>, s: System<S>, i: nat, k: nat, garbage: Raw, why: Failure)
    requires IsBasicCall(w.call)
  {
    && (i == 4 + 4 * k || i == 5 + 4 * k) && InStep(w, s, k) && Delivers(w.call, w.text) && HasLeft(s, why)
    && why != UnknownMessage && s.server == MainRead
    && Move(w, k).Return? && !Arrives(ResultType(w.call), SentCell(w, k, garbage), w.text)
  }

  /** The server waits for the reply to the native code's move after k env calls. */
  predicate WaitsInProxy<S>(w: World<S>, pc: ServerPc, k: nat)
    requires IsBasicCall(w.call) && Move(w, k).Invoke?
  {
    pc == NestedRead(Views(w.call, w.text), ResultType(w.call), Direct(w, k).history, Move(w, k).request)
  }

  /** The native code asks for array elements. */
  predicate AsksForArray<S>(w: World<S>, k: nat)
    requires IsBasicCall(w.call)
  {
    Move(w, k).Invoke? && !Supported(Move(w, k).request)
  }

  datatype Phase =
    | Starting
    | CallSent
    | NativeRuns(k: nat)
    | EnvCallSent(k: nat, r: Request, garbage: Raw)
    | EnvCallRead(k: nat, r: Request, garbage: Raw)
    | EnvReplySent(k: nat, r: Request, v: Value)
    | ReplySent(k: nat, garbage: Raw)
    | ReplyRead(k: nat, garbage: Raw, mixed: Raw)
    | Done(k: nat, garbage: Raw)
    | ServerGone
    | Abandoned
    | ArrayAsked(k: nat)
    | Unreadable(k: nat, garbage: Raw, why: Failure)

  ghost predicate InPhase<S>(w: World<S>, s: System<S>, i: nat, p: Phase)
    requires IsBasicCall(w.call)
  {
    match p
    case Starting => IsStarting(w, s, i)
    case CallSent => IsCallSent(w, s, i)
    case NativeRuns(k) => IsNativeRuns(w, s, i, k)
    case EnvCallSent(k, r, garbage) => IsEnvCallSent(w, s, i, k, r, garbage)
    case EnvCallRead(k, r, garbage) => IsEnvCallRead(w, s, i, k, r, garbage)
    case EnvReplySent(k, r, v) => IsEnvReplySent(w, s, i, k, r, v)
    case ReplySent(k, garbage) => IsReplySent(w, s, i, k, garbage)
    case ReplyRead(k, garbage, mixed) => IsReplyRead(w, s, i, k, garbage, mixed)
    case Done(k, garbage) => IsDone(w, s, i, k, garbage)
    case ServerGone => IsServerGone(w, s, i)
    case Abandoned => IsAbandoned(w, s, i)
    case ArrayAsked(k) => IsArrayAsked(w, s, i, k)
    case Unreadable(k, garbage, why) => IsUnreadable(w, s, i, k, garbage, why)
  }

  // Each phase leads to the next

  lemma LineFacts(t: Text, m: Message)
    requires t.Sound()
    ensures var line := Line(t, m);
            && HasLine(line) && FirstLine(line) == t.dump(MessageToJson(m, t)) && AfterLine(line) == ""
            && t.parse(FirstLine(line)) == Some(MessageToJson(m, t))
            && UpToNul(line) == line && t.parse(line) == Some(MessageToJson(m, t))
  {
    var body := t.dump(MessageToJson(m, t));
    FirstLineOf(body, "");
    assert body + "\n" + "" == Line(t, m);
    assert '\0' !in Line(t, m);
  }

  lemma FromStarting<S>(w: World<S>, s: System<S>, i: nat, k: Step, g: Garbage)
    requires Valid(w) && IsStarting(w, s, i) && Enabled(s, k)
    ensures IsCallSent(w, Do(w, s, k, g), i + 1)
  {
    assert k == ClientSends;
    assert s.toServer + Line(w.text, Call(w.call)) == Line(w.text, Call(w.call));
  }

  lemma FromCallSent<S>(w: World<S>, s: System<S>, i: nat, k: Step, g: Garbage)
    requires Valid(w) && IsCallSent(w, s, i) && Enabled(s, k)
    ensures var s' := Do(w, s, k, g);
            if Delivers(w.call, w.text) then IsNativeRuns(w, s', i + 1, 0) else IsServerGone(w, s', i + 1)
  {
    assert k == ServerReads;
    LineFacts(w.text, Call(w.call));
    CallArrives(w.call, FirstLine(s.toServer), g, w.text);
  }

  lemma FromNativeRuns<S>(w: World<S>, s: System<S>, i: nat, k: nat, step: Step, g: Garbage)
    requires Valid(w) && IsNativeRuns(w, s, i, k) && Enabled(s, step)
    ensures var s' := Do(w, s, step, g);
            match Move(w, k)
            case Return(_, _) => IsReplySent(w, s', i + 1, k, g(0))
            case Invoke(r) => IsEnvCallSent(w, s', i + 1, k, r, g(0))
  {
    assert step == ServerRuns;
    var text := ServerCompute(w.text, w.native, s.server, g(0)).1;
    assert s.fromServer + text == text;
  }

  /** A client that reads a whole message gets exactly what the factory makes of it. */
  lemma ClientGets<S>(w: World<S>, c: Client<S>, m: Message, g: Garbage)
    requires w.text.Sound() && c.pc.Reading? && Fits(w.text, m)
    ensures Chunk(Line(w.text, m), ReadLimit(c.pc.first)) == Line(w.text, m)
    ensures var r := MessageFromJson(MessageToJson(m, w.text), g, w.text);
            ClientReceive(w, c, Line(w.text, m), g) ==
            if r.Ok? then c.(pc := Handling(r.value)) else c.(pc := Left(r.failure))
  {
    LineFacts(w.text, m);
  }

  lemma RequestRoundTrips(r: Request, garbage: Raw, t: Text)
    ensures CallRoundTrips(RequestCall(r, garbage), t)
  {
  }

  lemma FromEnvCallSent<S>(w: World<S>, s: System<S>, i: nat, k: nat, r: Request, garbage: Raw, step: Step, g: Garbage)
    requires Valid(w) && IsEnvCallSent(w, s, i, k, r, garbage) && Enabled(s, step)
    ensures IsEnvCallRead(w, Do(w, s, step, g), i + 1, k, r, garbage)
  {
    assert step == ClientReads;
    var m := EnvCall(RequestCall(r, garbage));
    assert MoveFits(w, Move(w, k), garbage);
    ClientGets(w, s.client, m, g);
    RequestRoundTrips(r, garbage, w.text);
    MessageRoundTrip(m, g, w.text);
  }

  /** The wrapper answers a request that arrived as the JVM answers it directly. */
  lemma ServesArrivedCall<S>(w: World<S>, s: S, r: Request, garbage: Raw, call: CallRecord, g: Raw)
    requires SameCall(RequestCall(r, garbage), call)
    ensures var served := ServeEnvCall(w, s, call, g);
            if Supported(r) then
              var (s', n) := DirectReply(w.jvm, s, r);
              && served.Ok? && served.value.0 == s' && served.value.1 == r && Carries(served.value.2, r, n)
            else served == Err(UndefinedBehaviour)
  {
    assert SameValue(RequestCall(r, garbage).arguments[0], call.arguments[0]);
    assert |"FindClass"| == 9 && |"GetIntArrayElements"| == 19 && |"GetArrayLength"| == 14;
    match r {
      case FindClass(_) =>
      case GetIntArrayElements(a) => DecodeEight(JArray, a);
      case GetArrayLength(a) =>
        DecodeEight(JArray, a);
        DecodeEight(JArray, call.arguments[0].raw);
    }
  }

  lemma DirectAdvances<S>(w: World<S>, k: nat, r: Request)
    requires IsBasicCall(w.call) && Move(w, k) == Invoke(r) && Supported(r)
    ensures var d := Direct(w, k);
            var (s, n) := DirectReply(w.jvm, d.jvm, r);
            Direct(w, k + 1) == DirectState(s, d.history + [n], d.performed + [r])
  {
  }

  lemma FromEnvCallRead<S>(w: World<S>, s: System<S>, i: nat, k: nat, r: Request, garbage: Raw, step: Step, g: Garbage)
    returns (v: Value)
    requires Valid(w) && IsEnvCallRead(w, s, i, k, r, garbage) && Enabled(s, step)
    ensures var s' := Do(w, s, step, g);
            if Supported(r) then IsEnvReplySent(w, s', i + 1, k, r, v) else IsArrayAsked(w, s', i + 1, k)
  {
    assert step == ClientHandles;
    var call := s.client.pc.message.call;
    ServesArrivedCall(w, s.client.jvm, r, garbage, call, g(0));
    var s' := Do(w, s, step, g);
    if Supported(r) {
      DirectAdvances(w, k, r);
      v := ServeEnvCall(w, s.client.jvm, call, g(0)).value.2;
      assert s.toServer + Line(w.text, EnvReply(v)) == Line(w.text, EnvReply(v));
    } else {
      v := CString("");
    }
  }

  lemma ReplyArrives(v: Value, r: Request, n: int, w: Value, mapped: Raw)
    requires Carries(v, r, n) && SameValue(v, w)
    ensures ReplyView(r, w, mapped) == Ok(n)
  {
    match r {
      case FindClass(_) =>
        DecodeEight(JObject, v.raw);
        DecodeEight(JObject, w.raw);
      case GetArrayLength(_) =>
    }
  }

  /** The nested reader turns the reply line into the value that the native code would have got directly. */
  lemma NestedGets<S>(w: World<S>, pc: ServerPc, v: Value, n: int, g: Garbage)
    requires w.text.Sound() && pc.NestedRead? && Carries(v, pc.request, n)
    ensures ServerNested(w.text, pc, FirstLine(Line(w.text, EnvReply(v))), g) ==
            Computing(pc.views, pc.result, pc.history + [n])
  {
    LineFacts(w.text, EnvReply(v));
    FactoryDispatch(EnvReply(v), ResultToJson(v, w.text), g, w.text);
    ResultRoundTrip(v, g, w.text);
    ReplyArrives(v, pc.request, n, ResultFromJson(ResultToJson(v, w.text), g, w.text).value, g(1));
  }

  lemma FromEnvReplySent<S>(w: World<S>, s: System<S>, i: nat, k: nat, r: Request, v: Value, step: Step, g: Garbage)
    requires Valid(w) && IsEnvReplySent(w, s, i, k, r, v) && Enabled(s, step)
    ensures IsNativeRuns(w, Do(w, s, step, g), i + 1, k + 1)
  {
    assert step == ServerReadsReply;
    NestedGets(w, s.server, v, DirectReply(w.jvm, Direct(w, k).jvm, r).1, g);
    LineFacts(w.text, EnvReply(v));
    DirectAdvances(w, k, r);
  }

  /** The final reply reaches the client as a reply, whose value is the parsed one. */
  lemma ClientGetsReply<S>(w: World<S>, c: Client<S>, typ: BasicType, raw: Raw, g: Garbage)
    requires w.text.Sound() && c.pc.Reading? && Fits(w.text, Reply(Basic(typ, raw)))
    ensures var c' := ClientReceive(w, c, Line(w.text, Reply(Basic(typ, raw))), g);
            var cell := ParseBasic(typ, PrintBasic(typ, raw, w.text), g(0), w.text);
            if cell.Ok? then c' == c.(pc := Handling(Reply(Basic(typ, cell.value))))
            else c' == c.(pc := Left(cell.failure)) && cell.failure != UnknownMessage
  {
    var m := Reply(Basic(typ, raw));
    ClientGets(w, c, m, g);
    FactoryDispatch(m, ResultToJson(m.result, w.text), g, w.text);
    ResultRoundTrip(m.result, g, w.text);
    BuildBasic(typ, PrintBasic(typ, raw, w.text), g(0), w.text);
    ParseFailures(typ, PrintBasic(typ, raw, w.text), g(0), w.text);
  }

  lemma FromReplySent<S>(w: World<S>, s: System<S>, i: nat, k: nat, garbage: Raw, step: Step, g: Garbage)
    requires Valid(w) && IsReplySent(w, s, i, k, garbage) && Enabled(s, step)
    ensures var s' := Do(w, s, step, g);
            if s'.client.pc.Left? then IsUnreadable(w, s', i + 1, k, garbage, s'.client.pc.why)
            else IsReplyRead(w, s', i + 1, k, garbage, g(0))
  {
    assert step == ClientReads;
    var typ, raw := ResultType(w.call), SentCell(w, k, garbage);
    var m := ReplyMessage(w, Move(w, k).rax, Move(w, k).xmm0, garbage);
    assert MoveFits(w, Move(w, k), garbage);
    ClientGets(w, s.client, m, g);
    ClientGetsReply(w, s.client, typ, raw, g);
    TwoRounds(typ, raw, g(0), 0, w.text);
  }

  /** The client prints and parses the value once more, and hands over what it then is. */
  lemma ReplyPrints<S>(w: World<S>, c: Client<S>, typ: BasicType, raw: Raw, garbage: Raw)
    requires w.text.Sound()
    ensures var cell := ParseBasic(typ, PrintBasic(typ, raw, w.text), garbage, w.text);
            var c' := ClientReply(w, c, Basic(typ, raw), garbage);
            if cell.Ok? then
              c' == c.(pc := Finished(SignatureOf(typ), PrintBasic(typ, cell.value, w.text)), updates := c.updates + 1)
            else c' == c.(pc := Left(cell.failure)) && cell.failure != UnknownMessage
  {
    var json := ToJson(Basic(typ, raw), w.text);
    var cell := ParseBasic(typ, PrintBasic(typ, raw, w.text), garbage, w.text);
    assert w.text.parse(w.text.dump(json)) == Some(json);
    assert BuildFromJson(json, garbage, w.text) ==
           if cell.Ok? then Ok(Basic(typ, cell.value)) else Err(cell.failure) by {
      BuildBasic(typ, PrintBasic(typ, raw, w.text), garbage, w.text);
    }
    ParseFailures(typ, PrintBasic(typ, raw, w.text), garbage, w.text);
  }

  lemma FromReplyRead<S>(w: World<S>, s: System<S>, i: nat, k: nat, garbage: Raw, mixed: Raw, step: Step, g: Garbage)
    requires Valid(w) && IsReplyRead(w, s, i, k, garbage, mixed) && Enabled(s, step)
    ensures var s' := Do(w, s, step, g);
            if s'.client.pc.Left? then IsUnreadable(w, s', i + 1, k, garbage, s'.client.pc.why)
            else IsDone(w, s', i + 1, k, garbage)
  {
    assert step == ClientHandles;
    var typ, v := ResultType(w.call), s.client.pc.message.result;
    ReplyPrints(w, s.client, typ, v.raw, g(0));
    TwoRounds(typ, SentCell(w, k, garbage), mixed, g(0), w.text);
  }

  lemma FromServerGone<S>(w: World<S>, s: System<S>, i: nat, step: Step, g: Garbage)
    requires Valid(w) && IsServerGone(w, s, i) && Enabled(s, step)
    ensures IsAbandoned(w, Do(w, s, step, g), i + 1)
  {
    assert step == ClientSeesEof;
  }

  /** A finished call, and a client without an answer, are the ends of the conversation. */
  predicate IsFinal<S>(s: System<S>) {
    s.client.pc.Finished? || s.client.pc.Left?
  }

  predicate BeforeReply(p: Phase) {
    p.Starting? || p.CallSent? || p.NativeRuns? || p.EnvCallSent? || p.EnvCallRead?
  }

  lemma NextPhaseEarly<S>(w: World<S>, s: System<S>, i: nat, p: Phase, step: Step, g: Garbage) returns (p': Phase)
    requires Valid(w) && InPhase(w, s, i, p) && Enabled(s, step)
    requires p.Starting? || p.CallSent? || p.NativeRuns?
    ensures InPhase(w, Do(w, s, step, g), i + 1, p')
  {
    match p {
      case Starting =>
        FromStarting(w, s, i, step, g);
        p' := CallSent;
      case CallSent =>
        FromCallSent(w, s, i, step, g);
        p' := if Delivers(w.call, w.text) then NativeRuns(0) else ServerGone;
      case NativeRuns(k) =>
        FromNativeRuns(w, s, i, k, step, g);
        p' := if Move(w, k).Return? then ReplySent(k, g(0)) else EnvCallSent(k, Move(w, k).request, g(0));
    }
  }

  lemma NextPhaseMiddle<S>(w: World<S>, s: System<S>, i: nat, p: Phase, step: Step, g: Garbage) returns (p': Phase)
    requires Valid(w) && InPhase(w, s, i, p) && Enabled(s, step) && (p.EnvCallSent? || p.EnvCallRead?)
    ensures InPhase(w, Do(w, s, step, g), i + 1, p')
  {
    match p {
      case EnvCallSent(k, r, garbage) =>
        FromEnvCallSent(w, s, i, k, r, garbage, step, g);
        p' := EnvCallRead(k, r, garbage);
      case EnvCallRead(k, r, garbage) =>
        var v := FromEnvCallRead(w, s, i, k, r, garbage, step, g);
        p' := if Supported(r) then EnvReplySent(k, r, v) else ArrayAsked(k);
    }
  }

  lemma NextPhaseLate<S>(w: World<S>, s: System<S>, i: nat, p: Phase, step: Step, g: Garbage) returns (p': Phase)
    requires Valid(w) && InPhase(w, s, i, p) && Enabled(s, step)
    requires !BeforeReply(p) && !p.ReplySent? && !p.ReplyRead?
    ensures InPhase(w, Do(w, s, step, g), i + 1, p')
  {
    match p {
      case EnvReplySent(k, r, v) =>
        FromEnvReplySent(w, s, i, k, r, v, step, g);
        p' := NativeRuns(k + 1);
      case ServerGone =>
        FromServerGone(w, s, i, step, g);
        p' := Abandoned;
      case _ =>
        assert false;
    }
  }

  lemma NextPhaseReply<S>(w: World<S>, s: System<S>, i: nat, p: Phase, step: Step, g: Garbage) returns (p': Phase)
    requires Valid(w) && InPhase(w, s, i, p) && Enabled(s, step) && (p.ReplySent? || p.ReplyRead?)
    ensures InPhase(w, Do(w, s, step, g), i + 1, p')
  {
    var pc := Do(w, s, step, g).client.pc;
    if p.ReplySent? {
      FromReplySent(w, s, i, p.k, p.garbage, step, g);
      p' := if pc.Left? then Unreadable(p.k, p.garbage, pc.why) else ReplyRead(p.k, p.garbage, g(0));
    } else {
      FromReplyRead(w, s, i, p.k, p.garbage, p.mixed, step, g);
      p' := if pc.Left? then Unreadable(p.k, p.garbage, pc.why) else Done(p.k, p.garbage);
    }
  }

  /** The only enabled step leads into the next phase. */
  lemma NextPhase<S>(w: World<S>, s: System<S>, i: nat, p: Phase, step: Step, g: Garbage) returns (p': Phase)
    requires Valid(w) && InPhase(w, s, i, p) && Enabled(s, step)
    ensures InPhase(w, Do(w, s, step, g), i + 1, p')
  {
    if p.Starting? || p.CallSent? || p.NativeRuns? {
      p' := NextPhaseEarly(w, s, i, p, step, g);
    } else if p.EnvCallSent? || p.EnvCallRead? {
      p' := NextPhaseMiddle(w, s, i, p, step, g);
    } else if p.ReplySent? || p.ReplyRead? {
      p' := NextPhaseReply(w, s, i, p, step, g);
    } else {
      p' := NextPhaseLate(w, s, i, p, step, g);
    }
  }

  lemma StepAt<S>(w: World<S>, states: seq<System<S>>, i: nat) returns (step: Step, g: Garbage)
    requires IsExecution(w, states) && i + 1 < |states|
    ensures Enabled(states[i], step) && states[i + 1] == Do(w, states[i], step, g)
  {
    assert Next(w, states[i], states[i + 1]);
    step, g :| Enabled(states[i], step) && states[i + 1] == Do(w, states[i], step, g);
  }

  /** Every state of every execution is in one of the phases. */
  lemma {:induction false} PhaseOf<S>(w: World<S>, states: seq<System<S>>, i: nat) returns (p: Phase)
    requires Valid(w) && IsExecution(w, states) && i < |states|
    ensures InPhase(w, states[i], i, p)
  {
    if i == 0 {
      p := Starting;
    } else {
      var before := PhaseOf(w, states, i - 1);
      p := PhaseAfter(w, states, i - 1, before);
    }
  }

  lemma PhaseAfter<S>(w: World<S>, states: seq<System<S>>, i: nat, p: Phase) returns (p': Phase)
    requires Valid(w) && IsExecution(w, states) && i + 1 < |states| && InPhase(w, states[i], i, p)
    ensures InPhase(w, states[i + 1], i + 1, p')
  {
    var step, g := StepAt(w, states, i);
    p' := NextPhase(w, states[i], i, p, step, g);
  }

  // Main results

  /** The native code returns or asks for array elements: the direct run goes no further. */
  predicate StopsAt<S>(w: World<S>, n: nat)
    requires IsBasicCall(w.call)
  {
    Move(w, n).Return? || AsksForArray(w, n)
  }

  lemma {:induction false} DirectStops<S>(w: World<S>, n: nat, k: nat)
    requires IsBasicCall(w.call) && StopsAt(w, n) && n <= k
    ensures Direct(w, k) == Direct(w, n)
    decreases k
  {
    if n < k {
      DirectStops(w, n, k - 1);
    }
  }

  lemma {:induction false} LengthAtMost<S>(w: World<S>, k: nat)
    requires IsBasicCall(w.call)
    ensures |Direct(w, k).performed| <= k
  {
    if k > 0 {
      LengthAtMost(w, k - 1);
    }
  }

  /** In step with the direct run, the number of env calls never passes the point where that run stops. */
  lemma InStepIsBounded<S>(w: World<S>, n: nat, k: nat)
    requires IsBasicCall(w.call) && StopsAt(w, n) && |Direct(w, k).performed| == k
    ensures k <= n
  {
    if k > n {
      DirectStops(w, n, k);
      LengthAtMost(w, n);
    }
  }

  /** The native code returns after exactly n env calls, all of them supported. */
  predicate ReturnsAfter<S>(w: World<S>, n: nat)
    requires IsBasicCall(w.call)
  {
    Move(w, n).Return? && forall k :: 0 <= k < n ==> !StopsAt(w, k)
  }

  lemma InStepReturns<S>(w: World<S>, k: nat)
    requires IsBasicCall(w.call) && Move(w, k).Return? && |Direct(w, k).performed| == k
    ensures ReturnsAfter(w, k)
  {
    StopsFirst(w, k);
  }

  lemma ReturnsOnce<S>(w: World<S>, n: nat, k: nat)
    requires IsBasicCall(w.call) && ReturnsAfter(w, n) && StopsAt(w, k) && |Direct(w, k).performed| == k
    ensures k == n
  {
    InStepIsBounded(w, n, k);
  }

  /** What the native code returned, before the loader collects it. */
  function DirectResult<S>(w: World<S>, k: nat): Raw
    requires IsBasicCall(w.call) && Move(w, k).Return?
  {
    if IsReal(ResultType(w.call)) then Move(w, k).xmm0 else Move(w, k).rax
  }

  /** For every type but DOUBLE, the sent cell holds the returned value, whatever surrounds it. */
  lemma SentIsReturned<S>(w: World<S>, k: nat, garbage: Raw)
    requires IsBasicCall(w.call) && Move(w, k).Return? && !ResultType(w.call).Double?
    ensures var typ := ResultType(w.call);
            var sent := SentCell(w, k, garbage);
            && Arrives(typ, sent, w.text) == Arrives(typ, DirectResult(w, k), w.text)
            && (Arrives(typ, sent, w.text) ==>
                  ArrivedText(typ, sent, w.text) == ArrivedText(typ, DirectResult(w, k), w.text))
  {
    var typ, move := ResultType(w.call), Move(w, k);
    CollectReturnKeeps(typ, move.rax, move.xmm0, garbage);
    ArrivesByDecode(typ, SentCell(w, k, garbage), DirectResult(w, k), w.text);
  }

  /** updateJniReturn was called with the value of this cell, after its two rounds of printing and parsing. */
  predicate HandsOver<S>(w: World<S>, pc: ClientPc, raw: Raw)
    requires IsBasicCall(w.call)
  {
    && Arrives(ResultType(w.call), raw, w.text)
    && pc == Finished(SignatureOf(ResultType(w.call)), ArrivedText(ResultType(w.call), raw, w.text))
  }

  /**
   Remoting transparency. When the client has its result, the JVM has performed
   the same env calls in the same order as in the direct run and is in the same
   state, the native code of the direct run has returned there, and updateJniReturn
   got the direct result, up to the rounding of its printed decimals; of a DOUBLE it
   got what the loader had collected.
   */
  lemma Transparency<S>(w: World<S>, states: seq<System<S>>, i: nat)
    requires Valid(w) && IsExecution(w, states) && i < |states| && states[i].client.pc.Finished?
    ensures var c := states[i].client;
            var k := |c.performed|;
            && Delivers(w.call, w.text) && ReturnsAfter(w, k) && i == 5 + 4 * k
            && c.jvm == Direct(w, k).jvm && c.performed == Direct(w, k).performed
            && c.updates == 1
            && (!ResultType(w.call).Double? ==> HandsOver(w, c.pc, DirectResult(w, k)))
            && exists garbage :: HandsOver(w, c.pc, SentCell(w, k, garbage))
  {
    var p := PhaseOf(w, states, i);
    assert p.Done?;
    InStepReturns(w, p.k);
    assert HandsOver(w, states[i].client.pc, SentCell(w, p.k, p.garbage));
    if !ResultType(w.call).Double? {
      SentIsReturned(w, p.k, p.garbage);
    }
  }

  /** The server runs the native function on the call's own views, with the replies of the direct run. */
  predicate FollowsDirectRun<S>(w: World<S>, pc: ServerPc)
    requires IsBasicCall(w.call)
  {
    pc.Computing? || pc.NestedRead? ==>
      && Delivers(w.call, w.text)
      && pc.views == Views(w.call, w.text) && pc.result == ResultType(w.call)
      && pc.history == Direct(w, |pc.history|).history
      && (pc.NestedRead? ==> Move(w, |pc.history|) == Invoke(pc.request))
  }

  lemma FollowsInPhase<S>(w: World<S>, s: System<S>, i: nat, p: Phase)
    requires IsBasicCall(w.call) && InPhase(w, s, i, p)
    ensures FollowsDirectRun(w, s.server)
  {
    if BeforeReply(p) {
      FollowsEarly(w, s, i, p);
    } else {
      FollowsLate(w, s, i, p);
    }
  }

  lemma FollowsEarly<S>(w: World<S>, s: System<S>, i: nat, p: Phase)
    requires IsBasicCall(w.call) && InPhase(w, s, i, p) && BeforeReply(p)
    ensures FollowsDirectRun(w, s.server)
  {
  }

  lemma FollowsLate<S>(w: World<S>, s: System<S>, i: nat, p: Phase)
    requires IsBasicCall(w.call) && InPhase(w, s, i, p) && !BeforeReply(p)
    ensures FollowsDirectRun(w, s.server)
  {
    match p {
      case EnvReplySent(k, r, v) => FollowsEnvReply(w, s, i, k, r, v);
      case ArrayAsked(k) => FollowsArray(w, s, i, k);
      case _ =>
    }
  }

  lemma FollowsEnvReply<S>(w: World<S>, s: System<S>, i: nat, k: nat, r: Request, v: Value)
    requires IsBasicCall(w.call) && IsEnvReplySent(w, s, i, k, r, v)
    ensures FollowsDirectRun(w, s.server)
  {
    DirectAdvances(w, k, r);
    assert |Direct(w, k).history| == k;
  }

  lemma FollowsArray<S>(w: World<S>, s: System<S>, i: nat, k: nat)
    requires IsBasicCall(w.call) && IsArrayAsked(w, s, i, k)
    ensures FollowsDirectRun(w, s.server)
  {
    assert |Direct(w, k).history| == k;
  }

  lemma StartsInPhase<S>(w: World<S>, s: System<S>, p: Phase)
    requires IsBasicCall(w.call) && InPhase(w, s, 2, p) && Delivers(w.call, w.text)
    ensures s.server.Computing?
  {
  }

  /**
   In every reachable state the native code has been given the parameters and the
   replies of the direct run; it is started by the second step.
   */
  lemma SameReplies<S>(w: World<S>, states: seq<System<S>>, i: nat)
    requires Valid(w) && IsExecution(w, states) && i < |states|
    ensures FollowsDirectRun(w, states[i].server)
    ensures i == 2 && Delivers(w.call, w.text) ==> states[i].server.Computing?
  {
    var p := PhaseOf(w, states, i);
    FollowsInPhase(w, states[i], i, p);
    if i == 2 && Delivers(w.call, w.text) {
      StartsInPhase(w, states[i], p);
    }
  }

  /** The native code returns a value that arrives, whatever garbage the loader collects with it. */
  ghost predicate MustAnswer<S>(w: World<S>, n: nat)
    requires IsBasicCall(w.call)
  {
    ReturnsAfter(w, n) && forall garbage: Raw :: Arrives(ResultType(w.call), SentCell(w, n, garbage), w.text)
  }

  ghost predicate MayAnswer<S>(w: World<S>, n: nat)
    requires IsBasicCall(w.call)
  {
    ReturnsAfter(w, n) && exists garbage: Raw :: Arrives(ResultType(w.call), SentCell(w, n, garbage), w.text)
  }

  /** The native code of the direct run returns a value that arrives. */
  predicate Answers<S>(w: World<S>, n: nat)
    requires IsBasicCall(w.call)
  {
    ReturnsAfter(w, n) && Arrives(ResultType(w.call), DirectResult(w, n), w.text)
  }

  /** The garbage matters to a DOUBLE only. */
  lemma AnswersAlways<S>(w: World<S>, n: nat)
    requires IsBasicCall(w.call) && !ResultType(w.call).Double?
    ensures (Answers(w, n) <==> MustAnswer(w, n)) && (Answers(w, n) <==> MayAnswer(w, n))
  {
    if ReturnsAfter(w, n) {
      forall garbage: Raw
        ensures Arrives(ResultType(w.call), SentCell(w, n, garbage), w.text) ==
                Arrives(ResultType(w.call), DirectResult(w, n), w.text)
      {
        SentIsReturned(w, n, garbage);
      }
      var arrives := Arrives(ResultType(w.call), SentCell(w, n, 0), w.text);
    }
  }

  lemma FinalInPhase<S>(w: World<S>, s: System<S>, i: nat, p: Phase)
    requires IsBasicCall(w.call) && InPhase(w, s, i, p) && IsFinal(s)
    ensures p.Done? || p.Abandoned? || p.ArrayAsked? || p.Unreadable?
    ensures s.client.pc.Finished? <==> p.Done?
  {
  }

  /**
   A conversation that has ended has ended with an answer exactly when the call can be
   delivered and the direct run returns a value that arrives. (For a DOUBLE:
   if it must, and only if it may.)
   */
  lemma AnswersIff<S>(w: World<S>, states: seq<System<S>>)
    requires Valid(w) && IsExecution(w, states) && IsFinal(states[|states| - 1])
    ensures var finished := states[|states| - 1].client.pc.Finished?;
            && (!ResultType(w.call).Double? ==> (finished <==> Delivers(w.call, w.text) && exists n :: Answers(w, n)))
            && (finished ==> Delivers(w.call, w.text) && exists n :: MayAnswer(w, n))
            && (Delivers(w.call, w.text) && (exists n :: MustAnswer(w, n)) ==> finished)
  {
    var s := states[|states| - 1];
    var p := PhaseOf(w, states, |states| - 1);
    FinalInPhase(w, s, |states| - 1, p);
    if p.Done? {
      InStepReturns(w, p.k);
      assert Arrives(ResultType(w.call), SentCell(w, p.k, p.garbage), w.text);
      assert MayAnswer(w, p.k);
      if !ResultType(w.call).Double? {
        AnswersAlways(w, p.k);
      }
    } else if Delivers(w.call, w.text) {
      forall n: nat
        ensures !MustAnswer(w, n)
      {
        NoAnswerHere(w, s, |states| - 1, p, n);
      }
      if !ResultType(w.call).Double? {
        forall n: nat
          ensures !Answers(w, n)
        {
          AnswersAlways(w, n);
        }
      }
    }
  }

  /** Exactly as far as the direct run goes: to where the native code first stops, or nowhere if it is not started. */
  predicate GoesAsFar<S>(w: World<S>, k: nat)
    requires IsBasicCall(w.call)
  {
    if Delivers(w.call, w.text) then StopsAt(w, k) && forall j :: 0 <= j < k ==> !StopsAt(w, j) else k == 0
  }

  /**
   However a conversation has ended, with an answer or without, it has left the JVM as
   the direct run leaves it, after the same env calls.
   */
  lemma EndsLikeDirectRun<S>(w: World<S>, states: seq<System<S>>)
    requires Valid(w) && IsExecution(w, states) && IsFinal(states[|states| - 1])
    ensures var c := states[|states| - 1].client;
            var k := |c.performed|;
            GoesAsFar(w, k) && c.jvm == Direct(w, k).jvm && c.performed == Direct(w, k).performed
  {
    var s := states[|states| - 1];
    var p := PhaseOf(w, states, |states| - 1);
    FinalInPhase(w, s, |states| - 1, p);
    EndInPhase(w, s, |states| - 1, p);
  }

  lemma EndInPhase<S>(w: World<S>, s: System<S>, i: nat, p: Phase)
    requires IsBasicCall(w.call) && InPhase(w, s, i, p)
    requires p.Done? || p.Abandoned? || p.ArrayAsked? || p.Unreadable?
    ensures var k := |s.client.performed|;
            GoesAsFar(w, k) && s.client.jvm == Direct(w, k).jvm && s.client.performed == Direct(w, k).performed
  {
    if !p.Abandoned? {
      StopsFirst(w, p.k);
    }
  }

  lemma StopsFirst<S>(w: World<S>, k: nat)
    requires IsBasicCall(w.call) && |Direct(w, k).performed| == k
    ensures forall j :: 0 <= j < k ==> !StopsAt(w, j)
  {
    forall j | 0 <= j < k
      ensures !StopsAt(w, j)
    {
      if StopsAt(w, j) {
        InStepIsBounded(w, j, k);
      }
    }
  }

  /** A call whose value must arrive cannot end in any other way. */
  lemma NoAnswerHere<S>(w: World<S>, s: System<S>, i: nat, p: Phase, n: nat)
    requires IsBasicCall(w.call) && InPhase(w, s, i, p) && Delivers(w.call, w.text)
    requires p.Abandoned? || p.ArrayAsked? || p.Unreadable?
    ensures !MustAnswer(w, n)
  {
    if MustAnswer(w, n) && !p.Abandoned? {
      ReturnsOnce(w, n, p.k);
    }
  }

  /** The number of steps so far tells how far the conversation is. */
  lemma PhaseIsEarly<S>(w: World<S>, s: System<S>, i: nat, p: Phase, n: nat)
    requires IsBasicCall(w.call) && InPhase(w, s, i, p) && StopsAt(w, n)
    ensures i <= 5 + 4 * n
  {
    if !p.Starting? && !p.CallSent? && !p.ServerGone? && !p.Abandoned? {
      var k := StepsInPhase(w, s, i, p);
      InStepIsBounded(w, n, k);
    }
  }

  /** The env calls that the JVM has performed, and the steps since the last of them. */
  lemma StepsInPhase<S>(w: World<S>, s: System<S>, i: nat, p: Phase) returns (k: nat)
    requires IsBasicCall(w.call) && InPhase(w, s, i, p)
    requires !p.Starting? && !p.CallSent? && !p.ServerGone? && !p.Abandoned?
    ensures |Direct(w, k).performed| == k && i <= 5 + 4 * k
  {
    if BeforeReply(p) {
      k := p.k;
      EarlySteps(w, s, i, p);
    } else {
      k := if p.EnvReplySent? then p.k + 1 else p.k;
      LateSteps(w, s, i, p, k);
    }
  }

  lemma EarlySteps<S>(w: World<S>, s: System<S>, i: nat, p: Phase)
    requires IsBasicCall(w.call) && InPhase(w, s, i, p) && (p.NativeRuns? || p.EnvCallSent? || p.EnvCallRead?)
    ensures |Direct(w, p.k).performed| == p.k && i <= 5 + 4 * p.k
  {
  }

  lemma LateSteps<S>(w: World<S>, s: System<S>, i: nat, p: Phase, k: nat)
    requires IsBasicCall(w.call) && InPhase(w, s, i, p) && !BeforeReply(p) && !p.ServerGone? && !p.Abandoned?
    requires k == if p.EnvReplySent? then p.k + 1 else p.k
    ensures |Direct(w, k).performed| == k && i <= 5 + 4 * k
  {
  }

  lemma NotDelivered<S>(w: World<S>, s: System<S>, i: nat, p: Phase)
    requires IsBasicCall(w.call) && InPhase(w, s, i, p) && !Delivers(w.call, w.text)
    ensures i <= 3
  {
  }

  /**
   Termination. If the native code stops after n env calls, by returning or by asking
   for array elements, no execution has more than 5 + 4n steps, and if the call cannot
   be delivered, none has more than 3. (After a request for array elements the client
   reads outside a vector; the execution ends there, and nothing is said of the process.)
   */
  lemma Terminates<S>(w: World<S>, states: seq<System<S>>, n: nat)
    requires Valid(w) && IsExecution(w, states)
    ensures StopsAt(w, n) ==> |states| <= 6 + 4 * n
    ensures !Delivers(w.call, w.text) ==> |states| <= 4
  {
    var i := |states| - 1;
    var p := PhaseOf(w, states, i);
    if StopsAt(w, n) {
      PhaseIsEarly(w, states[i], i, p, n);
    }
    if !Delivers(w.call, w.text) {
      NotDelivered(w, states[i], i, p);
    }
  }

  /** A pipe that holds exactly one message. */
  ghost predicate OneLine(pipe: string) {
    HasLine(pipe) && AfterLine(pipe) == ""
  }

  /** What the pipe to the server holds: nothing, or the message that its blocked reader waits for. */
  ghost predicate ToServerAsExpected<S>(w: World<S>, s: System<S>) {
    s.toServer != "" ==>
      && s.client.pc.Reading? && s.fromServer == "" && OneLine(s.toServer)
      && (|| (s.server.MainRead? && s.toServer == Line(w.text, Call(w.call)))
          || (s.server.NestedRead? && exists v: Value :: s.toServer == Line(w.text, EnvReply(v))))
  }

  /** What the pipe from the server holds: nothing, the env call it waits on, or the reply. */
  ghost predicate FromServerAsExpected<S>(w: World<S>, s: System<S>)
    requires IsBasicCall(w.call)
  {
    s.fromServer != "" ==>
      && s.client.pc.Reading? && s.toServer == "" && OneLine(s.fromServer)
      && (|| (s.server.NestedRead? &&
              exists garbage: Raw :: s.fromServer == Line(w.text, EnvCall(RequestCall(s.server.request, garbage))))
          || (s.server.MainRead? &&
              exists raw: Raw :: s.fromServer == Line(w.text, Reply(Basic(ResultType(w.call), raw)))))
  }

  lemma ToServerInPhase<S>(w: World<S>, s: System<S>, i: nat, p: Phase)
    requires Valid(w) && InPhase(w, s, i, p)
    ensures ToServerAsExpected(w, s)
  {
    match p {
      case CallSent => LineFacts(w.text, Call(w.call));
      case EnvReplySent(k, r, v) => LineFacts(w.text, EnvReply(v));
      case _ =>
    }
  }

  lemma FromServerInPhase<S>(w: World<S>, s: System<S>, i: nat, p: Phase)
    requires Valid(w) && InPhase(w, s, i, p)
    ensures FromServerAsExpected(w, s)
  {
    match p {
      case EnvCallSent(k, r, garbage) => LineFacts(w.text, EnvCall(RequestCall(r, garbage)));
      case ReplySent(k, garbage) => LineFacts(w.text, ReplyMessage(w, Move(w, k).rax, Move(w, k).xmm0, garbage));
      case _ =>
    }
  }

  /** The one step that a phase allows. */
  function StepOf(p: Phase): Step {
    match p
    case Starting => ClientSends
    case CallSent => ServerReads
    case NativeRuns(_) => ServerRuns
    case EnvCallSent(_, _, _) => ClientReads
    case EnvCallRead(_, _, _) => ClientHandles
    case EnvReplySent(_, _, _) => ServerReadsReply
    case ReplySent(_, _) => ClientReads
    case ReplyRead(_, _, _) => ClientHandles
    case _ => ClientSeesEof
  }

  predicate OnlyStep<S>(s: System<S>, step: Step) {
    forall a :: Enabled(s, a) <==> a == step && !IsFinal(s)
  }

  lemma OneStepEnabled<S>(w: World<S>, s: System<S>, i: nat, p: Phase)
    requires Valid(w) && InPhase(w, s, i, p)
    ensures OnlyStep(s, StepOf(p))
  {
    if BeforeReply(p) {
      OneStepEarly(w, s, i, p);
    } else {
      OneStepLate(w, s, i, p);
    }
  }

  lemma OneStepEarly<S>(w: World<S>, s: System<S>, i: nat, p: Phase)
    requires Valid(w) && InPhase(w, s, i, p) && BeforeReply(p)
    ensures OnlyStep(s, StepOf(p))
  {
    ToServerInPhase(w, s, i, p);
  }

  lemma OneStepLate<S>(w: World<S>, s: System<S>, i: nat, p: Phase)
    requires Valid(w) && InPhase(w, s, i, p) && !BeforeReply(p)
    ensures OnlyStep(s, StepOf(p))
  {
    ToServerInPhase(w, s, i, p);
  }

  /**
   Lock-step. In every reachable state at most one message is under way, in one
   direction; who is blocked where decides its direction and kind; at most one
   step is possible.
   */
  lemma LockStep<S>(w: World<S>, states: seq<System<S>>, i: nat)
    requires Valid(w) && IsExecution(w, states) && i < |states|
    ensures ToServerAsExpected(w, states[i])
    ensures FromServerAsExpected(w, states[i])
    ensures forall a, b :: Enabled(states[i], a) && Enabled(states[i], b) ==> a == b
  {
    var p := PhaseOf(w, states, i);
    ToServerInPhase(w, states[i], i, p);
    FromServerInPhase(w, states[i], i, p);
    OneStepEnabled(w, states[i], i, p);
  }

  /** A state has a successor exactly when the client neither has its result nor has given up. */
  lemma Progress<S>(w: World<S>, states: seq<System<S>>, i: nat)
    requires Valid(w) && IsExecution(w, states) && i < |states|
    ensures !IsFinal(states[i]) <==> exists s' :: Next(w, states[i], s')
  {
    var p := PhaseOf(w, states, i);
    OneStepEnabled(w, states[i], i, p);
    if !IsFinal(states[i]) {
      var g: Garbage := _ => 0;
      assert Next(w, states[i], Do(w, states[i], StepOf(p), g));
    }
  }

  /** Every execution of a call that stops, or that the server refuses, can be continued until the client is done. */
  lemma {:induction false} Completes<S>(w: World<S>, states: seq<System<S>>, n: nat) returns (longer: seq<System<S>>)
    requires Valid(w) && IsExecution(w, states) && (StopsAt(w, n) || !Delivers(w.call, w.text))
    ensures IsExecution(w, longer) && states <= longer && IsFinal(longer[|longer| - 1])
    decreases 6 + 4 * n - |states|
  {
    if IsFinal(states[|states| - 1]) {
      longer := states;
    } else {
      var more := GoesOn(w, states);
      Terminates(w, more, n);
      longer := Completes(w, more, n);
    }
  }

  lemma GoesOn<S>(w: World<S>, states: seq<System<S>>) returns (more: seq<System<S>>)
    requires Valid(w) && IsExecution(w, states) && !IsFinal(states[|states| - 1])
    ensures IsExecution(w, more) && states <= more && |more| == |states| + 1
  {
    Progress(w, states, |states| - 1);
    var s' :| Next(w, states[|states| - 1], s');
    OneMoreState(w, states, s');
    more := states + [s'];
  }

  lemma OneMoreState<S>(w: World<S>, states: seq<System<S>>, s': System<S>)
    requires IsExecution(w, states) && Next(w, states[|states| - 1], s')
    ensures IsExecution(w, states + [s'])
  {
    var more := states + [s'];
    forall i | 0 <= i < |more| - 1
      ensures Next(w, more[i], more[i + 1])
    {
      if i < |states| - 1 {
        assert Next(w, states[i], states[i + 1]);
      }
    }
  }

  /** A call that returns after n env calls answers in its step 5 + 4n, if it answers, and in that step if it must. */
  lemma AnswersInStep<S>(w: World<S>, states: seq<System<S>>, n: nat)
    requires Valid(w) && IsExecution(w, states) && ReturnsAfter(w, n)
    ensures states[|states| - 1].client.pc.Finished? ==> |states| == 6 + 4 * n
    ensures Delivers(w.call, w.text) && MustAnswer(w, n) && |states| == 6 + 4 * n ==>
              states[|states| - 1].client.pc.Finished?
  {
    var s := states[|states| - 1];
    if s.client.pc.Finished? {
      var p := PhaseOf(w, states, |states| - 1);
      FinalInPhase(w, s, |states| - 1, p);
      ReturnsOnce(w, n, p.k);
    } else if Delivers(w.call, w.text) && MustAnswer(w, n) && |states| == 6 + 4 * n {
      NoMoreSteps(w, states, n);
      AnswersIff(w, states);
    }
  }

  /** An execution of the greatest length has come to its end. */
  lemma NoMoreSteps<S>(w: World<S>, states: seq<System<S>>, n: nat)
    requires Valid(w) && IsExecution(w, states) && StopsAt(w, n) && |states| == 6 + 4 * n
    ensures IsFinal(states[|states| - 1])
  {
    Progress(w, states, |states| - 1);
    if !IsFinal(states[|states| - 1]) {
      var s' :| Next(w, states[|states| - 1], s');
      OneMoreState(w, states, s');
      Terminates(w, states + [s'], n);
    }
  }

  /** A call whose value must arrive has an execution that ends with the result. */
  lemma AnAnswerExists<S>(w: World<S>, n: nat) returns (states: seq<System<S>>)
    requires Valid(w) && Delivers(w.call, w.text) && MustAnswer(w, n)
    ensures IsExecution(w, states) && |states| == 6 + 4 * n && states[5 + 4 * n].client.pc.Finished?
  {
    states := Completes(w, [Init(w)], n);
    AnswersIff(w, states);
    AnswersInStep(w, states, n);
  }

  /** If the call can be delivered and the native code never stops, neither does the conversation. */
  lemma NeverEnds<S>(w: World<S>, states: seq<System<S>>)
    requires Valid(w) && IsExecution(w, states) && Delivers(w.call, w.text) && forall n :: !StopsAt(w, n)
    ensures !IsFinal(states[|states| - 1])
  {
    var i := |states| - 1;
    var p := PhaseOf(w, states, i);
    if IsFinal(states[i]) {
      FinalInPhase(w, states[i], i, p);
      assert StopsAt(w, p.k);
    }
  }

  /** Who handles what while who is blocked where. */
  predicate RightRoles<S>(s: System<S>) {
    && (s.client.pc.Handling? ==>
          && s.toServer == ""
          && (|| (s.client.pc.message.Reply? && s.server.MainRead?)
              || (s.client.pc.message.EnvCall? && s.server.NestedRead?)))
    && (s.server.Computing? ==> s.toServer == "")
    && (s.client.pc.Left? ==> s.client.pc.why != UnknownMessage)
    && (s.server.Ended? ==> s.server.why in {BadCast, TooManyReals, TooManyWords})
  }

  lemma RolesInPhase<S>(w: World<S>, s: System<S>, i: nat, p: Phase)
    requires Valid(w) && InPhase(w, s, i, p)
    ensures RightRoles(s)
  {
  }

  /**
   Dispatch safety. Although the message classes overlap by subclassing, the main
   loop only ever reads a JniCall, the nested reader only env replies, and the
   client handles an env call while the server waits for it, or the final reply;
   no one meets a message that it does not know. Only a call with an argument that
   does not parse is not understood.
   */
  lemma DispatchSafety<S>(w: World<S>, states: seq<System<S>>, i: nat, g: Garbage)
    requires Valid(w) && IsExecution(w, states) && i < |states|
    ensures var s := states[i];
            HasLine(s.toServer) ==>
              var m := ParseLine(w.text, FirstLine(s.toServer), g);
              if m.Ok? then (s.server.MainRead? && m.value.Call?) || (s.server.NestedRead? && m.value.EnvReply?)
              else s.server.MainRead? && m.failure == BadCast && !Readable(w.call, w.text)
    ensures RightRoles(states[i])
  {
    var p := PhaseOf(w, states, i);
    RolesInPhase(w, states[i], i, p);
    match p {
      case CallSent =>
        LineFacts(w.text, Call(w.call));
        CallArrives(w.call, FirstLine(states[i].toServer), g, w.text);
      case EnvReplySent(k, r, v) => LineParses(w.text, EnvReply(v), g);
      case _ =>
    }
  }

  lemma LineParses(t: Text, m: Message, g: Garbage)
    requires t.Sound() && MessageRoundTrips(m, t)
    ensures var r := ParseLine(t, FirstLine(Line(t, m)), g);
            r.Ok? && SameKind(m, r.value)
  {
    LineFacts(t, m);
    MessageRoundTrip(m, g, t);
  }

  // Two readers of one stream

  /** What the j-th line to the server is, in every run. */
  ghost predicate IsLineFor<S>(w: World<S>, j: nat, text: string) {
    if j == 0 then text == Line(w.text, Call(w.call)) else exists v: Value :: text == Line(w.text, EnvReply(v))
  }

  ghost predicate ReadOnce<S>(w: World<S>, s: System<S>) {
    var n := |s.consumed|;
    && |s.written| == n + (if s.toServer == "" then 0 else 1)
    && (s.toServer != "" ==> s.toServer == s.written[n])
    && (s.server.MainRead? && s.toServer != "" ==> n == 0)
    && (s.server.NestedRead? || s.server.Computing? ==> n > 0)
    && (s.client.pc.Start? <==> s.written == [])
    && (forall j :: 0 <= j < |s.written| ==> IsLineFor(w, j, s.written[j]))
    && ConsumedInOrder(s.written, s.consumed)
  }

  /** Every consumed line is the written one of the same number, and the right reader took it. */
  predicate ConsumedInOrder(written: seq<string>, consumed: seq<(Reader, string)>) {
    && |consumed| <= |written|
    && forall j :: 0 <= j < |consumed| ==>
         ConsumedBy(consumed[j], if j == 0 then MainLoop else NestedInvoke, written[j])
  }

  predicate ConsumedBy(entry: (Reader, string), reader: Reader, line: string) {
    entry.0 == reader && line == entry.1 + "\n"
  }

  lemma ConsumeOne(written: seq<string>, consumed: seq<(Reader, string)>, entry: (Reader, string))
    requires ConsumedInOrder(written, consumed) && |consumed| < |written|
    requires ConsumedBy(entry, if consumed == [] then MainLoop else NestedInvoke, written[|consumed|])
    ensures ConsumedInOrder(written, consumed + [entry])
  {
  }

  /**
   Over every run, each line written to the server is consumed exactly once and
   in order: the first, a JniCall, by the main loop, and the others, env replies,
   by the nested invoke.
   */
  lemma {:induction false} TwoReaders<S>(w: World<S>, states: seq<System<S>>, i: nat)
    requires Valid(w) && IsExecution(w, states) && i < |states|
    ensures ReadOnce(w, states[i])
  {
    if i == 0 {
      NothingRead(w);
    } else {
      TwoReaders(w, states, i - 1);
      ReadOnceAfter(w, states, i - 1);
    }
  }

  lemma NothingRead<S>(w: World<S>)
    ensures ReadOnce(w, Init(w))
  {
  }

  lemma ReadOnceAfter<S>(w: World<S>, states: seq<System<S>>, i: nat)
    requires Valid(w) && IsExecution(w, states) && i + 1 < |states| && ReadOnce(w, states[i])
    ensures ReadOnce(w, states[i + 1])
  {
    OrderlyAt(w, states, i);
    var step, g := StepAt(w, states, i);
    ReadOnceStep(w, states[i], step, g);
  }

  /** What the reading of lines needs to know of a state. */
  ghost predicate Orderly<S>(w: World<S>, s: System<S>) {
    && RightRoles(s)
    && (HasLine(s.toServer) ==> s.toServer == FirstLine(s.toServer) + "\n" && AfterLine(s.toServer) == "")
    && (s.client.pc.Start? ==> s == Init(w))
  }

  lemma OrderlyAt<S>(w: World<S>, states: seq<System<S>>, i: nat)
    requires Valid(w) && IsExecution(w, states) && i < |states|
    ensures Orderly(w, states[i])
  {
    var p := PhaseOf(w, states, i);
    RolesInPhase(w, states[i], i, p);
    LineIsRead(w, states[i], i, p);
  }

  lemma ReadOnceStep<S>(w: World<S>, s: System<S>, step: Step, g: Garbage)
    requires ReadOnce(w, s) && Orderly(w, s) && Enabled(s, step)
    ensures ReadOnce(w, Do(w, s, step, g))
  {
    if step == ServerReads || step == ServerReadsReply {
      ReadKeepsLog(w, s, step, g);
    } else if step == ClientHandles {
      AnswerKeepsLog(w, s, g);
    } else if step == ClientSends {
      CallKeepsLog(w, g);
    } else {
      QuietKeepsLog(w, s, step, g);
    }
  }

  lemma QuietKeepsLog<S>(w: World<S>, s: System<S>, step: Step, g: Garbage)
    requires ReadOnce(w, s) && RightRoles(s) && Enabled(s, step)
    requires step == ClientReads || step == ClientSeesEof || step == ServerRuns
    ensures ReadOnce(w, Do(w, s, step, g))
  {
  }

  lemma ReadKeepsLog<S>(w: World<S>, s: System<S>, step: Step, g: Garbage)
    requires ReadOnce(w, s) && Enabled(s, step) && (step == ServerReads || step == ServerReadsReply)
    requires s.toServer == FirstLine(s.toServer) + "\n" && AfterLine(s.toServer) == ""
    ensures ReadOnce(w, Do(w, s, step, g))
  {
    var reader := if step == ServerReads then MainLoop else NestedInvoke;
    ConsumeOne(s.written, s.consumed, (reader, FirstLine(s.toServer)));
  }

  lemma AnswerKeepsLog<S>(w: World<S>, s: System<S>, g: Garbage)
    requires ReadOnce(w, s) && RightRoles(s) && s.client.pc.Handling?
    ensures ReadOnce(w, Do(w, s, ClientHandles, g))
  {
    var (c, text) := ClientHandle(w, s.client, g);
    if text != "" {
      assert s.toServer + text == text;
      assert IsLineFor(w, |s.written|, text);
    }
  }

  lemma CallKeepsLog<S>(w: World<S>, g: Garbage)
    ensures ReadOnce(w, Do(w, Init(w), ClientSends, g))
  {
    assert "" + Line(w.text, Call(w.call)) == Line(w.text, Call(w.call));
  }

  lemma LineIsRead<S>(w: World<S>, s: System<S>, i: nat, p: Phase)
    requires Valid(w) && InPhase(w, s, i, p)
    ensures HasLine(s.toServer) ==> s.toServer == FirstLine(s.toServer) + "\n" && AfterLine(s.toServer) == ""
    ensures s.client.pc.Start? ==> s == Init(w)
  {
    match p {
      case CallSent => LineFacts(w.text, Call(w.call));
      case EnvReplySent(k, r, v) => LineFacts(w.text, EnvReply(v));
      case _ =>
    }
  }
}
