/**
 One invokeJni from the Java arguments to the Java result: the queue, the call
 message, the conversation and the reading of the result composed
 (JniClientImplementation.java and the modules above).
 */
module EndToEnd {
  import opened Results
  import opened Cells
  import opened Numerals
  import opened JsonTrees
  import opened Values
  import opened Messages
  import opened CallingConvention
  import opened NativeLoader
  import opened ArgumentQueue
  import opened Handlers
  import opened ArrivingCalls
  import opened Protocol
  import opened JavaResults

  // The call

  /** The Java call, the names it goes by, and what is behind the two processes. */
  datatype Invocation<!S> = Invocation(
    call: JavaCall,
    methodName: string,
    sharedObjectPath: string,
    text: Text,
    native: Native,
    jvm: Jvm<S>,
    jvm0: S)

  predicate NoNull(c: JavaCall) {
    FirstNull(c.args) == |c.args|
  }

  /** A legal call without null arguments. */
  predicate Callable<S>(v: Invocation<S>, s: State) {
    LegalCall(s, v.call) && NoNull(v.call)
  }

  /** The state in which the queue has been drained into the call message, and the conversation begins. */
  function Sent<S>(v: Invocation<S>, s: State): (State, World<S>)
    requires Callable(v, s)
  {
    var (s', r) := QueueCall(s, v.call);
    var call := if r.Ok? then CallRecord(v.methodName, v.sharedObjectPath, r.value.0, Some(r.value.1))
                else CallRecord("", "", [], None);
    (s', World(v.text, v.native, v.jvm, v.jvm0, call))
  }

  // Arguments

  /** What the call passes: what was left in the queue, and then its own arguments. From an empty queue, just these. */
  function Passing<S>(v: Invocation<S>, s: State): seq<Content> {
    Contents(s.queue, s.refs) + JavaContents(v.call.args, s.refs)
  }

  /** What the server's parser makes of a printed number or bit pattern. */
  function PlainReread(c: Content, t: Text): Option<int>
    requires c.Plain?
  {
    if c.typ.Void? || InRange(c.n, WidthOf(c.typ), IsSigned(c.typ)) then RereadAs(c.typ, c.n, t) else None
  }

  predicate ContentReadable(c: Content, t: Text) {
    c.Plain? ==> PlainReread(c, t).Some?
  }

  predicate ContentFaithful(c: Content, t: Text) {
    c.Plain? ==> PlainReread(c, t) == Some(c.n)
  }

  /** The server can parse everything that is passed, and the placeholder. */
  predicate PassingReadable(cs: seq<Content>, c: ReturnClass, t: Text) {
    (forall i :: 0 <= i < |cs| ==> ContentReadable(cs[i], t)) && (c.FloatClass? ==> t.RereadFloat(0).Some?)
  }

  /** Everything that is passed, and the placeholder, is parsed as itself. */
  predicate PassingFaithful(cs: seq<Content>, c: ReturnClass, t: Text) {
    (forall i :: 0 <= i < |cs| ==> ContentFaithful(cs[i], t)) && (c.FloatClass? ==> t.FaithfulFloat(0))
  }

  predicate IsRealContent(c: Content) {
    IsReal(c.typ)
  }

  function RealCount(cs: seq<Content>): (n: nat)
    ensures n <= |cs|
  {
    if cs == [] then 0 else RealCount(cs[..|cs| - 1]) + if IsRealContent(cs[|cs| - 1]) then 1 else 0
  }

  /** At most six reals and at most eight others. */
  predicate ArityFits(cs: seq<Content>) {
    RealCount(cs) <= MAX_REALS && |cs| - RealCount(cs) <= MAX_WORDS
  }

  /** The call can be delivered. */
  predicate Deliverable(cs: seq<Content>, c: ReturnClass, t: Text) {
    PassingReadable(cs, c, t) && ArityFits(cs)
  }

  function ContentTypes(cs: seq<Content>): (types: seq<BasicType>)
    ensures |types| == |cs|
  {
    seq(|cs|, i requires 0 <= i < |cs| => cs[i].typ)
  }

  /** What the native function sees: the reread number or bits, or a live local reference of the same object. */
  predicate Sees(c: Content, view: int, refs: Refs, t: Text) {
    match c
    case Plain(_, _) => PlainReread(c, t) == Some(view)
    case Reference(_, target) => IsReferenceTo(view, target, refs)
  }

  /** A live local reference of the object. */
  predicate IsReferenceTo(view: int, target: Object, refs: Refs) {
    0 < view <= 0xffff_ffff_ffff_ffff && view in refs.locals && refs.locals[view] == target
  }

  predicate SeesAll(cs: seq<Content>, views: seq<int>, refs: Refs, t: Text) {
    |views| == |cs| && forall i :: 0 <= i < |cs| ==> Sees(cs[i], views[i], refs, t)
  }

  /**
   For a Java argument: an int is seen as it is, a float as its six decimals, a
   reference as one of the same object.
   */
  lemma SeesJava(a: JavaArgument, before: Refs, view: int, after: Refs, t: Text)
    requires Exists(a, before) && !a.NullReference?
    ensures var c := JavaContent(a, before);
            && (Sees(c, view, after, t) <==>
                match a
                case IntArgument(n) => view == n
                case FloatArgument(bits) => t.RereadFloat(bits) == Some(view)
                case ArrayArgument(h) => IsReferenceTo(view, before.ObjectOf(h), after)
                case ObjectArgument(h) => IsReferenceTo(view, before.ObjectOf(h), after)
                case _ => false)
            && (ContentReadable(c, t) <==> (a.FloatArgument? ==> t.RereadFloat(a.bits).Some?))
            && (ContentFaithful(c, t) <==> (a.FloatArgument? ==> t.FaithfulFloat(a.bits)))
            && (IsRealContent(c) <==> a.FloatArgument?)
  {
  }

  lemma ValueIsSeen(v: BasicValue, refs: Refs, t: Text)
    ensures var c := ContentOf(v, refs);
            && c.typ == v.typ
            && (ContentReadable(c, t) <==> Reread(v.typ, v.raw, t).Some?)
            && (ContentFaithful(c, t) <==> RoundTrips(v, t))
            && ((IsHeld(v) ==> v.raw in refs.locals) && Reread(v.typ, v.raw, t).Some? ==>
                  Sees(c, Reread(v.typ, v.raw, t).value, refs, t))
  {
    DecodeEight(v.typ, v.raw);
    FaithfulIsReread(v.typ, v.raw, t);
  }

  lemma {:induction false} CountsAgree(vs: seq<BasicValue>, refs: Refs)
    ensures |Reals(vs)| == RealCount(Contents(vs, refs)) && |Words(vs)| == |vs| - RealCount(Contents(vs, refs))
  {
    if vs != [] {
      var n := |vs| - 1;
      assert Contents(vs, refs)[..n] == Contents(vs[..n], refs);
      CountsAgree(vs[..n], refs);
    }
  }

  lemma PlaceholderFacts(c: ReturnClass, garbage: Raw, t: Text)
    ensures var v := Placeholder(c, garbage);
            && v.typ == TypeOfClass(c) && Decode(v.typ, v.raw) == 0
            && (Reread(v.typ, v.raw, t).Some? <==> (c.FloatClass? ==> t.RereadFloat(0).Some?))
            && (RoundTrips(v, t) <==> (c.FloatClass? ==> t.FaithfulFloat(0)))
  {
    var v := Placeholder(c, garbage);
    if c.FloatClass? {
      assert Low(v.raw, Four) == 0;
    }
  }

  /** What a message of these contents is for the server, once it is printed and parsed. */
  lemma MessageIsSeen(vs: seq<BasicValue>, refs: Refs, t: Text)
    ensures var cs := Contents(vs, refs);
            && Types(vs) == ContentTypes(cs)
            && (AllReread(vs, t) <==> forall i :: 0 <= i < |cs| ==> ContentReadable(cs[i], t))
            && (AllRoundTrip(vs, t) <==> forall i :: 0 <= i < |cs| ==> ContentFaithful(cs[i], t))
            && (ArityOk(vs) <==> ArityFits(cs))
            && (AllLocal(vs, refs) && AllReread(vs, t) ==> SeesAll(cs, Rereads(vs, t), refs, t))
  {
    CountsAgree(vs, refs);
    forall i | 0 <= i < |vs|
      ensures Types(vs)[i] == ContentTypes(Contents(vs, refs))[i]
      ensures ContentReadable(Contents(vs, refs)[i], t) <==> Reread(vs[i].typ, vs[i].raw, t).Some?
      ensures ContentFaithful(Contents(vs, refs)[i], t) <==> RoundTrips(vs[i], t)
      ensures AllLocal(vs, refs) && Reread(vs[i].typ, vs[i].raw, t).Some? ==>
                Sees(Contents(vs, refs)[i], Rereads(vs, t)[i], refs, t)
    {
      ValueIsSeen(vs[i], refs, t);
    }
  }

  /**
   The call message carries, in order, what the call passes. It is delivered exactly if
   its reals and the placeholder can be parsed and the arity fits, it survives the pipe
   exactly if they are parsed as themselves, and the views that the server will run on are
   those of the passed numbers and objects. It names the method and the shared object.
   The queue is empty and the global references are as before.
   */
  lemma ArgumentsArrive<S>(v: Invocation<S>, s: State, others: map<Raw, Object>)
    requires Callable(v, s) && Conserved(s, others)
    ensures var (s', w) := Sent(v, s);
            var cs := Passing(v, s);
            && IsBasicCall(w.call) && ResultType(w.call) == TypeOfClass(v.call.returnClass)
            && w.call.methodName == v.methodName && w.call.sharedObjectPath == v.sharedObjectPath
            && Contents(AsBasic(w.call.arguments), s'.refs) == cs
            && Types(AsBasic(w.call.arguments)) == ContentTypes(cs)
            && (Readable(w.call, w.text) <==> PassingReadable(cs, v.call.returnClass, v.text))
            && (Delivers(w.call, w.text) <==> Deliverable(cs, v.call.returnClass, v.text))
            && (CallRoundTrips(w.call, w.text) <==> PassingFaithful(cs, v.call.returnClass, v.text))
            && (Readable(w.call, w.text) ==> SeesAll(cs, Views(w.call, w.text), s'.refs, v.text))
            && s'.queue == [] && s'.refs.globals == others
  {
    CallDelivers(s, v.call, others);
    CallContents(s, v.call, others);
    var (s', r) := QueueCall(s, v.call);
    MessageIsSeen(r.value.0, s'.refs, v.text);
    PlaceholderFacts(v.call.returnClass, v.call.g(|v.call.args|), v.text);
    var call := Sent(v, s).1.call;
    assert AsBasic(call.arguments) == r.value.0;
    assert AllRoundTrip(call.arguments, v.text) <==> AllRoundTrip(r.value.0, v.text);
  }

  /** What the server has parsed, or why it has not. */
  predicate ParsedFor(cs: seq<Content>, c: ReturnClass, parsed: Result<CallRecord>, refs: Refs, t: Text) {
    if !PassingReadable(cs, c, t) then parsed == Err(BadCast)
    else
      && parsed.Ok? && IsBasicCall(parsed.value)
      && var vs := AsBasic(parsed.value.arguments);
         && (ArityOk(vs) <==> ArityFits(cs))
         && Types(vs) == ContentTypes(cs) && SeesAll(cs, Decodes(vs), refs, t)
  }

  lemma CallIsParsed<S>(v: Invocation<S>, s: State, others: map<Raw, Object>, g: Garbage)
    requires Callable(v, s) && Conserved(s, others)
    ensures var (s', w) := Sent(v, s);
            var parsed := CallFromJson(CallToJson(w.call, w.text), g, w.text);
            && ParsedFor(Passing(v, s), v.call.returnClass, parsed, s'.refs, v.text)
            && (parsed.Ok? ==> parsed.value.methodName == v.methodName)
            && (parsed.Ok? ==> parsed.value.sharedObjectPath == v.sharedObjectPath)
  {
    ArgumentsArrive(v, s, others);
    var w := Sent(v, s).1;
    CallIsRead(w.call, g, w.text);
    if Readable(w.call, w.text) {
      ArrivedCall(w.call, CallFromJson(CallToJson(w.call, w.text), g, w.text).value, w.text);
    }
  }

  /**
   End-to-end argument delivery. Queue, call message, JSON, reparse, partition and
   placement compose to the identity: whatever garbage the parsed cells have, in the
   frame with which the native function starts it reads, by its own prototype, each
   int, for each float what its six decimals say, and for each reference a live local
   one of the same Java object, in order. A real whose text does not parse, and only
   that, makes the server throw before.
   */
  lemma ArgumentsDelivered<S>(v: Invocation<S>, s: State, others: map<Raw, Object>, g: Garbage, env: Raw, f: Frame)
    requires Callable(v, s) && Conserved(s, others)
    ensures var (s', w) := Sent(v, s);
            var parsed := CallFromJson(CallToJson(w.call, w.text), g, w.text);
            && ParsedFor(Passing(v, s), v.call.returnClass, parsed, s'.refs, v.text)
            && (parsed.Ok? ==> parsed.value.methodName == v.methodName)
            && (parsed.Ok? ==> parsed.value.sharedObjectPath == v.sharedObjectPath)
            && (parsed.Ok? ==>
                  var vs := AsBasic(parsed.value.arguments);
                  LoadedFrame(env, vs, f) ==>
                    && CalleeReads(ContentTypes(Passing(v, s)), f, Decodes(vs))
                    && SeesAll(Passing(v, s), Decodes(vs), s'.refs, v.text)
                    && |f.ints| >= 2 && f.ints[0] == env && f.ints[1] == 0)
  {
    CallIsParsed(v, s, others, g);
    var w := Sent(v, s).1;
    var parsed := CallFromJson(CallToJson(w.call, w.text), g, w.text);
    if parsed.Ok? && LoadedFrame(env, AsBasic(parsed.value.arguments), f) {
      LoadedFrameDelivers(env, AsBasic(parsed.value.arguments), f);
    }
  }

  /**
   The loader on a Java call as it was parsed: it succeeds exactly if the call can be
   delivered, and then the native function reads the arguments in the frame.
   */
  method LoadArguments<S>(v: Invocation<S>, s: State, ghost others: map<Raw, Object>, g: Garbage,
                          loader: Loader, lg: nat -> Raw) returns (r: Result<Frame>)
    requires Callable(v, s) && Conserved(s, others)
    requires loader.xmm.Length == SSE_REGISTERS
    modifies loader.xmm
    ensures r.Ok? <==> Deliverable(Passing(v, s), v.call.returnClass, v.text)
    ensures r.Ok? ==>
              var types := ContentTypes(Passing(v, s));
              && (forall i :: 0 <= i < |types| ==> ParameterHeld(types, r.value, i))
              && SeesAll(Passing(v, s), ReadParameters(types, r.value), Sent(v, s).0.refs, v.text)
  {
    CallIsParsed(v, s, others, g);
    var w := Sent(v, s).1;
    var call :- CallFromJson(CallToJson(w.call, w.text), g, w.text);
    var values := AsBasic(call.arguments);
    r := loader.PrepareCall(values, lg);
    if r.Ok? {
      var types := Types(values);
      CalleeHolds(types, r.value, Decodes(values));
      ReadsAreUnique(types, r.value, ReadParameters(types, r.value), Decodes(values));
    }
  }

  /**
   invokeJni up to the call message, with the repository and the JNIEnv themselves: the
   pushes, the push of the placeholder, and the draining into a JniCall.
   */
  method BuildCall<S>(v: Invocation<S>, repository: JniArgumentRepository, env: JniEnv) returns (jniCall: JniCall)
    requires Callable(v, repository.View(env))
    modifies repository, env
    ensures fresh(jniCall)
    ensures (repository.View(env), jniCall.View()) ==
            (Sent(v, old(repository.View(env))).0, Sent(v, old(repository.View(env))).1.call)
  {
    var c := v.call;
    ghost var s := repository.View(env);
    PushesSucceed(s, c);
    var pushed := repository.PushArguments(env, c.args, c.globals, c.g);
    PushAllSize(s, c.args, c.globals, c.g);
    repository.PushArgument(env, Placeholder(c.returnClass, c.g(|c.args|)), 0);
    jniCall := repository.CreateJniCall(env, v.sharedObjectPath, v.methodName, c.locals);
  }

  /** Without a null argument, no push throws. */
  lemma PushesSucceed(s: State, c: JavaCall)
    requires LegalCall(s, c) && NoNull(c)
    ensures PushAll(s, c.args, c.globals, c.g).1
  {
    AllPush(s, c.args, c.globals, c.g);
  }

  lemma {:induction false} AllPush(s: State, args: seq<JavaArgument>, handles: seq<Raw>, g: Garbage)
    requires |handles| >= |args|
    requires forall i :: 0 <= i < |args| ==> Exists(args[i], s.refs) && !args[i].NullReference?
    ensures PushAll(s, args, handles, g).1
  {
    if args != [] {
      AllPush(s, args[..|args| - 1], handles, g);
    }
  }

  // The whole call

  /** What is assumed of one call: sound JSON text, a reference table in order, and room in the buffer. */
  ghost predicate Runnable<S>(v: Invocation<S>, s: State, others: map<Raw, Object>) {
    Callable(v, s) && Conserved(s, others) && Assumed(v, s)
  }

  ghost predicate Assumed<S>(v: Invocation<S>, s: State)
    requires Callable(v, s)
  {
    var w := Sent(v, s).1;
    v.text.Sound() && IsBasicCall(w.call) && MessagesFit(w)
  }

  /** The native function runs, in the server of every state, on views of what was passed. */
  predicate RunsOnArguments<S>(cs: seq<Content>, states: seq<System<S>>, refs: Refs, t: Text) {
    forall j :: 0 <= j < |states| ==> RunsOn(cs, states[j].server, refs, t)
  }

  predicate RunsOn(cs: seq<Content>, pc: ServerPc, refs: Refs, t: Text) {
    pc.Computing? || pc.NestedRead? ==> SeesAll(cs, pc.views, refs, t)
  }

  lemma ServerSeesArguments<S>(v: Invocation<S>, s: State, others: map<Raw, Object>, states: seq<System<S>>)
    requires Runnable(v, s, others) && IsExecution(Sent(v, s).1, states)
    ensures RunsOnArguments(Passing(v, s), states, Sent(v, s).0.refs, v.text)
  {
    ArgumentsArrive(v, s, others);
    forall j | 0 <= j < |states|
      ensures RunsOn(Passing(v, s), states[j].server, Sent(v, s).0.refs, v.text)
    {
      SameReplies(Sent(v, s).1, states, j);
    }
  }

  /**
   The whole call. In every execution in which the client has its result, the server
   started the native code in its second step, only ever ran it on views of what was
   passed, and the env calls were those of the direct run; an int result reaches
   Java as the direct run's; a reference result reaches updateJniReturn with the handle
   that the native code returned, and then invokeJni throws, because asPrimitiveObject
   has no case for references; a float becomes what its printed decimals are for Java.
   */
  lemma JavaGetsTheDirectResult<S>(v: Invocation<S>, s: State, others: map<Raw, Object>, states: seq<System<S>>, i: nat,
                                   boxes: Boxes)
    requires Runnable(v, s, others)
    requires IsExecution(Sent(v, s).1, states) && i < |states| && states[i].client.pc.Finished?
    ensures var (s', w) := Sent(v, s);
            var c := states[i].client;
            var k := |c.performed|;
            && Deliverable(Passing(v, s), v.call.returnClass, v.text)
            && i == 5 + 4 * k && states[2].server.Computing?
            && RunsOnArguments(Passing(v, s), states, s'.refs, v.text)
            && c.jvm == Direct(w, k).jvm && c.performed == Direct(w, k).performed
            && ReturnsAfter(w, k)
            && ReachesJava(v.call.returnClass, c.pc, Move(w, k).rax, Move(w, k).xmm0, v.text, boxes)
  {
    ArgumentsArrive(v, s, others);
    var w := Sent(v, s).1;
    var c := states[i].client;
    Transparency(w, states, i);
    SameReplies(w, states, 2);
    ServerSeesArguments(v, s, others, states);
    var move := Move(w, |c.performed|);
    ResultIsRead(v.call.returnClass, c.pc, move.rax, move.xmm0, v.text, boxes);
  }

  /** The direct run of the call returns something that Java can read. */
  predicate ReturnsReadable<S>(v: Invocation<S>, w: World<S>, n: nat, boxes: Boxes)
    requires IsBasicCall(w.call)
  {
    ReturnsAfter(w, n) && JavaReads(v.call.returnClass, Move(w, n).xmm0, v.text, boxes)
  }

  /**
   For every execution that has run to its end: invokeJni returns exactly when the call
   can be delivered and the direct run returns an int, or a float whose text is one for
   Java too. Otherwise it throws, or, if the native code asked for array elements, the
   client has read outside a vector, and nothing is said of it.
   */
  lemma JavaGetsAnswerIff<S>(v: Invocation<S>, s: State, others: map<Raw, Object>, states: seq<System<S>>, boxes: Boxes)
    requires Runnable(v, s, others)
    requires IsExecution(Sent(v, s).1, states) && IsFinal(states[|states| - 1])
    ensures var w := Sent(v, s).1;
            JavaOutcome(states[|states| - 1].client.pc, boxes).Some? <==>
            Deliverable(Passing(v, s), v.call.returnClass, v.text) && exists n :: ReturnsReadable(v, w, n, boxes)
  {
    ArgumentsArrive(v, s, others);
    var w := Sent(v, s).1;
    var c := states[|states| - 1].client;
    AnswersIff(w, states);
    if c.pc.Finished? {
      JavaGetsTheDirectResult(v, s, others, states, |states| - 1, boxes);
      OnlyReturn(v, w, |c.performed|, boxes);
    } else if Deliverable(Passing(v, s), v.call.returnClass, v.text) {
      forall n: nat
        ensures !ReturnsReadable(v, w, n, boxes)
      {
        assert !Answers(w, n);
      }
    }
  }

  /** A direct run returns once. */
  lemma OnlyReturn<S>(v: Invocation<S>, w: World<S>, k: nat, boxes: Boxes)
    requires IsBasicCall(w.call) && ReturnsAfter(w, k)
    ensures (exists n :: ReturnsReadable(v, w, n, boxes)) <==> ReturnsReadable(v, w, k, boxes)
  {
    forall n: nat | ReturnsReadable(v, w, n, boxes)
      ensures n == k
    {
      assert StopsAt(w, n) && StopsAt(w, k);
    }
  }

  /**
   A call that can be delivered and whose direct run returns something readable has an
   execution in which invokeJni returns.
   */
  lemma JavaCallReturns<S>(v: Invocation<S>, s: State, others: map<Raw, Object>, n: nat, boxes: Boxes)
    returns (states: seq<System<S>>)
    requires Runnable(v, s, others) && Deliverable(Passing(v, s), v.call.returnClass, v.text)
    requires ReturnsReadable(v, Sent(v, s).1, n, boxes)
    ensures IsExecution(Sent(v, s).1, states) && |states| == 6 + 4 * n
    ensures JavaOutcome(states[5 + 4 * n].client.pc, boxes).Some?
  {
    ArgumentsArrive(v, s, others);
    var w := Sent(v, s).1;
    AnswersAlways(w, n);
    states := AnAnswerExists(w, n);
    JavaGetsAnswerIff(v, s, others, states, boxes);
  }
}
