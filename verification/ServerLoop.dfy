/**
 The server process: the main loop over standard input, the native function that
 it runs, and the proxy whose nested reads take lines from the same input
 (JniServerMain.cpp, JniProcessor.cpp, JniEnvProxy.cpp).
 */
module ServerLoop {
  import opened Results
  import opened Cells
  import opened JsonTrees
  import opened Values
  import opened Messages
  import opened NativeLoader
  import CallingConvention
  import opened Handlers

  /** The garbage that the native code's next move meets. */
  function RunGarbage(gs: nat -> Garbage, lines: nat): Garbage {
    gs(2 * lines)
  }

  /** The garbage that the reading of the next line meets. */
  function ReadGarbage(gs: nat -> Garbage, lines: nat): Garbage {
    gs(2 * lines + 1)
  }

  /**
   The server as a machine that is fed the lines of its input, after it has printed
   `out`: where it ends, and all that it has printed then. Every move meets garbage of
   its own, numbered by the lines still to come.
   */
  function Fold(t: Text, native: Native, pc: ServerPc, lines: seq<string>, out: string, gs: nat -> Garbage)
    : (ServerPc, string)
    decreases |lines|, if pc.Computing? then 1 else 0
  {
    match pc
    case Ended(_) => (pc, out)
    case MainRead =>
      if lines == [] then (pc, out)
      else Fold(t, native, ServerMain(t, lines[0], ReadGarbage(gs, |lines|)), lines[1..], out, gs)
    case Computing(_, _, _) =>
      var (pc', text) := ServerCompute(t, native, pc, RunGarbage(gs, |lines|)(0));
      Fold(t, native, pc', lines, out + text, gs)
    case NestedRead(_, _, _, _) =>
      if lines == [] then (Ended(BadJson), out)
      else Fold(t, native, ServerNested(t, pc, lines[0], ReadGarbage(gs, |lines|)), lines[1..], out, gs)
  }

  /** The end of the input ends the main loop; the nested reader gets an empty line, which is no JSON text. */
  lemma EndOfInput(t: Text, native: Native, pc: ServerPc, out: string, gs: nat -> Garbage)
    ensures Fold(t, native, MainRead, [], out, gs) == (MainRead, out)
    ensures pc.NestedRead? && t.parse("").None? ==>
              Fold(t, native, pc, [], out, gs) == (ServerNested(t, pc, "", ReadGarbage(gs, 0)), out)
  {
  }

  /** What a line does to a server that waits in the nested reader. */
  lemma FoldNested(t: Text, native: Native, pc: ServerPc, lines: seq<string>, out: string, gs: nat -> Garbage)
    requires pc.NestedRead? && lines != []
    ensures var m := ParseLine(t, lines[0], ReadGarbage(gs, |lines|));
            if m.Err? then Fold(t, native, pc, lines, out, gs) == (Ended(m.failure), out)
            else if !m.value.EnvReply? then Fold(t, native, pc, lines, out, gs) == (Ended(UnknownMessage), out)
            else
              var view := ReplyView(pc.request, m.value.result, ReadGarbage(gs, |lines|)(1));
              Fold(t, native, pc, lines, out, gs) ==
              if view.Err? then (Ended(view.failure), out)
              else
                Fold(t, native, Computing(pc.views, pc.result, pc.history + [view.value]), lines[1..], out, gs)
  {
    var next := ServerNested(t, pc, lines[0], ReadGarbage(gs, |lines|));
    if next.Ended? {
      assert Fold(t, native, next, lines[1..], out, gs) == (next, out);
    }
  }

  class Server {
    const t: Text
    const native: Native
    /** The JNIEnv of the interface wrapper around the proxy. */
    const jniEnv: Raw
    /** The lines that will arrive on standard input before it ends, and what was printed so far. */
    var stdin: seq<string>
    var stdout: string

    constructor (t: Text, native: Native, jniEnv: Raw, stdin: seq<string>)
      ensures this.t == t && this.native == native && this.jniEnv == jniEnv && this.stdin == stdin && stdout == ""
    {
      this.t := t;
      this.native := native;
      this.jniEnv := jniEnv;
      this.stdin := stdin;
      this.stdout := "";
    }

    /** Where the server will end, and all that it will have printed then, if it is at `pc` now. */
    ghost function Outcome(pc: ServerPc, gs: nat -> Garbage): (ServerPc, string)
      reads this
    {
      Fold(t, native, pc, stdin, stdout, gs)
    }

    method GetLine() returns (line: string)
      requires stdin != []
      modifies this`stdin
      ensures line == old(stdin)[0] && stdin == old(stdin)[1..]
    {
      line := stdin[0];
      stdin := stdin[1..];
    }

    // The proxy

    /** Sends the env call and blocks for the reply, whose value replaces the call's return value. */
    method Invoke(jniEnvCall: JniCall, ghost pc: ServerPc, gs: nat -> Garbage) returns (r: Result<()>)
      requires pc.NestedRead?
      modifies this, jniEnvCall
      ensures match r
              case Err(why) =>
                && |stdin| <= |old(stdin)|
                && (Ended(why), stdout) == old(Prompted(pc, jniEnvCall.View(), gs))
              case Ok(_) =>
                && jniEnvCall.returnValue.Some? && |stdin| + 1 == |old(stdin)|
                && old(Prompted(pc, jniEnvCall.View(), gs)) ==
                   match ReplyView(pc.request, jniEnvCall.returnValue.value, ReadGarbage(gs, |old(stdin)|)(1))
                   case Err(why) => (Ended(why), stdout)
                   case Ok(n) => Outcome(Computing(pc.views, pc.result, pc.history + [n]), gs)
    {
      var message := EnvCall(jniEnvCall.View());
      stdout := stdout + Line(t, message);
      if stdin == [] {
        // getline fails and leaves an empty line, which is no JSON text
        return Err(BadJson);
      }
      FoldNested(t, native, pc, stdin, stdout, gs);
      var g := ReadGarbage(gs, |stdin|);
      var lineRequest := GetLine();
      var parsed := ParseLine(t, lineRequest, g);
      match parsed {
        case Err(why) => return Err(why);
        case Ok(jniMessage) =>
          if jniMessage.EnvReply? {
            jniEnvCall.SetReturnValue(jniMessage.result);
            return Ok(());
          } else {
            return Err(UnknownMessage);
          }
      }
    }

    /** The outcome from the moment at which an env call has been printed and its reply is awaited. */
    ghost function Prompted(pc: ServerPc, call: CallRecord, gs: nat -> Garbage): (ServerPc, string)
      reads this
    {
      Fold(t, native, pc, stdin, stdout + Line(t, EnvCall(call)), gs)
    }

    method ProxyFindClass(name: string, ghost pc: ServerPc, gs: nat -> Garbage) returns (r: Result<int>)
      requires pc.NestedRead? && pc.request == FindClass(name)
      modifies this
      ensures AnswersTo(r, pc, old(Prompted(pc, RequestCall(pc.request, RunGarbage(gs, |stdin|)(0)), gs)),
                        old(|stdin|), gs)
    {
      var builder := new Builder("FindClass");
      builder.PushArgument(CString(name));
      assert builder.arguments == [CString(name)];
      builder.SetReturnValue(CString(""));
      var jniEnvCall := builder.Build();
      var mapped := ReadGarbage(gs, |stdin|)(1);
      var _ :- Invoke(jniEnvCall, pc, gs);
      r := ReplyView(FindClass(name), jniEnvCall.returnValue.value, mapped);
    }

    /** `mapped` is where mmap puts the shared memory that the reply names. */
    method ProxyGetIntArrayElements(handle: Raw, ghost pc: ServerPc, gs: nat -> Garbage) returns (r: Result<int>)
      requires pc.NestedRead? && pc.request == GetIntArrayElements(handle)
      modifies this
      ensures r.Ok? ==> r.value == ReadGarbage(gs, |old(stdin)|)(1)
      ensures AnswersTo(r, pc, old(Prompted(pc, RequestCall(pc.request, RunGarbage(gs, |stdin|)(0)), gs)),
                        old(|stdin|), gs)
    {
      var builder := new Builder("GetIntArrayElements");
      builder.PushArgument(Basic(JArray, handle));
      assert builder.arguments == [Basic(JArray, handle)];
      builder.SetReturnValue(CPointer(ShmRecord("", 0, 0, 0)));
      var jniEnvCall := builder.Build();
      var mapped := ReadGarbage(gs, |stdin|)(1);
      var _ :- Invoke(jniEnvCall, pc, gs);
      r := ReplyView(GetIntArrayElements(handle), jniEnvCall.returnValue.value, mapped);
    }

    method ProxyGetArrayLength(handle: Raw, ghost pc: ServerPc, gs: nat -> Garbage) returns (r: Result<int>)
      requires pc.NestedRead? && pc.request == GetArrayLength(handle)
      modifies this
      ensures AnswersTo(r, pc, old(Prompted(pc, RequestCall(pc.request, RunGarbage(gs, |stdin|)(0)), gs)),
                        old(|stdin|), gs)
    {
      var builder := new Builder("GetArrayLength");
      builder.PushArgument(Basic(JArray, handle));
      assert builder.arguments == [Basic(JArray, handle)];
      builder.SetReturnValue(Basic(Int, RunGarbage(gs, |stdin|)(0)));
      var jniEnvCall := builder.Build();
      var mapped := ReadGarbage(gs, |stdin|)(1);
      var _ :- Invoke(jniEnvCall, pc, gs);
      r := ReplyView(GetArrayLength(handle), jniEnvCall.returnValue.value, mapped);
    }

    /** A proxy call that started at `prompted` has brought the server on by one reply, or has thrown. */
    ghost predicate AnswersTo(r: Result<int>, pc: ServerPc, prompted: (ServerPc, string), lines: nat,
                              gs: nat -> Garbage)
      requires pc.NestedRead?
      reads this
    {
      match r
      case Err(why) => |stdin| <= lines && prompted == (Ended(why), stdout)
      case Ok(n) =>
        |stdin| + 1 == lines && prompted == Outcome(Computing(pc.views, pc.result, pc.history + [n]), gs)
    }

    method Proxy(r: Request, ghost pc: ServerPc, gs: nat -> Garbage) returns (reply: Result<int>)
      requires pc.NestedRead? && pc.request == r
      modifies this
      ensures AnswersTo(reply, pc, old(Prompted(pc, RequestCall(r, RunGarbage(gs, |stdin|)(0)), gs)), old(|stdin|), gs)
    {
      match r {
        case FindClass(name) => reply := ProxyFindClass(name, pc, gs);
        case GetIntArrayElements(a) => reply := ProxyGetIntArrayElements(a, pc, gs);
        case GetArrayLength(a) => reply := ProxyGetArrayLength(a, pc, gs);
      }
    }

    // The processor

    /** Runs the native function to its return; every env call goes through the proxy. */
    method RunNative(views: seq<int>, result: BasicType, gs: nat -> Garbage)
      returns (r: Result<Action>, ghost history: seq<int>)
      modifies this
      ensures |stdin| <= |old(stdin)|
      ensures match r
              case Err(why) => old(Outcome(Computing(views, result, []), gs)) == (Ended(why), stdout)
              case Ok(action) =>
                && action.Return? && action == native(views, history)
                && old(Outcome(Computing(views, result, []), gs)) == Outcome(Computing(views, result, history), gs)
    {
      var replies: seq<int> := [];
      history := [];
      while true
        invariant history == replies && |stdin| <= |old(stdin)|
        invariant old(Outcome(Computing(views, result, []), gs)) == Outcome(Computing(views, result, replies), gs)
        decreases |stdin|
      {
        var action := native(views, replies);
        match action {
          case Return(_, _) =>
            return Ok(action), history;
          case Invoke(request) =>
            ghost var pc := NestedRead(views, result, replies, request);
            ComputeThenPrompt(Computing(views, result, replies), request, gs);
            var reply := Proxy(request, pc, gs);
            if reply.Err? {
              return Err(reply.failure), history;
            }
            replies := replies + [reply.value];
            history := replies;
        }
      }
    }

    lemma ComputeThenPrompt(pc: ServerPc, request: Request, gs: nat -> Garbage)
      requires pc.Computing? && native(pc.views, pc.history) == Action.Invoke(request)
      ensures Outcome(pc, gs) ==
              Prompted(NestedRead(pc.views, pc.result, pc.history, request),
                       RequestCall(request, RunGarbage(gs, |stdin|)(0)), gs)
    {
    }

    /**
     processJniCall: load, run, collect, reply. If the loader can place the arguments,
     the native code runs on what it reads in the frame, by its own prototype.
     */
    method ProcessJniCall(call: CallRecord, loaderGarbage: nat -> Raw, gs: nat -> Garbage)
      returns (r: Result<()>, ghost frame: Option<CallingConvention.Frame>)
      modifies this
      ensures |stdin| <= |old(stdin)|
      ensures old(Outcome(ServerLoad(call), gs)) ==
              if r.Ok? then Outcome(MainRead, gs) else (Ended(r.failure), stdout)
      ensures frame.Some? <==> ServerLoad(call).Computing?
      ensures frame.Some? ==>
                && BasicArguments(call.arguments)
                && var types := Types(AsBasic(call.arguments));
                   && LoadedFrame(jniEnv, AsBasic(call.arguments), frame.value)
                   && (forall i :: 0 <= i < |types| ==> ParameterHeld(types, frame.value, i))
                   && ServerLoad(call).views == ReadParameters(types, frame.value)
    {
      frame := None;
      if !BasicArguments(call.arguments) || call.returnValue.None? || !call.returnValue.value.Basic? {
        return Err(UndefinedBehaviour), frame;
      }
      var values := AsBasic(call.arguments);
      var result := call.returnValue.value.typ;
      var loader := new Loader(jniEnv);
      var loaded := loader.PrepareCall(values, loaderGarbage);
      if loaded.Err? {
        return Err(loaded.failure), frame;
      }
      frame := Some(loaded.value);
      CalleeHolds(Types(values), loaded.value, Decodes(values));
      var views := ReadParameters(Types(values), loaded.value);
      ReadsAreUnique(Types(values), loaded.value, views, Decodes(values));
      ghost var history;
      var ran;
      ran, history := RunNative(views, result, gs);
      if ran.Err? {
        return Err(ran.failure), frame;
      }
      var rawValue := CollectReturn(IsReal(result), ran.value.rax, ran.value.xmm0, RunGarbage(gs, |stdin|)(0));
      TablesAreInverse();
      var returnValue := BuildFromRaw(SignatureOf(result), rawValue);
      if returnValue.Err? {
        return Err(returnValue.failure), frame;
      }
      stdout := stdout + Line(t, Reply(returnValue.value));
      return Ok(()), frame;
    }

    /** JniProcessor::process: any JniCallMessage is run, everything else is dropped. */
    method Process(lineRequest: string, g: Garbage, loaderGarbage: nat -> Raw, gs: nat -> Garbage)
      returns (r: Result<()>)
      modifies this
      ensures |stdin| <= |old(stdin)|
      ensures old(Outcome(ServerMain(t, lineRequest, g), gs)) ==
              if r.Ok? then Outcome(MainRead, gs) else (Ended(r.failure), stdout)
    {
      var jniMessage :- ParseLine(t, lineRequest, g);
      if IsJniCallMessage(jniMessage) {
        ghost var frame;
        r, frame := ProcessJniCall(jniMessage.call, loaderGarbage, gs);
      } else {
        r := Ok(());
      }
    }

    /**
     callJniProcessor: the nested program, with its two readers of one input, prints
     exactly what the machine prints on the same lines, and throws where it ends.
     */
    method CallJniProcessor(loaderGarbage: nat -> Raw, gs: nat -> Garbage) returns (r: Result<()>)
      modifies this
      ensures Fold(t, native, MainRead, old(stdin), old(stdout), gs) ==
              (if r.Ok? then MainRead else Ended(r.failure), stdout)
    {
      while stdin != []
        invariant old(Outcome(MainRead, gs)) == Outcome(MainRead, gs)
        decreases |stdin|
      {
        var g := ReadGarbage(gs, |stdin|);
        var line := GetLine();
        var _ :- Process(line, g, loaderGarbage, gs);
      }
      return Ok(());
    }
  }
}
