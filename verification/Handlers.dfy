/**
 What the client and the server do with one message: the handlers that both the
 two-process machine and the imperative loops are built from (JniClient.cpp,
 JniEnvWrapper.cpp, JniEnvProxy.cpp, JniProcessor.cpp).
 */
module Handlers {
  import opened Results
  import opened Cells
  import opened JsonTrees
  import opened Values
  import opened Messages
  import opened NativeLoader

  /** The JNIEnv calls of the proxy. */
  datatype Request =
    | FindClass(name: string)
    | GetIntArrayElements(handle: Raw)
    | GetArrayLength(handle: Raw)

  /** The JVM behind the client: an arbitrary state, changed by each call it performs. */
  datatype Jvm<!S> = Jvm(
    findClass: (S, string) -> (S, Raw),
    sharedArray: (S, Raw) -> (S, ShmRecord),
    arrayLength: (S, Raw) -> (S, Int32))

  /** The next move of the native code: return in rax and xmm0, or call the JVM. */
  datatype Action = Return(rax: Raw, xmm0: Raw) | Invoke(request: Request)

  /** Native code: its next move from the parameters it reads and the replies it has got. */
  type Native = (seq<int>, seq<int>) -> Action

  /** Everything that stays fixed during one JNI call. */
  datatype World<!S> = World(text: Text, native: Native, jvm: Jvm<S>, jvm0: S, call: CallRecord)

  /** A message as it is written to a pipe. */
  function Line(t: Text, m: Message): (line: string)
    ensures line != ""
  {
    t.dump(MessageToJson(m, t)) + "\n"
  }

  // The proxy in the server

  /** The call that the proxy builds; the INT return value of GetArrayLength is uninitialised. */
  function RequestCall(r: Request, garbage: Raw): CallRecord {
    match r
    case FindClass(name) => CallRecord("FindClass", "", [CString(name)], Some(CString("")))
    case GetIntArrayElements(a) =>
      CallRecord("GetIntArrayElements", "", [Basic(JArray, a)], Some(CPointer(ShmRecord("", 0, 0, 0))))
    case GetArrayLength(a) => CallRecord("GetArrayLength", "", [Basic(JArray, a)], Some(Basic(Int, garbage)))
  }

  /** What the native code gets back from a reply; a loaded array is at the address that mmap chose. */
  function ReplyView(r: Request, v: Value, mapped: Raw): Result<int> {
    match r
    case FindClass(_) => if v.Basic? then Ok(v.raw) else Err(UndefinedBehaviour)
    case GetIntArrayElements(_) => if v.CPointer? then Ok(mapped) else Err(UndefinedBehaviour)
    case GetArrayLength(_) => if v.Basic? then Ok(Decode(Int, v.raw)) else Err(UndefinedBehaviour)
  }

  // The wrapper in the client

  function AsString(v: Value, t: Text): string {
    match v
    case Basic(typ, raw) => PrintBasic(typ, raw, t)
    case CString(s) => s
    case CPointer(_) => t.dump(ToJson(v, t))
  }

  function SignatureOfValue(v: Value): string {
    match v
    case Basic(typ, _) => SignatureOf(typ)
    case CString(_) => "CSTRING"
    case CPointer(_) => "*"
  }

  /** JniEnvWrapper::invoke: the JVM's new state, what it was asked to do, and the value to send back. */
  function ServeEnvCall<S>(w: World<S>, s: S, call: CallRecord, garbage: Raw): Result<(S, Request, Value)> {
    var args := call.arguments;
    if call.methodName == "FindClass" then
      if |args| < 1 then Err(UndefinedBehaviour)
      else
        var name := AsString(args[0], w.text);
        var (s', id) := w.jvm.findClass(s, name);
        Ok((s', FindClass(name), Basic(JObject, id)))
    else if call.methodName == "GetIntArrayElements" then
      if |args| < 2 || !args[0].Basic? || !args[1].Basic? then Err(UndefinedBehaviour)
      else
        var (s', shm) := w.jvm.sharedArray(s, args[0].raw);
        Ok((s', GetIntArrayElements(args[0].raw), CPointer(shm)))
    else if call.methodName == "GetArrayLength" then
      if |args| < 1 || !args[0].Basic? then Err(UndefinedBehaviour)
      else
        var (s', n) := w.jvm.arrayLength(s, args[0].raw);
        Ok((s', GetArrayLength(args[0].raw), Basic(JSize, Store(JSize, n, garbage))))
    else Err(UnsupportedMethod)
  }

  // The client

  datatype ClientPc =
    | Start                                       // before the call message is written
    | Reading(first: bool)                        // blocked in read()
    | Handling(message: Message)                  // in processMessage
    | Finished(signature: string, value: string)  // updateJniReturn was called
    | Left(why: Failure)                          // out of the loop, or crashed, without a result

  datatype Client<!S> = Client(pc: ClientPc, jvm: S, performed: seq<Request>, updates: nat)

  const BUFFER_SIZE := 4096

  /** The first read may fill the whole buffer, the later ones leave room for the terminator. */
  function ReadLimit(first: bool): nat {
    if first then BUFFER_SIZE else BUFFER_SIZE - 1
  }

  /** A C string ends at its first NUL. */
  function UpToNul(s: string): (c: string)
    ensures '\0' !in s ==> c == s
  {
    if s == "" || s[0] == '\0' then "" else [s[0]] + UpToNul(s[1..])
  }

  /** One turn of processMessageLoop, up to the parsed message. */
  function ClientReceive<S>(w: World<S>, c: Client<S>, chunk: string, g: Garbage): Client<S>
    requires c.pc.Reading?
  {
    if chunk == "" || |chunk| >= BUFFER_SIZE then c.(pc := Left(NoResult))
    else
      match w.text.parse(UpToNul(chunk))
      case None => c.(pc := Left(BadJson))
      case Some(json) =>
        match MessageFromJson(json, g, w.text)
        case Err(why) => c.(pc := Left(why))
        case Ok(m) => c.(pc := Handling(m))
  }

  /** processMessage: the new client, and what it writes to the server. */
  function ClientHandle<S>(w: World<S>, c: Client<S>, g: Garbage): (Client<S>, string)
    requires c.pc.Handling?
  {
    var m := c.pc.message;
    if IsJniReplyMessage(m) then (ClientReply(w, c, m.result, g(0)), "")
    else if m.EnvCall? then
      match ServeEnvCall(w, c.jvm, m.call, g(0))
      case Err(why) => (c.(pc := Left(why)), "")
      case Ok((s, r, v)) =>
        (c.(pc := Reading(false), jvm := s, performed := c.performed + [r]), Line(w.text, EnvReply(v)))
    else (c.(pc := Left(UnknownMessage)), "")
  }

  /** processReplyMessage prints the value, parses it once more and calls updateJniReturn. */
  function ClientReply<S>(w: World<S>, c: Client<S>, v: Value, garbage: Raw): Client<S> {
    match w.text.parse(w.text.dump(ToJson(v, w.text)))
    case None => c.(pc := Left(BadJson))
    case Some(json) =>
      match BuildFromJson(json, garbage, w.text)
      case Err(why) => c.(pc := Left(why))
      case Ok(returned) =>
        c.(pc := Finished(SignatureOfValue(returned), AsString(returned, w.text)), updates := c.updates + 1)
  }

  // The server

  datatype ServerPc =
    | MainRead                        // blocked in the main loop's getline
    // the native code runs
    | Computing(views: seq<int>, result: BasicType, history: seq<int>)
    // blocked in invoke's getline
    | NestedRead(views: seq<int>, result: BasicType, history: seq<int>, request: Request)
    | Ended(why: Failure)             // an exception reached main

  function ParseLine(t: Text, line: string, g: Garbage): Result<Message> {
    match t.parse(line)
    case None => Err(BadJson)
    case Some(json) => MessageFromJson(json, g, t)
  }

  predicate BasicArguments(values: seq<Value>) {
    forall v :: v in values ==> v.Basic?
  }

  function AsBasic(values: seq<Value>): (basics: seq<BasicValue>)
    requires BasicArguments(values)
    ensures basics == values
  {
    values
  }

  /** JniProcessor::process up to the jump into the native function. */
  function ServerMain(t: Text, line: string, g: Garbage): ServerPc {
    match ParseLine(t, line, g)
    case Err(why) => Ended(why)
    case Ok(m) => if IsJniCallMessage(m) then ServerLoad(m.call) else MainRead
  }

  function ServerLoad(call: CallRecord): ServerPc {
    if !BasicArguments(call.arguments) || call.returnValue.None? || !call.returnValue.value.Basic?
    then Ended(UndefinedBehaviour)
    else
      var values := AsBasic(call.arguments);
      if |Reals(values)| > MAX_REALS then Ended(TooManyReals)
      else if |Words(values)| > MAX_WORDS then Ended(TooManyWords)
      else Computing(Decodes(values), call.returnValue.value.typ, [])
  }

  /** The native code's next move: the reply of the call, or an env call whose reply is awaited. */
  function ServerCompute(t: Text, native: Native, pc: ServerPc, garbage: Raw): (ServerPc, string)
    requires pc.Computing?
  {
    match native(pc.views, pc.history)
    case Return(rax, xmm0) =>
      (MainRead, Line(t, Reply(Basic(pc.result, CollectReturn(IsReal(pc.result), rax, xmm0, garbage)))))
    case Invoke(r) =>
      (NestedRead(pc.views, pc.result, pc.history, r), Line(t, EnvCall(RequestCall(r, garbage))))
  }

  /** The rest of JniEnvProxy::invoke. */
  function ServerNested(t: Text, pc: ServerPc, line: string, g: Garbage): ServerPc
    requires pc.NestedRead?
  {
    match ParseLine(t, line, g)
    case Err(why) => Ended(why)
    case Ok(m) =>
      if m.EnvReply? then
        match ReplyView(pc.request, m.result, g(1))
        case Err(why) => Ended(why)
        case Ok(n) => Computing(pc.views, pc.result, pc.history + [n])
      else Ended(UnknownMessage)
  }
}
