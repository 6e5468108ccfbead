/**
 The handlers one message at a time, also for messages that no conversation brings to
 them: what the overlap of the message classes and the limits of the buffer would do.
 */
module Dispatch {
  import opened Results
  import opened Cells
  import opened Numerals
  import opened JsonTrees
  import opened Values
  import opened Messages
  import opened Handlers

  /**
   A JniEnvCallMessage is a JniCallMessage: the main loop would run one as a call. It
   drops both kinds of replies.
   */
  lemma MainLoopTakes(t: Text, line: string, m: Message, g: Garbage)
    requires ParseLine(t, line, g) == Ok(m)
    ensures ServerMain(t, line, g) ==
            match m
            case Call(c) => ServerLoad(c)
            case EnvCall(c) => ServerLoad(c)
            case Reply(_) => MainRead
            case EnvReply(_) => MainRead
  {
  }

  /** The nested reader accepts a JniEnvReplyMessage only, not its superclass. */
  lemma NestedReaderTakes(t: Text, pc: ServerPc, line: string, m: Message, g: Garbage)
    requires pc.NestedRead? && ParseLine(t, line, g) == Ok(m)
    ensures ServerNested(t, pc, line, g) ==
            match m
            case Call(_) => Ended(UnknownMessage)
            case EnvCall(_) => Ended(UnknownMessage)
            case Reply(_) => Ended(UnknownMessage)
            case EnvReply(v) =>
              match ReplyView(pc.request, v, g(1))
              case Err(why) => Ended(why)
              case Ok(n) => Computing(pc.views, pc.result, pc.history + [n])
  {
  }

  /** A JniEnvReplyMessage is a JniReplyMessage: it would end the client's conversation. A JniCall it does not know. */
  lemma ClientTakes<S>(w: World<S>, c: Client<S>, m: Message, g: Garbage)
    requires c.pc == Handling(m)
    ensures match m
            case Call(_) => ClientHandle(w, c, g) == (c.(pc := Left(UnknownMessage)), "")
            case EnvCall(call) =>
              var served := ServeEnvCall(w, c.jvm, call, g(0));
              ClientHandle(w, c, g) ==
              if served.Err? then (c.(pc := Left(served.failure)), "")
              else
                (c.(pc := Reading(false), jvm := served.value.0, performed := c.performed + [served.value.1]),
                 Line(w.text, EnvReply(served.value.2)))
            case Reply(v) => ClientHandle(w, c, g) == (ClientReply(w, c, v, g(0)), "")
            case EnvReply(v) => ClientHandle(w, c, g) == (ClientReply(w, c, v, g(0)), "")
  {
  }

  /** The buffer has 4096 bytes; the first read may fill it, and a full buffer ends the loop unread. */
  lemma BufferInFigures<S>(w: World<S>, c: Client<S>, chunk: string, g: Garbage)
    requires c.pc.Reading?
    ensures ReadLimit(true) == 4096 && ReadLimit(false) == 4095
    ensures |chunk| == 0 || |chunk| >= 4096 ==> ClientReceive(w, c, chunk, g) == c.(pc := Left(NoResult))
    ensures 0 < |chunk| <= 4095 && w.text.parse(UpToNul(chunk)).None? ==>
              ClientReceive(w, c, chunk, g) == c.(pc := Left(BadJson))
  {
  }

  /** Text that is no JSON, or no message, makes both of the server's readers throw, and the client leave. */
  lemma UnreadableText<S>(w: World<S>, c: Client<S>, pc: ServerPc, line: string, g: Garbage)
    requires c.pc.Reading? && pc.NestedRead? && 0 < |line| < 4096 && '\0' !in line
    requires w.text.parse(line).None? || MessageFromJson(w.text.parse(line).value, g, w.text).Err?
    ensures var why := if w.text.parse(line).None? then BadJson
                       else MessageFromJson(w.text.parse(line).value, g, w.text).failure;
            && ServerMain(w.text, line, g) == ServerNested(w.text, pc, line, g) == Ended(why)
            && ClientReceive(w, c, line, g) == c.(pc := Left(why))
  {
  }

  /** A string reaches updateJniReturn as it is, a C pointer as its JSON. */
  lemma TextReply<S>(w: World<S>, c: Client<S>, garbage: Raw, s: string, shm: ShmRecord)
    requires w.text.Sound()
    ensures ClientReply(w, c, CString(s), garbage) == c.(pc := Finished("CSTRING", s), updates := c.updates + 1)
    ensures ClientReply(w, c, CPointer(shm), garbage) ==
            c.(pc := Finished("*", w.text.dump(ToJson(CPointer(shm), w.text))), updates := c.updates + 1)
  {
    BuildString(s, garbage, w.text);
    BuildPointer(shm, garbage, w.text);
    assert w.text.parse(w.text.dump(ToJson(CString(s), w.text))) == Some(ToJson(CString(s), w.text));
    assert w.text.parse(w.text.dump(ToJson(CPointer(shm), w.text))) == Some(ToJson(CPointer(shm), w.text));
  }

  /** The casts to BasicJniValue and to the C pointer are not checked: what they give for other values is undefined. */
  lemma UncheckedCasts(r: Request, v: Value, mapped: Raw, call: CallRecord)
    ensures ReplyView(r, v, mapped) == Err(UndefinedBehaviour) <==>
            if r.GetIntArrayElements? then !v.CPointer? else !v.Basic?
    ensures ServerLoad(call) == Ended(UndefinedBehaviour) <==>
            || (exists i :: 0 <= i < |call.arguments| && !call.arguments[i].Basic?)
            || call.returnValue.None? || !call.returnValue.value.Basic?
  {
    if exists i :: 0 <= i < |call.arguments| && !call.arguments[i].Basic? {
      var i :| 0 <= i < |call.arguments| && !call.arguments[i].Basic?;
      assert call.arguments[i] in call.arguments;
    }
  }

  /** The proxy's requests, as they are printed: a name, or the handle of an array, and what is to be replaced. */
  lemma RequestIsPrinted(r: Request, garbage: Raw, t: Text)
    ensures var call := RequestCall(r, garbage);
            && call.sharedObjectPath == "" && |call.arguments| == 1 && call.returnValue.Some?
            && var argument, placeholder := ToJson(call.arguments[0], t), ToJson(call.returnValue.value, t);
               match r
               case FindClass(name) =>
                 && call.methodName == "FindClass"
                 && TextField(argument, "signature") == Ok("CSTRING") && TextField(argument, "value") == Ok(name)
                 && TextField(placeholder, "signature") == Ok("CSTRING") && TextField(placeholder, "value") == Ok("")
               case GetIntArrayElements(handle) =>
                 && call.methodName == "GetIntArrayElements"
                 && TextField(argument, "signature") == Ok("JARRAY")
                 && TextField(argument, "value") == Ok(PrintPointer(handle))
                 && TextField(placeholder, "signature") == Ok("*")
               case GetArrayLength(handle) =>
                 && call.methodName == "GetArrayLength"
                 && TextField(argument, "signature") == Ok("JARRAY")
                 && TextField(argument, "value") == Ok(PrintPointer(handle))
                 && TextField(placeholder, "signature") == Ok("I")
  {
    var call := RequestCall(r, garbage);
    ValueShape(call.arguments[0], t);
    ValueShape(call.returnValue.value, t);
  }

  /** The wrapper serves three methods. If a second argument were sent, the array of the first would be shared. */
  lemma WrapperServes<S>(w: World<S>, s: S, call: CallRecord, garbage: Raw)
    ensures call.methodName != "FindClass" && call.methodName != "GetIntArrayElements" &&
            call.methodName != "GetArrayLength" ==>
              ServeEnvCall(w, s, call, garbage) == Err(UnsupportedMethod)
    ensures call.methodName == "GetIntArrayElements" && |call.arguments| >= 2 &&
            call.arguments[0].Basic? && call.arguments[1].Basic? ==>
              var (s', shm) := w.jvm.sharedArray(s, call.arguments[0].raw);
              ServeEnvCall(w, s, call, garbage) == Ok((s', GetIntArrayElements(call.arguments[0].raw), CPointer(shm)))
    ensures call.arguments == [] &&
            (call.methodName == "FindClass" || call.methodName == "GetIntArrayElements" ||
             call.methodName == "GetArrayLength") ==>
              ServeEnvCall(w, s, call, garbage) == Err(UndefinedBehaviour)
    // what is behind the first argument of the others is not looked at
    ensures call.arguments != [] && call.methodName != "GetIntArrayElements" ==>
              ServeEnvCall(w, s, call, garbage) ==
              ServeEnvCall(w, s, call.(arguments := [call.arguments[0]]), garbage)
  {
    assert |"FindClass"| == 9 && |"GetIntArrayElements"| == 19 && |"GetArrayLength"| == 14;
  }
}
