/** The client's read loop over its fixed buffer (JniClient.cpp). */
module ClientLoop {
  import opened Results
  import opened Cells
  import opened JsonTrees
  import opened Values
  import opened Messages
  import opened Handlers

  /** One turn of the loop: the message is parsed, with garbage `g`, and processed at once, with garbage `h`. */
  function Turn<S>(w: World<S>, c: Client<S>, chunk: string, g: Garbage, h: Garbage): (r: (Client<S>, string))
    requires c.pc.Reading?
    ensures r.0.pc.Reading? || r.0.pc.Finished? || r.0.pc.Left?
  {
    var c1 := ClientReceive(w, c, chunk, g);
    if c1.pc.Handling? then ClientHandle(w, c1, h) else (c1, "")
  }

  /**
   The client on a series of read results, of which `i` have gone before and after it
   has written `out`: where it ends, and all that it has written then. A read after the
   last result reports the end of the stream.
   */
  function Loop<S>(w: World<S>, c: Client<S>, out: string, results: seq<string>, i: nat, gs: nat -> Garbage)
    : (Client<S>, string)
    decreases |results|
  {
    if !c.pc.Reading? then (c, out)
    else if results == [] then (Turn(w, c, "", gs(2 * i), gs(2 * i + 1)).0, out)
    else
      var (c1, text) := Turn(w, c, results[0], gs(2 * i), gs(2 * i + 1));
      Loop(w, c1, out + text, results[1..], i + 1, gs)
  }

  /**
   For every series of read results the loop ends, with at most one call of
   updateJniReturn, and with exactly one if and only if it is finished.
   */
  lemma {:induction false} LoopOutcome<S>(w: World<S>, c: Client<S>, out: string, results: seq<string>, i: nat,
                                          gs: nat -> Garbage)
    requires c.pc.Reading? && c.updates == 0
    ensures var c' := Loop(w, c, out, results, i, gs).0;
            && (c'.pc.Finished? || c'.pc.Left?)
            && c'.updates == (if c'.pc.Finished? then 1 else 0)
    decreases |results|
  {
    if results == [] {
      TurnUpdates(w, c, "", gs(2 * i), gs(2 * i + 1));
    } else {
      TurnUpdates(w, c, results[0], gs(2 * i), gs(2 * i + 1));
      var (c1, text) := Turn(w, c, results[0], gs(2 * i), gs(2 * i + 1));
      if c1.pc.Reading? {
        LoopOutcome(w, c1, out + text, results[1..], i + 1, gs);
      }
    }
  }

  lemma TurnUpdates<S>(w: World<S>, c: Client<S>, chunk: string, g: Garbage, h: Garbage)
    requires c.pc.Reading?
    ensures var c' := Turn(w, c, chunk, g, h).0;
            && c'.updates == c.updates + (if c'.pc.Finished? then 1 else 0)
            && (c'.pc.Reading? ==> |c'.performed| == |c.performed| + 1)
            && (chunk == "" || |chunk| >= BUFFER_SIZE ==> Turn(w, c, chunk, g, h) == (c.(pc := Left(NoResult)), ""))
  {
  }

  /** Nothing that arrives after the result is looked at. */
  lemma {:induction false} NothingAfterTheResult<S>(w: World<S>, c: Client<S>, out: string, results: seq<string>,
                                                    more: seq<string>, i: nat, gs: nat -> Garbage)
    requires Loop(w, c, out, results, i, gs).0.pc.Finished?
    ensures Loop(w, c, out, results + more, i, gs) == Loop(w, c, out, results, i, gs)
    decreases |results|
  {
    if c.pc.Reading? {
      if results == [] {
        TurnUpdates(w, c, "", gs(2 * i), gs(2 * i + 1));
      } else {
        assert (results + more)[1..] == results[1..] + more;
        var (c1, text) := Turn(w, c, results[0], gs(2 * i), gs(2 * i + 1));
        NothingAfterTheResult(w, c1, out + text, results[1..], more, i + 1, gs);
      }
    }
  }

  lemma {:induction false} UpToNulOfPrefix(chunk: string, rest: string)
    ensures UpToNul(chunk + "\0" + rest) == UpToNul(chunk)
  {
    if chunk != "" {
      assert (chunk + "\0" + rest)[1..] == chunk[1..] + "\0" + rest;
      UpToNulOfPrefix(chunk[1..], rest);
    }
  }

  class JniClient<S> {
    const w: World<S>
    var processDone: bool
    /** The state of the JVM behind jniEnv, and the env calls it has performed. */
    var jvm: S
    var performed: seq<Request>
    /** What was written to the server, and the calls of updateJniReturn. */
    var toServer: string
    var updates: seq<(string, string)>

    constructor (w: World<S>)
      ensures this.w == w && !processDone && jvm == w.jvm0 && performed == [] && toServer == "" && updates == []
    {
      this.w := w;
      processDone := false;
      jvm := w.jvm0;
      performed := [];
      toServer := "";
      updates := [];
    }

    /** The client as the specification sees it, at the given point of the code. */
    function View(pc: ClientPc): Client<S>
      reads this
    {
      Client(pc, jvm, performed, |updates|)
    }

    /** The kernel copies the bytes it has into the buffer. */
    method Read(buffer: array<char>, chunk: string) returns (len: nat)
      requires |chunk| <= buffer.Length
      modifies buffer
      ensures len == |chunk| && buffer[..len] == chunk
    {
      len := |chunk|;
      forall i | 0 <= i < len {
        buffer[i] := chunk[i];
      }
    }

    /** processMessage: the point it leaves the client at. */
    method ProcessMessage(m: Message, g: Garbage) returns (pc: ClientPc)
      requires !processDone && updates == []
      modifies this
      ensures var (c, text) := ClientHandle(w, old(View(Handling(m))), g);
              && View(pc) == c && toServer == old(toServer) + text
              && processDone == c.pc.Finished?
              && (c.pc.Finished? ==> updates == [(c.pc.signature, c.pc.value)])
    {
      if IsJniReplyMessage(m) {
        pc := ProcessReplyMessage(m.result, g(0));
        processDone := pc.Finished?;
      } else if m.EnvCall? {
        pc := ProcessJniEnvCallMessage(m.call, g(0));
      } else {
        pc := Left(UnknownMessage);
      }
    }

    method ProcessReplyMessage(v: Value, garbage: Raw) returns (pc: ClientPc)
      requires updates == []
      modifies this
      ensures View(pc) == ClientReply(w, old(View(Start)), v, garbage).(pc := pc)
      ensures pc == ClientReply(w, old(View(Start)), v, garbage).pc
      ensures pc.Finished? ==> updates == [(pc.signature, pc.value)]
      ensures toServer == old(toServer) && processDone == old(processDone)
    {
      match w.text.parse(w.text.dump(ToJson(v, w.text))) {
        case None => pc := Left(BadJson);
        case Some(json) =>
          match BuildFromJson(json, garbage, w.text) {
            case Err(why) => pc := Left(why);
            case Ok(returned) =>
              var signature, value := SignatureOfValue(returned), AsString(returned, w.text);
              updates := updates + [(signature, value)];
              pc := Finished(signature, value);
          }
      }
    }

    method ProcessJniEnvCallMessage(call: CallRecord, garbage: Raw) returns (pc: ClientPc)
      requires updates == []
      modifies this
      ensures var (c, text) := ClientHandle(w, old(View(Handling(EnvCall(call)))), _ => garbage);
              View(pc) == c && toServer == old(toServer) + text
      ensures updates == old(updates) && processDone == old(processDone)
    {
      match ServeEnvCall(w, jvm, call, garbage) {
        case Err(why) => pc := Left(why);
        case Ok((s, r, v)) =>
          jvm := s;
          performed := performed + [r];
          toServer := toServer + Line(w.text, EnvReply(v));
          pc := Reading(false);
      }
    }

    /** The body of the loop: terminate the buffer, parse it as a C string, process the message. */
    method ProcessBuffer(receiveBuffer: array<char>, len: nat, g: Garbage, h: Garbage) returns (pc: ClientPc)
      requires 0 < len < receiveBuffer.Length == BUFFER_SIZE
      requires !processDone && updates == []
      modifies this, receiveBuffer
      ensures var (c, text) := Turn(w, old(View(Reading(true))), old(receiveBuffer[..len]), g, h);
              && View(pc) == c && toServer == old(toServer) + text
              && processDone == c.pc.Finished?
              && (c.pc.Finished? ==> updates == [(c.pc.signature, c.pc.value)])
              && (c.pc.Reading? ==> updates == [])
    {
      ghost var chunk := receiveBuffer[..len];
      receiveBuffer[len] := '\0';
      var received := UpToNul(receiveBuffer[..]);
      assert receiveBuffer[..] == chunk + "\0" + receiveBuffer[len + 1..];
      UpToNulOfPrefix(chunk, receiveBuffer[len + 1..]);
      match w.text.parse(received) {
        case None => pc := Left(BadJson);
        case Some(json) =>
          match MessageFromJson(json, g, w.text) {
            case Err(why) => pc := Left(why);
            case Ok(message) => pc := ProcessMessage(message, h);
          }
      }
    }

    /**
     processMessageLoop. The kernel returns no more than a read asks for; then every
     store of the terminator is inside the buffer, and the client ends as specified.
     */
    method ProcessMessageLoop(results: seq<string>, gs: nat -> Garbage) returns (pc: ClientPc)
      requires !processDone && updates == []
      requires forall i :: 0 <= i < |results| ==> |results[i]| <= ReadLimit(i == 0)
      modifies this
      ensures var (c, text) := Loop(w, old(View(Reading(true))), old(toServer), results, 0, gs);
              && View(pc) == c && toServer == text
              && processDone == c.pc.Finished?
              && (c.pc.Finished? ==> updates == [(c.pc.signature, c.pc.value)])
      ensures processDone <==> |updates| == 1
    {
      LoopOutcome(w, View(Reading(true)), toServer, results, 0, gs);
      var receiveBuffer := new char[BUFFER_SIZE];
      var i := 0;
      var chunk := if results == [] then "" else results[0];
      var len := Read(receiveBuffer, chunk);
      pc := Reading(true);
      assert results[0..] == results;
      while len > 0 && len < receiveBuffer.Length
        invariant 0 <= i <= |results|
        invariant chunk == if i < |results| then results[i] else ""
        invariant len == |chunk| <= receiveBuffer.Length && receiveBuffer[..len] == chunk
        invariant pc.Reading? && !processDone && updates == []
        invariant Loop(w, old(View(Reading(true))), old(toServer), results, 0, gs) ==
                  Loop(w, View(pc), toServer, results[i..], i, gs)
        decreases |results| - i
      {
        LoopTurn(w, View(pc), toServer, results, i, gs);
        pc := ProcessBuffer(receiveBuffer, len, gs(2 * i), gs(2 * i + 1));
        if !pc.Reading? {
          return;
        }
        i := i + 1;
        chunk := if i < |results| then results[i] else "";
        len := Read(receiveBuffer, chunk);
      }
      LoopEnds(w, View(pc), toServer, results, i, chunk, gs);
      pc := Left(NoResult);
    }

    /** jniClientMain, from the two open pipes on: write the call message, then read and process until done. */
    method JniClientMain(results: seq<string>, gs: nat -> Garbage) returns (pc: ClientPc)
      requires !processDone && updates == []
      requires forall i :: 0 <= i < |results| ==> |results[i]| <= ReadLimit(i == 0)
      modifies this
      ensures var sent := old(toServer) + Line(w.text, Call(w.call));
              (View(pc), toServer) == Loop(w, old(View(Reading(true))), sent, results, 0, gs)
      ensures processDone <==> |updates| == 1
    {
      toServer := toServer + Line(w.text, Call(w.call));
      pc := ProcessMessageLoop(results, gs);
    }
  }

  lemma LoopTurn<S>(w: World<S>, c: Client<S>, out: string, results: seq<string>, i: nat, gs: nat -> Garbage)
    requires c.pc.Reading? && i < |results| && 0 < |results[i]| < BUFFER_SIZE
    ensures Turn(w, c, results[i], gs(2 * i), gs(2 * i + 1)) ==
            Turn(w, c.(pc := Reading(true)), results[i], gs(2 * i), gs(2 * i + 1))
    ensures var (c1, text) := Turn(w, c, results[i], gs(2 * i), gs(2 * i + 1));
            Loop(w, c, out, results[i..], i, gs) == Loop(w, c1, out + text, results[i + 1..], i + 1, gs)
  {
    assert results[i..][1..] == results[i + 1..] && results[i..][0] == results[i];
  }

  lemma LoopEnds<S>(w: World<S>, c: Client<S>, out: string, results: seq<string>, i: nat, chunk: string,
                    gs: nat -> Garbage)
    requires c.pc.Reading? && i <= |results| && chunk == (if i < |results| then results[i] else "")
    requires chunk == "" || |chunk| >= BUFFER_SIZE
    ensures Loop(w, c, out, results[i..], i, gs) == (c.(pc := Left(NoResult)), out)
  {
    TurnUpdates(w, c, chunk, gs(2 * i), gs(2 * i + 1));
    assert out + "" == out;
    if i < |results| {
      assert results[i..][0] == chunk;
    }
  }
}
