/**
 A series of invokeJni calls on one queue and one JVM, among them calls that throw on a
 null argument and leave what they had pushed to the next one.
 */
module Series {
  import opened Results
  import opened Cells
  import opened JsonTrees
  import opened Values
  import opened ArgumentQueue
  import opened Handlers
  import opened ArrivingCalls
  import opened Protocol
  import opened JavaResults
  import opened EndToEnd

  /** What became of one call. */
  datatype Shot<!S> = Threw | Conversed(states: seq<System<S>>)

  /** The calls, the queue and the JVM before each of them and after the last, and what became of them. */
  datatype Session<!S> = Session(
    calls: seq<Invocation<S>>,
    queues: seq<State>,
    jvms: seq<S>,
    shots: seq<Shot<S>>)

  predicate Shaped<S>(x: Session<S>) {
    |x.queues| == |x.jvms| == |x.calls| + 1 && |x.shots| == |x.calls|
  }

  /**
   One call of the series: a null argument throws before the conversation and leaves
   the JVM alone; any other call is a conversation that has run to its end. After
   undefined behaviour in the client there is no next call.
   */
  ghost predicate IsShot<S>(x: Session<S>, i: nat)
    requires Shaped(x) && i < |x.calls|
  {
    var v, s := x.calls[i], x.queues[i];
    LegalCall(s, v.call) &&
    if NoNull(v.call) then
      && x.shots[i].Conversed? && Assumed(v, s)
      && v.jvm0 == x.jvms[i] && x.queues[i + 1] == Sent(v, s).0
      && var states := x.shots[i].states;
         && IsExecution(Sent(v, s).1, states) && IsFinal(states[|states| - 1])
         && states[|states| - 1].client.pc != Left(UndefinedBehaviour)
         && x.jvms[i + 1] == states[|states| - 1].client.jvm
    else
      x.shots[i].Threw? && x.queues[i + 1] == QueueCall(s, v.call).0 && x.jvms[i + 1] == x.jvms[i]
  }

  ghost predicate IsSession<S>(x: Session<S>, others: map<Raw, Object>) {
    && Shaped(x) && x.queues[0].queue == [] && Conserved(x.queues[0], others)
    && forall i :: 0 <= i < |x.calls| ==> IsShot(x, i)
  }

  /** What the calls before the i-th have left: all that was pushed since the last call without a null. */
  function Pending<S>(x: Session<S>, i: nat): seq<Content>
    requires Shaped(x) && i <= |x.calls|
  {
    if i == 0 then []
    else
      var c := x.calls[i - 1].call;
      if NoNull(c) then []
      else Pending(x, i - 1) + JavaContents(c.args[..FirstNull(c.args)], x.queues[i - 1].refs)
  }

  /** What the i-th call passes: what is pending, and its own arguments. */
  function PassedBy<S>(x: Session<S>, i: nat): seq<Content>
    requires Shaped(x) && i < |x.calls|
  {
    Pending(x, i) + JavaContents(x.calls[i].call.args, x.queues[i].refs)
  }

  /** The queue before each call: the pending contents, and one global reference for each held one. */
  lemma {:induction false} QueueBefore<S>(x: Session<S>, others: map<Raw, Object>, i: nat)
    requires IsSession(x, others) && i <= |x.calls|
    ensures Conserved(x.queues[i], others)
    ensures Contents(x.queues[i].queue, x.queues[i].refs) == Pending(x, i)
  {
    if i > 0 {
      QueueBefore(x, others, i - 1);
      assert IsShot(x, i - 1);
      CallDelivers(x.queues[i - 1], x.calls[i - 1].call, others);
      CallContents(x.queues[i - 1], x.calls[i - 1].call, others);
    }
  }

  /** The i-th call, seen from the direct run of its native code on the JVM as the calls before have left it. */
  ghost predicate GoesWell<S>(x: Session<S>, i: nat, boxes: Boxes)
    requires Shaped(x) && i < |x.calls| && LegalCall(x.queues[i], x.calls[i].call)
  {
    var v, s := x.calls[i], x.queues[i];
    if !NoNull(v.call) then x.shots[i].Threw? && x.jvms[i + 1] == x.jvms[i]
    else
      var w := Sent(v, s).1;
      && x.shots[i].Conversed? && x.shots[i].states != [] && IsBasicCall(w.call) && w.jvm0 == x.jvms[i]
      && var c := x.shots[i].states[|x.shots[i].states| - 1].client;
         var k := |c.performed|;
         // what the native code ran on
         && RunsOnArguments(PassedBy(x, i), x.shots[i].states, x.queues[i + 1].refs, v.text)
         // what it did to the JVM
         && GoesAsFar(w, k) && x.jvms[i + 1] == Direct(w, k).jvm && c.performed == Direct(w, k).performed
         // what Java got
         && (JavaOutcome(c.pc, boxes).Some? <==>
             Deliverable(PassedBy(x, i), v.call.returnClass, v.text) && ReturnsReadable(v, w, k, boxes))
         && (c.pc.Finished? ==>
               && Move(w, k).Return?
               && ReachesJava(v.call.returnClass, c.pc, Move(w, k).rax, Move(w, k).xmm0, v.text, boxes))
  }

  /**
   Every call of every series: its native code runs on what throwing calls have left
   pending and then on the call's own arguments, and on nothing else; it takes the JVM
   from where the call before has left it to where its direct run does; and Java gets
   that run's result or an exception, as for a single call.
   */
  lemma EachCallGoesWell<S>(x: Session<S>, others: map<Raw, Object>, i: nat, boxes: Boxes)
    requires IsSession(x, others) && i < |x.calls|
    ensures LegalCall(x.queues[i], x.calls[i].call) && GoesWell(x, i, boxes)
  {
    assert IsShot(x, i);
    QueueBefore(x, others, i);
    var v, s := x.calls[i], x.queues[i];
    if NoNull(v.call) {
      assert PassedBy(x, i) == Passing(v, s);
      ShotGoesWell(v, s, others, x.shots[i].states, boxes);
    }
  }

  lemma ShotGoesWell<S>(v: Invocation<S>, s: State, others: map<Raw, Object>, states: seq<System<S>>, boxes: Boxes)
    requires Runnable(v, s, others) && IsExecution(Sent(v, s).1, states) && IsFinal(states[|states| - 1])
    ensures var (s', w) := Sent(v, s);
            var c := states[|states| - 1].client;
            var k := |c.performed|;
            && RunsOnArguments(Passing(v, s), states, s'.refs, v.text)
            && GoesAsFar(w, k) && c.jvm == Direct(w, k).jvm && c.performed == Direct(w, k).performed
            && (JavaOutcome(c.pc, boxes).Some? <==>
                Deliverable(Passing(v, s), v.call.returnClass, v.text) && ReturnsReadable(v, w, k, boxes))
            && (c.pc.Finished? ==>
                  && Move(w, k).Return?
                  && ReachesJava(v.call.returnClass, c.pc, Move(w, k).rax, Move(w, k).xmm0, v.text, boxes))
  {
    var w := Sent(v, s).1;
    var c := states[|states| - 1].client;
    ServerSeesArguments(v, s, others, states);
    EndsLikeDirectRun(w, states);
    JavaGetsAnswerIff(v, s, others, states, boxes);
    if c.pc.Finished? {
      JavaGetsTheDirectResult(v, s, others, states, |states| - 1, boxes);
    }
    ReturnsHere(v, w, |c.performed|, boxes, s, others);
  }

  /** The direct run of a call that can be delivered returns, if at all, where the conversation has left it. */
  lemma ReturnsHere<S>(v: Invocation<S>, w: World<S>, k: nat, boxes: Boxes, s: State, others: map<Raw, Object>)
    requires Runnable(v, s, others) && w == Sent(v, s).1 && GoesAsFar(w, k)
    ensures Deliverable(Passing(v, s), v.call.returnClass, v.text) ==>
              ((exists n :: ReturnsReadable(v, w, n, boxes)) <==> ReturnsReadable(v, w, k, boxes))
  {
    ArgumentsArrive(v, s, others);
    if Deliverable(Passing(v, s), v.call.returnClass, v.text) {
      forall n: nat | ReturnsReadable(v, w, n, boxes)
        ensures n == k
      {
        assert StopsAt(w, n) && StopsAt(w, k);
      }
    }
  }
}
