/**
 The call as it would have been inside the JVM: the native code runs on Java's own
 handles, where the server's runs on the new local references of the queue.
 */
module LocalRuns {
  import opened Results
  import opened Cells
  import opened Numerals
  import opened JsonTrees
  import opened Values
  import opened ArgumentQueue
  import opened Handlers
  import opened ArrivingCalls
  import opened Protocol
  import opened JavaResults
  import opened EndToEnd

  /** The native code with these parameters, calling the JVM itself: after k env calls, or where it stopped before. */
  function Local<S>(native: Native, jvm: Jvm<S>, jvm0: S, views: seq<int>, k: nat): DirectState<S> {
    if k == 0 then DirectState(jvm0, [], []) else LocalStep(native, jvm, views, Local(native, jvm, jvm0, views, k - 1))
  }

  function LocalStep<S>(native: Native, jvm: Jvm<S>, views: seq<int>, d: DirectState<S>): DirectState<S> {
    match native(views, d.history)
    case Return(_, _) => d
    case Invoke(r) =>
      if !Supported(r) then d
      else
        var (s, n) := DirectReply(jvm, d.jvm, r);
        DirectState(s, d.history + [n], d.performed + [r])
  }

  /** The direct run is the one on what the server gets. */
  lemma {:induction false} DirectIsLocal<S>(w: World<S>, k: nat)
    requires IsBasicCall(w.call)
    ensures Direct(w, k) == Local(w.native, w.jvm, w.jvm0, Views(w.call, w.text), k)
  {
    if k > 0 {
      DirectIsLocal(w, k - 1);
    }
  }

  // Exchanging handles

  /** Which handles name the same thing. */
  type Likeness = (int, int) -> bool

  predicate LikeViews(types: seq<BasicType>, views: seq<int>, views': seq<int>, like: Likeness) {
    && |views| == |views'| == |types|
    && forall i :: 0 <= i < |types| ==> LikeView(types[i], views[i], views'[i], like)
  }

  predicate LikeView(typ: BasicType, view: int, view': int, like: Likeness) {
    if IsReference(typ) then like(view, view') else view == view'
  }

  predicate LikeRequests(r: Request, r': Request, like: Likeness) {
    match r
    case FindClass(name) => r' == r
    case GetIntArrayElements(a) => r'.GetIntArrayElements? && like(a, r'.handle)
    case GetArrayLength(a) => r'.GetArrayLength? && like(a, r'.handle)
  }

  predicate LikeLogs(rs: seq<Request>, rs': seq<Request>, like: Likeness) {
    |rs| == |rs'| && forall i :: 0 <= i < |rs| ==> LikeRequests(rs[i], rs'[i], like)
  }

  predicate LikeActions(a: Action, a': Action, result: BasicType, like: Likeness) {
    match a
    case Return(rax, xmm0) => a'.Return? && a'.xmm0 == xmm0 && LikeView(result, rax, a'.rax, like)
    case Invoke(r) => a'.Invoke? && LikeRequests(r, a'.request, like)
  }

  /** The native code looks at handles only by passing them to the JVM and returning them. */
  ghost predicate NativeRespects(native: Native, types: seq<BasicType>, result: BasicType, like: Likeness) {
    forall views: seq<int>, views': seq<int>, history: seq<int> :: LikeViews(types, views, views', like) ==>
      LikeActions(native(views, history), native(views', history), result, like)
  }

  /** The JVM answers for the object and not for the handle. */
  ghost predicate JvmRespects<S(!new)>(jvm: Jvm<S>, like: Likeness) {
    forall s: S, a: Raw, a': Raw :: like(a, a') ==> jvm.arrayLength(s, a) == jvm.arrayLength(s, a')
  }

  /** Two runs on like parameters go through the same JVM states with the same replies, like requests and like moves. */
  lemma {:induction false} LikeRuns<S(!new)>(native: Native, jvm: Jvm<S>, jvm0: S, types: seq<BasicType>,
                                             result: BasicType, views: seq<int>, views': seq<int>, like: Likeness,
                                             k: nat)
    requires NativeRespects(native, types, result, like) && JvmRespects(jvm, like)
    requires LikeViews(types, views, views', like)
    ensures var d, d' := Local(native, jvm, jvm0, views, k), Local(native, jvm, jvm0, views', k);
            && d.jvm == d'.jvm && d.history == d'.history && LikeLogs(d.performed, d'.performed, like)
            && LikeActions(native(views, d.history), native(views', d'.history), result, like)
  {
    if k > 0 {
      LikeRuns(native, jvm, jvm0, types, result, views, views', like, k - 1);
      var d, d' := Local(native, jvm, jvm0, views, k - 1), Local(native, jvm, jvm0, views', k - 1);
      var a, a' := native(views, d.history), native(views', d'.history);
      LikeSteps(jvm, d, d', a, a', result, like);
    }
    var h := Local(native, jvm, jvm0, views, k).history;
    assert LikeActions(native(views, h), native(views', h), result, like);
  }

  lemma LikeSteps<S(!new)>(jvm: Jvm<S>, d: DirectState<S>, d': DirectState<S>, a: Action, a': Action, result: BasicType,
                           like: Likeness)
    requires JvmRespects(jvm, like) && LikeActions(a, a', result, like)
    requires d.jvm == d'.jvm && d.history == d'.history && LikeLogs(d.performed, d'.performed, like)
    ensures a.Invoke? && Supported(a.request) ==>
              && DirectReply(jvm, d.jvm, a.request) == DirectReply(jvm, d'.jvm, a'.request)
              && LikeLogs(d.performed + [a.request], d'.performed + [a'.request], like)
  {
    if a.Invoke? && Supported(a.request) && a.request.GetArrayLength? {
      assert like(a.request.handle, a'.request.handle);
    }
  }

  // As if local

  /** The parameters of a local call: Java's own numbers, bits and handles. */
  function JavaViews(args: seq<JavaArgument>): (views: seq<int>)
    ensures |views| == |args|
  {
    seq(|args|, i requires 0 <= i < |args| => JavaView(args[i]))
  }

  function JavaView(a: JavaArgument): int {
    match a
    case IntArgument(n) => n
    case FloatArgument(bits) => bits
    case ArrayArgument(h) => h
    case ObjectArgument(h) => h
    case NullReference => 0
  }

  /** Handles that are equal, or that name one object, before the call and during it. */
  function SameObjects(before: Refs, after: Refs): Likeness {
    (h: int, h': int) => h == h' || (h in before.locals && h' in after.locals && before.locals[h] == after.locals[h'])
  }

  lemma LikeArguments(args: seq<JavaArgument>, before: Refs, views: seq<int>, after: Refs, t: Text)
    requires forall i :: 0 <= i < |args| ==> Exists(args[i], before) && !args[i].NullReference?
    requires SeesAll(JavaContents(args, before), views, after, t)
    requires forall i :: 0 <= i < |args| ==> ContentFaithful(JavaContent(args[i], before), t)
    ensures LikeViews(ContentTypes(JavaContents(args, before)), JavaViews(args), views, SameObjects(before, after))
  {
    var cs := JavaContents(args, before);
    forall i | 0 <= i < |args|
      ensures LikeView(ContentTypes(cs)[i], JavaViews(args)[i], views[i], SameObjects(before, after))
    {
      assert Sees(cs[i], views[i], after, t) && cs[i] == JavaContent(args[i], before);
      LikeArgument(args[i], before, views[i], after, t);
    }
  }

  lemma LikeArgument(a: JavaArgument, before: Refs, view: int, after: Refs, t: Text)
    requires Exists(a, before) && !a.NullReference?
    requires Sees(JavaContent(a, before), view, after, t) && ContentFaithful(JavaContent(a, before), t)
    ensures LikeView(JavaContent(a, before).typ, JavaView(a), view, SameObjects(before, after))
  {
    SeesJava(a, before, view, after, t);
  }

  /** What Java gets of a local call's result: the same, up to the handle of a reference and the decimals of a float. */
  predicate ReachesJavaAsLocal(c: ReturnClass, pc: ClientPc, local: Action, like: Likeness, t: Text, boxes: Boxes) {
    pc.Finished? && local.Return? &&
    match c
    case IntClass => JavaOutcome(pc, boxes) == Some(JavaInt(Decode(Int, local.rax)))
    case FloatClass =>
      && Arrives(Float, local.xmm0, t)
      && JavaOutcome(pc, boxes) == Boxed(boxes.floatValueOf(ArrivedText(Float, local.xmm0, t)), b => JavaFloat(b))
    case _ => ParsePointer(pc.value).Ok? && like(local.rax, ParsePointer(pc.value).value)
  }

  lemma LikeResult(c: ReturnClass, pc: ClientPc, remote: Action, local: Action, like: Likeness, t: Text, boxes: Boxes)
    requires remote.Return? && LikeActions(local, remote, TypeOfClass(c), like)
    requires ReachesJava(c, pc, remote.rax, remote.xmm0, t, boxes)
    ensures ReachesJavaAsLocal(c, pc, local, like, t, boxes)
  {
  }

  /** Before the conversation: the server's views are like Java's own. */
  lemma ViewsAreLike<S>(v: Invocation<S>, s: State, others: map<Raw, Object>)
    requires Runnable(v, s, others) && s.queue == []
    requires PassingFaithful(Passing(v, s), v.call.returnClass, v.text)
    ensures var (s', w) := Sent(v, s);
            LikeViews(ContentTypes(Passing(v, s)), JavaViews(v.call.args), Views(w.call, w.text),
                      SameObjects(s.refs, s'.refs))
  {
    ArgumentsArrive(v, s, others);
    OwnArguments(v, s);
    var (s', w) := Sent(v, s);
    LikeArguments(v.call.args, s.refs, Views(w.call, w.text), s'.refs, v.text);
  }

  /** The local run, move by move, is like the direct run of what the server gets. */
  lemma LocalIsLikeDirect<S(!new)>(w: World<S>, types: seq<BasicType>, result: BasicType, views: seq<int>,
                                   like: Likeness, k: nat)
    requires IsBasicCall(w.call) && LikeViews(types, views, Views(w.call, w.text), like)
    requires NativeRespects(w.native, types, result, like) && JvmRespects(w.jvm, like)
    ensures var local := Local(w.native, w.jvm, w.jvm0, views, k);
            && local.jvm == Direct(w, k).jvm && LikeLogs(local.performed, Direct(w, k).performed, like)
            && LikeActions(w.native(views, local.history), Move(w, k), result, like)
  {
    DirectIsLocal(w, k);
    LikeRuns(w.native, w.jvm, w.jvm0, types, result, views, Views(w.call, w.text), like, k);
  }

  /**
   As if local. For native code and a JVM to which handles of one object are alike, and
   for floats that their decimals keep, a finished invokeJni has left the JVM as the local
   call on Java's own handles leaves it, by the same requests in the same order, up to
   handles of the same objects, and has handed on the local call's result.
   */
  lemma AsIfLocal<S(!new)>(v: Invocation<S>, s: State, others: map<Raw, Object>, states: seq<System<S>>, i: nat,
                           boxes: Boxes)
    requires Runnable(v, s, others) && s.queue == []
    requires PassingFaithful(Passing(v, s), v.call.returnClass, v.text)
    requires IsExecution(Sent(v, s).1, states) && i < |states| && states[i].client.pc.Finished?
    requires var like := SameObjects(s.refs, Sent(v, s).0.refs);
             && NativeRespects(v.native, ContentTypes(Passing(v, s)), TypeOfClass(v.call.returnClass), like)
             && JvmRespects(v.jvm, like)
    ensures var like := SameObjects(s.refs, Sent(v, s).0.refs);
            var c := states[i].client;
            var local := Local(v.native, v.jvm, v.jvm0, JavaViews(v.call.args), |c.performed|);
            && c.jvm == local.jvm && LikeLogs(local.performed, c.performed, like)
            && ReachesJavaAsLocal(v.call.returnClass, c.pc, v.native(JavaViews(v.call.args), local.history), like,
                                  v.text, boxes)
  {
    ArgumentsArrive(v, s, others);
    JavaGetsTheDirectResult(v, s, others, states, i, boxes);
    ViewsAreLike(v, s, others);
    var (s', w) := Sent(v, s);
    var c := states[i].client;
    var types, views, like := ContentTypes(Passing(v, s)), JavaViews(v.call.args), SameObjects(s.refs, s'.refs);
    LocalIsLikeDirect(w, types, TypeOfClass(v.call.returnClass), views, like, |c.performed|);
    var local := v.native(views, Local(v.native, v.jvm, v.jvm0, views, |c.performed|).history);
    LikeResult(v.call.returnClass, c.pc, Move(w, |c.performed|), local, like, v.text, boxes);
  }

  /** From an empty queue a call passes its own arguments, none of them null. */
  lemma OwnArguments<S>(v: Invocation<S>, s: State)
    requires Callable(v, s) && s.queue == []
    ensures Passing(v, s) == JavaContents(v.call.args, s.refs)
    ensures forall i :: 0 <= i < |v.call.args| ==>
              && Exists(v.call.args[i], s.refs) && !v.call.args[i].NullReference?
              && Passing(v, s)[i] == JavaContent(v.call.args[i], s.refs)
  {
  }
}
