/**
 The argument queue between Java and the client, with its JNI references
 (JniArgumentRepository.cpp, JniClientImplementation.java, and
 createJniCallMessge of JniClient.cpp).
 */
module ArgumentQueue {
  import opened Results
  import opened Cells
  import opened JsonTrees
  import opened Values
  import opened Messages
  import opened NativeLoader

  /** The identity of a Java object. */
  type Object = nat

  /** The JVM's live reference handles and the objects they name. */
  datatype Refs = Refs(globals: map<Raw, Object>, locals: map<Raw, Object>)
  {
    function ObjectOf(handle: Raw): Object {
      if handle in locals then locals[handle] else if handle in globals then globals[handle] else 0
    }

    /** A handle that the JVM may give to a new reference. */
    predicate Unused(handle: Raw) {
      handle != 0 && handle !in globals && handle !in locals
    }
  }

  datatype State = State(queue: seq<BasicValue>, refs: Refs)

  /** A non-null reference entry. */
  predicate IsHeld(v: BasicValue) {
    IsReference(v.typ) && v.raw != 0
  }

  // The operations

  /** `handle` is the handle that NewGlobalRef returns, if it is called. */
  function Push(s: State, v: BasicValue, handle: Raw): State {
    if IsHeld(v) then
      State(s.queue + [Basic(v.typ, handle)], s.refs.(globals := s.refs.globals[handle := s.refs.ObjectOf(v.raw)]))
    else s.(queue := s.queue + [v])
  }

  /** `handle` is the handle that NewLocalRef returns, if it is called. */
  function Pop(s: State, handle: Raw): (State, BasicValue)
    requires s.queue != []
  {
    var v := s.queue[0];
    if IsHeld(v) then
      (State(s.queue[1..], Refs(s.refs.globals - {v.raw}, s.refs.locals[handle := s.refs.ObjectOf(v.raw)])),
       Basic(v.typ, handle))
    else (s.(queue := s.queue[1..]), v)
  }

  function PopReturn(s: State): (State, BasicValue)
    requires s.queue != []
  {
    (s.(queue := s.queue[..|s.queue| - 1]), s.queue[|s.queue| - 1])
  }

  function Held(queue: seq<BasicValue>): (handles: set<Raw>)
    ensures forall h :: h in handles <==> exists i :: 0 <= i < |queue| && IsHeld(queue[i]) && queue[i].raw == h
  {
    set i | 0 <= i < |queue| && IsHeld(queue[i]) :: queue[i].raw
  }

  function Clear(s: State): State {
    State([], s.refs.(globals := s.refs.globals - Held(s.queue)))
  }

  // Conservation of global references

  predicate Distinct(queue: seq<BasicValue>) {
    forall i, j :: 0 <= i < j < |queue| && IsHeld(queue[i]) && IsHeld(queue[j]) ==> queue[i].raw != queue[j].raw
  }

  /** Apart from the references `others`, the live global ones are exactly those of the queue, one per entry. */
  predicate Conserved(s: State, others: map<Raw, Object>) {
    && s.refs.globals.Keys == others.Keys + Held(s.queue)
    && others.Keys !! Held(s.queue)
    && Distinct(s.queue)
    && forall h :: h in others ==> s.refs.globals[h] == others[h]
  }

  datatype Operation = PushOp(v: BasicValue, handle: Raw) | PopOp(handle: Raw) | PopReturnOp | ClearOp

  /** What callers and the JVM guarantee: unused handles, a non-empty queue, a null or non-reference placeholder. */
  predicate Legal(s: State, op: Operation) {
    match op
    case PushOp(v, handle) => IsHeld(v) ==> s.refs.Unused(handle)
    case PopOp(handle) => s.queue != [] && (IsHeld(s.queue[0]) ==> s.refs.Unused(handle))
    case PopReturnOp => s.queue != [] && !IsHeld(s.queue[|s.queue| - 1])
    case ClearOp => true
  }

  function Apply(s: State, op: Operation): State
    requires Legal(s, op)
  {
    match op
    case PushOp(v, handle) => Push(s, v, handle)
    case PopOp(handle) => Pop(s, handle).0
    case PopReturnOp => PopReturn(s).0
    case ClearOp => Clear(s)
  }

  predicate LegalRun(s: State, ops: seq<Operation>)
    decreases |ops|
  {
    ops != [] ==> Legal(s, ops[0]) && LegalRun(Apply(s, ops[0]), ops[1..])
  }

  function Run(s: State, ops: seq<Operation>): State
    requires LegalRun(s, ops)
    decreases |ops|
  {
    if ops == [] then s else Run(Apply(s, ops[0]), ops[1..])
  }

  lemma HeldSnoc(queue: seq<BasicValue>, v: BasicValue)
    ensures Held(queue + [v]) == Held(queue) + if IsHeld(v) then {v.raw} else {}
  {
    var longer := queue + [v];
    forall h | h in Held(queue)
      ensures h in Held(longer)
    {
      var i :| 0 <= i < |queue| && IsHeld(queue[i]) && queue[i].raw == h;
      assert longer[i] == queue[i];
    }
    if IsHeld(v) {
      assert longer[|queue|] == v;
    }
  }

  lemma HeldCons(v: BasicValue, queue: seq<BasicValue>)
    ensures Held([v] + queue) == Held(queue) + if IsHeld(v) then {v.raw} else {}
  {
    var longer := [v] + queue;
    forall h | h in Held(queue)
      ensures h in Held(longer)
    {
      var i :| 0 <= i < |queue| && IsHeld(queue[i]) && queue[i].raw == h;
      assert longer[i + 1] == queue[i];
    }
    if IsHeld(v) {
      assert longer[0] == v;
    }
  }

  lemma PushConserves(s: State, v: BasicValue, handle: Raw, others: map<Raw, Object>)
    requires Conserved(s, others) && (IsHeld(v) ==> s.refs.Unused(handle))
    ensures Conserved(Push(s, v, handle), others)
  {
    var w := if IsHeld(v) then Basic(v.typ, handle) else v;
    HeldSnoc(s.queue, w);
    forall i | 0 <= i < |s.queue| && IsHeld(s.queue[i])
      ensures s.queue[i].raw in s.refs.globals
    {
      assert s.queue[i].raw in Held(s.queue);
    }
  }

  lemma PopConserves(s: State, handle: Raw, others: map<Raw, Object>)
    requires Conserved(s, others) && s.queue != []
    ensures Conserved(Pop(s, handle).0, others)
    // the global reference that is deleted is alive
    ensures IsHeld(s.queue[0]) ==> s.queue[0].raw in s.refs.globals
  {
    var v := s.queue[0];
    assert s.queue == [v] + s.queue[1..];
    HeldCons(v, s.queue[1..]);
  }

  /** Taking the return placeholder conserves references exactly when it holds none. */
  lemma PopReturnConservesIff(s: State, others: map<Raw, Object>)
    requires Conserved(s, others) && s.queue != []
    ensures Conserved(PopReturn(s).0, others) <==> !IsHeld(s.queue[|s.queue| - 1])
  {
    var n := |s.queue| - 1;
    var last := s.queue[n];
    assert s.queue == s.queue[..n] + [last];
    HeldSnoc(s.queue[..n], last);
  }

  /** Over every legal run, no global reference is lost and none is invented; an empty queue leaves none. */
  lemma {:induction false} RunConserves(s: State, ops: seq<Operation>, others: map<Raw, Object>)
    requires Conserved(s, others) && LegalRun(s, ops)
    ensures Conserved(Run(s, ops), others)
    ensures Run(s, ops).queue == [] ==> Run(s, ops).refs.globals == others
    decreases |ops|
  {
    if ops != [] {
      match ops[0] {
        case PushOp(v, handle) => PushConserves(s, v, handle, others);
        case PopOp(handle) => PopConserves(s, handle, others);
        case PopReturnOp => PopReturnConservesIff(s, others);
        case ClearOp =>
      }
      RunConserves(Apply(s, ops[0]), ops[1..], others);
    }
  }

  // Draining

  /** Handles that the JVM may give to a series of new references. */
  predicate UnusedHandles(refs: Refs, handles: seq<Raw>) {
    && (forall i :: 0 <= i < |handles| ==> refs.Unused(handles[i]))
    && (forall i, j :: 0 <= i < j < |handles| ==> handles[i] != handles[j])
  }

  function Drain(s: State, handles: seq<Raw>): (r: (State, seq<BasicValue>))
    requires |handles| >= |s.queue|
    ensures r.0.queue == [] && |r.1| == |s.queue|
    decreases |s.queue|
  {
    if s.queue == [] then (s, [])
    else
      var (s1, v) := Pop(s, handles[0]);
      var (s2, vs) := Drain(s1, handles[1..]);
      (s2, [v] + vs)
  }

  /** An entry comes out as it went in; a reference as a new local handle of the same object. */
  predicate Delivered(v: BasicValue, before: Refs, w: BasicValue, after: Refs) {
    && w.typ == v.typ
    && if IsHeld(v) then w.raw != 0 && w.raw in after.locals && after.locals[w.raw] == before.ObjectOf(v.raw)
       else w.raw == v.raw
  }

  lemma {:induction false} DrainDelivers(s: State, handles: seq<Raw>, others: map<Raw, Object>)
    requires Conserved(s, others) && |handles| >= |s.queue| && UnusedHandles(s.refs, handles)
    requires s.refs.globals.Keys !! s.refs.locals.Keys
    ensures var (s', vs) := Drain(s, handles);
            && s'.refs.globals == others
            && (forall i :: 0 <= i < |vs| ==> Delivered(s.queue[i], s.refs, vs[i], s'.refs))
            && (forall h :: h in s.refs.locals ==> h in s'.refs.locals && s'.refs.locals[h] == s.refs.locals[h])
    decreases |s.queue|
  {
    if s.queue == [] {
      assert Held(s.queue) == {};
    } else {
      PopConserves(s, handles[0], others);
      var (s1, v) := Pop(s, handles[0]);
      var rest := handles[1..];
      forall i | 0 <= i < |rest|
        ensures s1.refs.Unused(rest[i])
      {
        assert rest[i] == handles[i + 1] && s.refs.Unused(handles[i + 1]) && handles[0] != handles[i + 1];
      }
      DrainDelivers(s1, rest, others);
      var (s2, vs) := Drain(s1, rest);
      assert Delivered(s.queue[0], s.refs, v, s2.refs);
      forall i | 1 <= i < |s.queue|
        ensures Delivered(s.queue[i], s.refs, ([v] + vs)[i], s2.refs)
      {
        assert Delivered(s1.queue[i - 1], s1.refs, vs[i - 1], s2.refs);
        assert s1.queue[i - 1] == s.queue[i];
        SameObjectAfterPop(s, handles[0], i, others);
      }
    }
  }

  /** Popping the front does not change what a later entry names. */
  lemma SameObjectAfterPop(s: State, handle: Raw, i: nat, others: map<Raw, Object>)
    requires Conserved(s, others) && 1 <= i < |s.queue| && s.refs.Unused(handle)
    ensures IsHeld(s.queue[i]) ==>
              Pop(s, handle).0.refs.ObjectOf(s.queue[i].raw) == s.refs.ObjectOf(s.queue[i].raw)
  {
    if IsHeld(s.queue[i]) {
      assert s.queue[i].raw in Held(s.queue);
      assert IsHeld(s.queue[0]) ==> s.queue[0].raw != s.queue[i].raw;
    }
  }

  // The Java side

  /** A boxed Java argument; references carry the handle under which the JVM passes them. */
  datatype JavaArgument =
    | IntArgument(n: int)
    | FloatArgument(bits: Bits32)
    | ArrayArgument(handle: Raw)
    | ObjectArgument(handle: Raw)
    | NullReference

  datatype ReturnClass = IntClass | FloatClass | ArrayClass | OtherClass

  /** An argument that Java can really have: an int in range, a non-null handle of a live local reference. */
  predicate Exists(a: JavaArgument, refs: Refs) {
    match a
    case IntArgument(n) => InRange(n, Four, true)
    case ArrayArgument(h) => h != 0 && h in refs.locals
    case ObjectArgument(h) => h != 0 && h in refs.locals
    case _ => true
  }

  /** pushArgument and the native push methods; a null argument throws on getClass(). */
  function ToValue(a: JavaArgument, garbage: Raw): (r: Result<BasicValue>)
    ensures r.Err? <==> a.NullReference? || (a.IntArgument? && !InRange(a.n, Four, true))
    ensures a.NullReference? ==> r == Err(NullArgument)
  {
    match a
    case IntArgument(n) => if InRange(n, Four, true) then Ok(Basic(Int, Store(Int, n, garbage))) else Err(OutOfRange)
    case FloatArgument(bits) => Ok(Basic(Float, Overwrite(bits, Four, garbage)))
    case ArrayArgument(h) => Ok(Basic(JArray, h))
    case ObjectArgument(h) => Ok(Basic(JObject, h))
    case NullReference => Err(NullArgument)
  }

  /** pushReturnValue: a zero or null of the declared class. */
  function Placeholder(c: ReturnClass, garbage: Raw): (v: BasicValue)
    ensures !IsHeld(v)
  {
    match c
    case ArrayClass => Basic(JArray, 0)
    case IntClass => Basic(Int, Store(Int, 0, garbage))
    case FloatClass => Basic(Float, Overwrite(0, Four, garbage))
    case OtherClass => Basic(JObject, 0)
  }

  /** The loop of invokeJni: pushes in order and stops at the first null, leaving the earlier entries queued. */
  function PushAll(s: State, args: seq<JavaArgument>, handles: seq<Raw>, g: Garbage): (State, bool)
    requires |handles| >= |args|
  {
    if args == [] then (s, true)
    else
      var n := |args| - 1;
      var (s1, ok) := PushAll(s, args[..n], handles, g);
      var v := ToValue(args[n], g(n));
      if !ok || v.Err? then (s1, false) else (Push(s1, v.value, handles[n]), true)
  }

  /** One Java call up to the message: push, then take the placeholder and drain. */
  datatype JavaCall = JavaCall(args: seq<JavaArgument>, returnClass: ReturnClass,
                               globals: seq<Raw>, locals: seq<Raw>, g: Garbage)

  /** The handles that the JVM gives out during the call are unused ones. */
  predicate LegalCall(s: State, c: JavaCall) {
    && s.refs.globals.Keys !! s.refs.locals.Keys
    && |c.globals| == |c.args| && |c.locals| >= |s.queue| + |c.args|
    && UnusedHandles(s.refs, c.globals + c.locals)
    && forall i :: 0 <= i < |c.args| ==> Exists(c.args[i], s.refs)
  }

  function QueueCall(s: State, c: JavaCall): (State, Result<(seq<BasicValue>, BasicValue)>)
    requires LegalCall(s, c)
  {
    var (s1, ok) := PushAll(s, c.args, c.globals, c.g);
    if !ok then (s1, Err(NullArgument))
    else
      var s2 := Push(s1, Placeholder(c.returnClass, c.g(|c.args|)), 0);
      var (s3, placeholder) := PopReturn(s2);
      PushAllSize(s, c.args, c.globals, c.g);
      var (s4, vs) := Drain(s3, c.locals);
      (s4, Ok((vs, placeholder)))
  }

  lemma {:induction false} PushAllSize(s: State, args: seq<JavaArgument>, handles: seq<Raw>, g: Garbage)
    requires |handles| >= |args|
    ensures var (s', ok) := PushAll(s, args, handles, g);
            && |s.queue| <= |s'.queue| <= |s.queue| + |args|
            && s'.queue[..|s.queue|] == s.queue
            && (ok ==> |s'.queue| == |s.queue| + |args|)
  {
    if args != [] {
      PushAllSize(s, args[..|args| - 1], handles, g);
    }
  }

  /** How far the pushes get. */
  function FirstNull(args: seq<JavaArgument>): (n: nat)
    ensures n <= |args| && (n < |args| ==> args[n].NullReference?)
    ensures forall i :: 0 <= i < n ==> !args[i].NullReference?
  {
    if args == [] || args[0].NullReference? then 0 else 1 + FirstNull(args[1..])
  }

  /** What a pushed argument leaves in the queue: the value, or a new global handle of the same object. */
  predicate Queued(a: JavaArgument, before: Refs, v: BasicValue, after: Refs) {
    match a
    case IntArgument(n) => v.typ.Int? && Decode(Int, v.raw) == n
    case FloatArgument(bits) => v.typ.Float? && Decode(Float, v.raw) == bits
    case ArrayArgument(h) =>
      && v.typ.JArray? && IsHeld(v) && v.raw in after.globals
      && after.globals[v.raw] == before.ObjectOf(h)
    case ObjectArgument(h) =>
      && v.typ.JObject? && IsHeld(v) && v.raw in after.globals
      && after.globals[v.raw] == before.ObjectOf(h)
    case NullReference => false
  }

  /** What the callee's side of the queue gets: the number, or a local handle of the same object. */
  predicate Passed(a: JavaArgument, before: Refs, v: BasicValue, after: Refs) {
    match a
    case IntArgument(n) => v.typ.Int? && Decode(Int, v.raw) == n
    case FloatArgument(bits) => v.typ.Float? && Decode(Float, v.raw) == bits
    case ArrayArgument(h) =>
      && v.typ.JArray? && IsHeld(v) && v.raw in after.locals
      && after.locals[v.raw] == before.ObjectOf(h)
    case ObjectArgument(h) =>
      && v.typ.JObject? && IsHeld(v) && v.raw in after.locals
      && after.locals[v.raw] == before.ObjectOf(h)
    case NullReference => false
  }

  ghost predicate AllPushed(s: State, args: seq<JavaArgument>, s': State, n: nat)
  {
    && n <= |args| && |s'.queue| == |s.queue| + n
    && s'.refs.locals == s.refs.locals
    && (forall h :: h in s.refs.globals ==> h in s'.refs.globals && s'.refs.globals[h] == s.refs.globals[h])
    && forall i :: 0 <= i < n ==> Queued(args[i], s.refs, s'.queue[|s.queue| + i], s'.refs)
  }

  lemma {:induction false} PushAllQueues(s: State, args: seq<JavaArgument>, handles: seq<Raw>, g: Garbage,
                                         others: map<Raw, Object>)
    requires |args| <= |handles| && UnusedHandles(s.refs, handles)
    requires forall i :: 0 <= i < |args| ==> Exists(args[i], s.refs)
    requires Conserved(s, others)
    ensures var (s', ok) := PushAll(s, args, handles, g);
            && (ok <==> FirstNull(args) == |args|)
            && AllPushed(s, args, s', FirstNull(args))
            && Conserved(s', others)
            && s'.refs.globals.Keys <= s.refs.globals.Keys + TakenHandles(handles, |args|)
  {
    if args != [] {
      var n := |args| - 1;
      PushAllQueues(s, args[..n], handles, g, others);
      FirstNullSnoc(args);
      var (s1, ok) := PushAll(s, args[..n], handles, g);
      assert Exists(args[n], s.refs);
      var v := ToValue(args[n], g(n));
      if ok && v.Ok? {
        assert s1.refs.Unused(handles[n]) by {
          assert s.refs.Unused(handles[n]);
        }
        PushOneQueues(s, args, s1, v.value, handles[n], g(n));
        PushConserves(s1, v.value, handles[n], others);
      } else {
        assert forall k :: 0 <= k < FirstNull(args[..n]) ==> args[..n][k] == args[k];
      }
    }
  }

  function TakenHandles(handles: seq<Raw>, n: nat): set<Raw>
    requires n <= |handles|
  {
    set i | 0 <= i < n :: handles[i]
  }

  lemma {:induction false} FirstNullSnoc(args: seq<JavaArgument>)
    requires args != []
    ensures var n := |args| - 1;
            FirstNull(args) == if FirstNull(args[..n]) < n then FirstNull(args[..n])
                               else if args[n].NullReference? then n else n + 1
  {
    var n := |args| - 1;
    if |args| > 1 && !args[0].NullReference? {
      assert args[1..][..n - 1] == args[..n][1..];
      FirstNullSnoc(args[1..]);
    }
  }

  lemma PushOneQueues(s: State, args: seq<JavaArgument>, s1: State, v: BasicValue, handle: Raw, garbage: Raw)
    requires args != [] && AllPushed(s, args[..|args| - 1], s1, |args| - 1)
    requires Exists(args[|args| - 1], s.refs) && ToValue(args[|args| - 1], garbage) == Ok(v)
    requires IsHeld(v) ==> s1.refs.Unused(handle)
    ensures AllPushed(s, args, Push(s1, v, handle), |args|)
  {
    var n := |args| - 1;
    var s2 := Push(s1, v, handle);
    forall i | 0 <= i < n
      ensures Queued(args[i], s.refs, s2.queue[|s.queue| + i], s2.refs)
    {
      assert Queued(args[..n][i], s.refs, s1.queue[|s.queue| + i], s1.refs);
      assert s2.queue[|s.queue| + i] == s1.queue[|s.queue| + i];
    }
    assert s2.queue[|s.queue| + n] == if IsHeld(v) then Basic(v.typ, handle) else v;
    if IsHeld(v) {
      assert v.raw in s.refs.locals;
    }
  }

  /** The message of a call carries what was left in the queue, and then the call's own arguments. */
  ghost predicate CarriesOwnArguments(s: State, c: JavaCall, s': State, vs: seq<BasicValue>) {
    && |vs| == |s.queue| + |c.args|
    && (forall i :: 0 <= i < |s.queue| ==> Delivered(s.queue[i], s.refs, vs[i], s'.refs))
    && forall i :: 0 <= i < |c.args| ==> Passed(c.args[i], s.refs, vs[|s.queue| + i], s'.refs)
  }

  /** Unused handles stay unused while others of the same series are given out. */
  lemma LocalsStayUnused(s: State, c: JavaCall, s1: State)
    requires LegalCall(s, c)
    requires s1.refs.locals == s.refs.locals
    requires s1.refs.globals.Keys <= s.refs.globals.Keys + TakenHandles(c.globals, |c.args|)
    ensures UnusedHandles(s.refs, c.globals)
    ensures UnusedHandles(s1.refs, c.locals)
    ensures s1.refs.globals.Keys !! s1.refs.locals.Keys
  {
    var all := c.globals + c.locals;
    forall i | 0 <= i < |c.globals|
      ensures all[i] == c.globals[i] && s.refs.Unused(c.globals[i])
    {
      assert s.refs.Unused(all[i]);
    }
    forall j | 0 <= j < |c.locals|
      ensures s1.refs.Unused(c.locals[j])
    {
      assert s.refs.Unused(all[|c.globals| + j]) && all[|c.globals| + j] == c.locals[j];
    }
    forall i, j | 0 <= i < j < |c.locals|
      ensures c.locals[i] != c.locals[j]
    {
      assert all[|c.globals| + i] != all[|c.globals| + j];
    }
  }

  lemma PassedThroughQueue(a: JavaArgument, before: Refs, v: BasicValue, mid: Refs, w: BasicValue, after: Refs)
    requires Queued(a, before, v, mid) && Delivered(v, mid, w, after)
    requires mid.globals.Keys !! mid.locals.Keys
    ensures Passed(a, before, w, after)
  {
  }

  /**
   A call without null arguments puts into its message the queue's leftovers and
   then its own arguments, in order, and empties the queue; the global references
   are gone again. A null argument throws and leaves the earlier entries queued.
   */
  lemma CallDelivers(s: State, c: JavaCall, others: map<Raw, Object>)
    requires Conserved(s, others) && LegalCall(s, c)
    ensures var (s', r) := QueueCall(s, c);
            && (r.Ok? <==> FirstNull(c.args) == |c.args|)
            && (r.Ok? ==>
                  && CarriesOwnArguments(s, c, s', r.value.0)
                  && r.value.1 == Placeholder(c.returnClass, c.g(|c.args|))
                  && s'.queue == [] && s'.refs.globals == others)
            && (r.Err? ==> r == Err(NullArgument) && |s'.queue| == |s.queue| + FirstNull(c.args))
            && Conserved(s', others)
  {
    var (s1, ok) := PushAll(s, c.args, c.globals, c.g);
    LocalsStayUnused(s, c, s);
    PushAllQueues(s, c.args, c.globals, c.g, others);
    if ok {
      LocalsStayUnused(s, c, s1);
      PushAllSize(s, c.args, c.globals, c.g);
      assert PopReturn(Push(s1, Placeholder(c.returnClass, c.g(|c.args|)), 0)).0 == s1;
      DrainDelivers(s1, c.locals, others);
      var (s4, vs) := Drain(s1, c.locals);
      CarriesAfterDrain(s, c, s1, s4, vs);
      assert Held(s4.queue) == {};
    }
  }

  lemma CarriesAfterDrain(s: State, c: JavaCall, s1: State, s4: State, vs: seq<BasicValue>)
    requires LegalCall(s, c) && AllPushed(s, c.args, s1, |c.args|)
    requires s1.queue[..|s.queue|] == s.queue && s1.refs.globals.Keys !! s1.refs.locals.Keys
    requires |vs| == |s1.queue| && forall i :: 0 <= i < |vs| ==> Delivered(s1.queue[i], s1.refs, vs[i], s4.refs)
    requires forall i :: 0 <= i < |s.queue| && IsHeld(s.queue[i]) ==> s.queue[i].raw in s.refs.globals
    ensures CarriesOwnArguments(s, c, s4, vs)
  {
    forall i | 0 <= i < |s.queue|
      ensures Delivered(s.queue[i], s.refs, vs[i], s4.refs)
    {
      assert s1.queue[i] == s1.queue[..|s.queue|][i];
    }
    forall i | 0 <= i < |c.args|
      ensures Passed(c.args[i], s.refs, vs[|s.queue| + i], s4.refs)
    {
      PassedThroughQueue(c.args[i], s.refs, s1.queue[|s.queue| + i], s1.refs, vs[|s.queue| + i], s4.refs);
    }
  }

  // What is in the queue and in the message, whatever the handles are

  /** A value as native code will mean it: bits or a number, or a Java object. */
  datatype Content = Plain(typ: BasicType, n: int) | Reference(typ: BasicType, target: Object)

  function ContentOf(v: BasicValue, refs: Refs): Content {
    if IsHeld(v) then Reference(v.typ, refs.ObjectOf(v.raw)) else Plain(v.typ, Decode(v.typ, v.raw))
  }

  function Contents(vs: seq<BasicValue>, refs: Refs): (cs: seq<Content>)
    ensures |cs| == |vs|
  {
    seq(|vs|, i requires 0 <= i < |vs| => ContentOf(vs[i], refs))
  }

  /** What Java means by an argument; there is nothing to mean by a null. */
  function JavaContent(a: JavaArgument, refs: Refs): Content {
    match a
    case IntArgument(n) => Plain(Int, n)
    case FloatArgument(bits) => Plain(Float, bits)
    case ArrayArgument(h) => Reference(JArray, refs.ObjectOf(h))
    case ObjectArgument(h) => Reference(JObject, refs.ObjectOf(h))
    case NullReference => Plain(JObject, 0)
  }

  function JavaContents(args: seq<JavaArgument>, refs: Refs): (cs: seq<Content>)
    ensures |cs| == |args|
  {
    seq(|args|, i requires 0 <= i < |args| => JavaContent(args[i], refs))
  }

  /** Native code can use every reference: its handle is a live local one. */
  predicate AllLocal(vs: seq<BasicValue>, refs: Refs) {
    forall i :: 0 <= i < |vs| && IsHeld(vs[i]) ==> vs[i].raw in refs.locals
  }

  /** In terms of contents: a message is the queue and then the arguments, and a failed call lengthens the queue. */
  lemma CallContents(s: State, c: JavaCall, others: map<Raw, Object>)
    requires Conserved(s, others) && LegalCall(s, c)
    ensures var (s', r) := QueueCall(s, c);
            if r.Ok? then
              && Contents(r.value.0, s'.refs) == Contents(s.queue, s.refs) + JavaContents(c.args, s.refs)
              && AllLocal(r.value.0, s'.refs)
            else
              Contents(s'.queue, s'.refs) ==
              Contents(s.queue, s.refs) + JavaContents(c.args[..FirstNull(c.args)], s.refs)
  {
    CallDelivers(s, c, others);
    var (s', r) := QueueCall(s, c);
    if r.Ok? {
      MessageContents(s, c, s', r.value.0);
    } else {
      QueueContents(s, c, others);
    }
  }

  lemma MessageContents(s: State, c: JavaCall, s': State, vs: seq<BasicValue>)
    requires CarriesOwnArguments(s, c, s', vs)
    ensures Contents(vs, s'.refs) == Contents(s.queue, s.refs) + JavaContents(c.args, s.refs)
    ensures AllLocal(vs, s'.refs)
  {
    var n := |s.queue|;
    forall i | 0 <= i < |vs|
      ensures ContentOf(vs[i], s'.refs) == (Contents(s.queue, s.refs) + JavaContents(c.args, s.refs))[i]
      ensures IsHeld(vs[i]) ==> vs[i].raw in s'.refs.locals
    {
      if i < n {
        DeliveredContent(s.queue[i], s.refs, vs[i], s'.refs);
      } else {
        assert Passed(c.args[i - n], s.refs, vs[n + (i - n)], s'.refs);
        PassedContent(c.args[i - n], s.refs, vs[i], s'.refs);
      }
    }
  }

  lemma DeliveredContent(v: BasicValue, before: Refs, w: BasicValue, after: Refs)
    requires Delivered(v, before, w, after)
    ensures ContentOf(w, after) == ContentOf(v, before) && (IsHeld(w) ==> w.raw in after.locals)
  {
  }

  lemma PassedContent(a: JavaArgument, before: Refs, v: BasicValue, after: Refs)
    requires Passed(a, before, v, after)
    ensures ContentOf(v, after) == JavaContent(a, before) && (IsHeld(v) ==> v.raw in after.locals)
  {
  }

  lemma QueueContents(s: State, c: JavaCall, others: map<Raw, Object>)
    requires Conserved(s, others) && LegalCall(s, c) && FirstNull(c.args) < |c.args|
    ensures var s' := QueueCall(s, c).0;
            Contents(s'.queue, s'.refs) ==
            Contents(s.queue, s.refs) + JavaContents(c.args[..FirstNull(c.args)], s.refs)
  {
    var s' := PushAll(s, c.args, c.globals, c.g).0;
    LocalsStayUnused(s, c, s);
    PushAllQueues(s, c.args, c.globals, c.g, others);
    LocalsStayUnused(s, c, s');
    PushAllSize(s, c.args, c.globals, c.g);
    PushedContents(s, c.args, s', FirstNull(c.args), others);
  }

  lemma PushedContents(s: State, args: seq<JavaArgument>, s': State, n: nat, others: map<Raw, Object>)
    requires Conserved(s, others) && AllPushed(s, args, s', n) && s'.queue[..|s.queue|] == s.queue
    requires s'.refs.globals.Keys !! s'.refs.locals.Keys
    ensures Contents(s'.queue, s'.refs) == Contents(s.queue, s.refs) + JavaContents(args[..n], s.refs)
  {
    var m := |s.queue|;
    forall i | 0 <= i < m
      ensures ContentOf(s'.queue[i], s'.refs) == ContentOf(s.queue[i], s.refs)
    {
      OldContent(s, s', i, others);
    }
    forall i | 0 <= i < n
      ensures ContentOf(s'.queue[m + i], s'.refs) == JavaContent(args[i], s.refs)
    {
      NewContent(args[i], s.refs, s'.queue[m + i], s'.refs);
    }
    forall i | 0 <= i < |s'.queue|
      ensures ContentOf(s'.queue[i], s'.refs) == (Contents(s.queue, s.refs) + JavaContents(args[..n], s.refs))[i]
    {
      assert i >= m ==> s'.queue[i] == s'.queue[m + (i - m)];
    }
  }

  lemma OldContent(s: State, s': State, i: nat, others: map<Raw, Object>)
    requires Conserved(s, others) && i < |s.queue| <= |s'.queue| && s'.queue[..|s.queue|] == s.queue
    requires s'.refs.locals == s.refs.locals
    requires forall h :: h in s.refs.globals ==> h in s'.refs.globals && s'.refs.globals[h] == s.refs.globals[h]
    ensures ContentOf(s'.queue[i], s'.refs) == ContentOf(s.queue[i], s.refs)
  {
    assert s'.queue[i] == s'.queue[..|s.queue|][i];
    if IsHeld(s.queue[i]) {
      assert s.queue[i].raw in Held(s.queue);
    }
  }

  lemma NewContent(a: JavaArgument, before: Refs, v: BasicValue, after: Refs)
    requires Queued(a, before, v, after) && after.globals.Keys !! after.locals.Keys
    ensures ContentOf(v, after) == JavaContent(a, before)
  {
  }

  /** From an empty queue, a call leaves the queue empty exactly when no null follows a pushed argument. */
  lemma NoLeftoversIff(s: State, c: JavaCall, others: map<Raw, Object>)
    requires Conserved(s, others) && LegalCall(s, c) && s.queue == []
    ensures QueueCall(s, c).0.queue == [] <==>
            (FirstNull(c.args) == |c.args| || c.args[0].NullReference?)
  {
    CallDelivers(s, c, others);
  }

  const NOTHING: State := State([], Refs(map[], map[]))

  function FailingCall(g: Garbage): JavaCall {
    JavaCall([IntArgument(7), NullReference], IntClass, [1, 2], [3, 4], g)
  }

  function NextCall(g: Garbage): JavaCall {
    JavaCall([IntArgument(1)], IntClass, [1], [2, 3], g)
  }

  lemma FailingCallLeaves(g: Garbage)
    ensures LegalCall(NOTHING, FailingCall(g))
    ensures QueueCall(NOTHING, FailingCall(g)).0 == NOTHING.(queue := [Basic(Int, Store(Int, 7, g(0)))])
  {
    var c := FailingCall(g);
    assert c.globals + c.locals == [1, 2, 3, 4];
    assert c.args[..1] == [IntArgument(7)] && c.args[..1][..0] == [];
    assert PushAll(NOTHING, [], c.globals, g) == (NOTHING, true);
  }

  /** An int pushed before a null goes out with the next call. */
  lemma LeftoverExample(g: Garbage)
    ensures LegalCall(NOTHING, FailingCall(g))
    ensures var s := QueueCall(NOTHING, FailingCall(g)).0;
            && LegalCall(s, NextCall(g))
            && var r := QueueCall(s, NextCall(g)).1;
               r.Ok? && |r.value.0| == 2 && Decode(Int, r.value.0[0].raw) == 7
  {
    FailingCallLeaves(g);
    var s := QueueCall(NOTHING, FailingCall(g)).0;
    var c := NextCall(g);
    assert c.globals + c.locals == [1, 2, 3];
    CallDelivers(s, c, map[]);
    var (s', r) := QueueCall(s, c);
    assert Delivered(s.queue[0], s.refs, r.value.0[0], s'.refs);
  }

  predicate LegalCalls(s: State, cs: seq<JavaCall>)
    decreases |cs|
  {
    cs != [] ==> LegalCall(s, cs[0]) && LegalCalls(QueueCall(s, cs[0]).0, cs[1..])
  }

  /** Every message of the series carries its own arguments and no others. */
  ghost predicate EachItsOwn(s: State, cs: seq<JavaCall>)
    requires LegalCalls(s, cs)
    decreases |cs|
  {
    cs != [] ==>
      var (s', r) := QueueCall(s, cs[0]);
      && r.Ok? && |r.value.0| == |cs[0].args| && CarriesOwnArguments(s, cs[0], s', r.value.0)
      && s'.queue == []
      && EachItsOwn(s', cs[1..])
  }

  /** Over any number of successive calls without null arguments, nothing leaks from one call into another. */
  lemma {:induction false} SuccessiveCalls(s: State, cs: seq<JavaCall>, others: map<Raw, Object>)
    requires Conserved(s, others) && LegalCalls(s, cs) && s.queue == []
    requires forall k :: 0 <= k < |cs| ==> FirstNull(cs[k].args) == |cs[k].args|
    ensures EachItsOwn(s, cs)
    decreases |cs|
  {
    if cs != [] {
      CallDelivers(s, cs[0], others);
      SuccessiveCalls(QueueCall(s, cs[0]).0, cs[1..], others);
    }
  }

  // The mutable objects

  /** The reference functions of a JNIEnv. The handle that a new reference gets is the JVM's choice. */
  class JniEnv {
    var refs: Refs

    constructor (refs: Refs)
      ensures this.refs == refs
    {
      this.refs := refs;
    }

    method NewGlobalRef(reference: Raw, handle: Raw) returns (r: Raw)
      modifies this
      ensures r == handle
      ensures refs == old(refs).(globals := old(refs).globals[handle := old(refs).ObjectOf(reference)])
    {
      refs := refs.(globals := refs.globals[handle := refs.ObjectOf(reference)]);
      r := handle;
    }

    method NewLocalRef(reference: Raw, handle: Raw) returns (r: Raw)
      modifies this
      ensures r == handle
      ensures refs == old(refs).(locals := old(refs).locals[handle := old(refs).ObjectOf(reference)])
    {
      refs := refs.(locals := refs.locals[handle := refs.ObjectOf(reference)]);
      r := handle;
    }

    method DeleteGlobalRef(reference: Raw)
      modifies this
      ensures refs == old(refs).(globals := old(refs).globals - {reference})
    {
      refs := refs.(globals := refs.globals - {reference});
    }
  }

  class JniArgumentRepository {
    var globalRefArguments: seq<BasicValue>

    constructor ()
      ensures globalRefArguments == []
    {
      globalRefArguments := [];
    }

    function View(env: JniEnv): State
      reads this, env
    {
      State(globalRefArguments, env.refs)
    }

    predicate IsEmpty()
      reads this
    {
      globalRefArguments == []
    }

    method PushArgument(env: JniEnv, basicJniValue: BasicValue, handle: Raw)
      modifies this, env
      ensures View(env) == Push(old(View(env)), basicJniValue, handle)
    {
      var v := basicJniValue;
      if IsHeld(v) {
        var global := env.NewGlobalRef(v.raw, handle);
        v := Basic(v.typ, global);
      }
      globalRefArguments := globalRefArguments + [v];
    }

    method PopArgument(env: JniEnv, handle: Raw) returns (v: BasicValue)
      requires !IsEmpty()
      modifies this, env
      ensures (View(env), v) == Pop(old(View(env)), handle)
    {
      v := globalRefArguments[0];
      globalRefArguments := globalRefArguments[1..];
      if IsHeld(v) {
        var newLocal := env.NewLocalRef(v.raw, handle);
        env.DeleteGlobalRef(v.raw);
        v := Basic(v.typ, newLocal);
      }
    }

    method PopReturnResult() returns (v: BasicValue)
      requires !IsEmpty()
      modifies this
      ensures v == old(globalRefArguments)[|old(globalRefArguments)| - 1]
      ensures globalRefArguments == old(globalRefArguments)[..|old(globalRefArguments)| - 1]
    {
      v := globalRefArguments[|globalRefArguments| - 1];
      globalRefArguments := globalRefArguments[..|globalRefArguments| - 1];
    }

    method ClearArguments(env: JniEnv)
      modifies this, env
      ensures View(env) == Clear(old(View(env)))
    {
      var queue := globalRefArguments;
      var i := 0;
      while i < |queue|
        invariant 0 <= i <= |queue|
        invariant globalRefArguments == queue
        invariant env.refs == old(env.refs).(globals := old(env.refs).globals - Held(queue[..i]))
      {
        assert queue[..i + 1] == queue[..i] + [queue[i]];
        HeldSnoc(queue[..i], queue[i]);
        if IsHeld(queue[i]) {
          env.DeleteGlobalRef(queue[i].raw);
        }
        i := i + 1;
      }
      assert queue[..i] == queue;
      globalRefArguments := [];
    }

    /** The pushes of invokeJni, without the return placeholder. */
    method PushArguments(env: JniEnv, args: seq<JavaArgument>, handles: seq<Raw>, g: Garbage) returns (ok: bool)
      requires |handles| >= |args|
      modifies this, env
      ensures (View(env), ok) == PushAll(old(View(env)), args, handles, g)
    {
      var i := 0;
      while i < |args|
        invariant 0 <= i <= |args|
        invariant (View(env), true) == PushAll(old(View(env)), args[..i], handles, g)
      {
        assert args[..i + 1][..i] == args[..i];
        var v := ToValue(args[i], g(i));
        if v.Err? {
          PushAllStops(old(View(env)), args, i + 1, handles, g);
          return false;
        }
        PushArgument(env, v.value, handles[i]);
        i := i + 1;
      }
      assert args[..i] == args;
      return true;
    }

    /** createJniCallMessge: the placeholder from the back, then the arguments from the front until none is left. */
    method CreateJniCall(env: JniEnv, sharedObjectPath: string, methodName: string, handles: seq<Raw>)
      returns (jniCall: JniCall)
      requires !IsEmpty() && |handles| >= |globalRefArguments| - 1
      modifies this, env
      ensures fresh(jniCall)
      ensures var (s, placeholder) := PopReturn(old(View(env)));
              var (s', vs) := Drain(s, handles);
              && View(env) == s' && IsEmpty()
              && jniCall.View() == CallRecord(methodName, sharedObjectPath, vs, Some(placeholder))
    {
      jniCall := new JniCall();
      var returnResult := PopReturnResult();
      jniCall.SetReturnValue(returnResult);
      ghost var start := View(env);
      ghost var popped: seq<BasicValue> := [];
      var i := 0;
      assert handles[i..] == handles;
      assert popped + Drain(start, handles).1 == Drain(start, handles).1;
      while !IsEmpty()
        invariant 0 <= i <= |handles| && |handles| - i >= |globalRefArguments|
        invariant jniCall.View() == CallRecord("", "", popped, Some(returnResult))
        invariant DrainAfter(popped, View(env), handles[i..]) == Drain(start, handles)
        decreases |globalRefArguments|
      {
        DrainOne(popped, View(env), handles, i);
        var b := PopArgument(env, handles[i]);
        jniCall.PushArgument(b);
        popped := popped + [b];
        i := i + 1;
      }
      jniCall.SetNames(methodName, sharedObjectPath);
    }
  }

  /** The end of a drain of which `popped` has already come out. */
  function DrainAfter(popped: seq<BasicValue>, s: State, handles: seq<Raw>): (State, seq<BasicValue>)
    requires |handles| >= |s.queue|
  {
    var (s', vs) := Drain(s, handles);
    (s', popped + vs)
  }

  lemma DrainOne(popped: seq<BasicValue>, s: State, handles: seq<Raw>, i: nat)
    requires i <= |handles| && |handles| - i >= |s.queue| > 0
    ensures var (s1, v) := Pop(s, handles[i]);
            DrainAfter(popped, s, handles[i..]) == DrainAfter(popped + [v], s1, handles[i + 1..])
  {
    var (s1, v) := Pop(s, handles[i]);
    assert handles[i..][1..] == handles[i + 1..];
    var vs := Drain(s1, handles[i + 1..]).1;
    assert popped + ([v] + vs) == popped + [v] + vs;
  }

  /** Once a push has thrown, the rest of the list is not looked at. */
  lemma {:induction false} PushAllStops(s: State, args: seq<JavaArgument>, n: nat, handles: seq<Raw>, g: Garbage)
    requires n <= |args| <= |handles| && !PushAll(s, args[..n], handles, g).1
    ensures PushAll(s, args, handles, g) == PushAll(s, args[..n], handles, g)
    decreases |args|
  {
    if n == |args| {
      assert args[..n] == args;
    } else {
      var front := args[..|args| - 1];
      assert front[..n] == args[..n];
      PushAllStops(s, front, n, handles, g);
    }
  }
}
