/**
 The one trip of a call message: what the server's loader gets of the arguments that
 the client has printed (CFunctionCall.cpp, JniProcessor.cpp, SharedObjectLoader.cpp).
 */
module ArrivingCalls {
  import opened Results
  import opened Cells
  import opened JsonTrees
  import opened Values
  import opened Messages
  import opened NativeLoader
  import opened Handlers

  /** A call as createJniCallMessge builds it: basic values only, and a return placeholder. */
  predicate IsBasicCall(c: CallRecord) {
    BasicArguments(c.arguments) && c.returnValue.Some? && c.returnValue.value.Basic?
  }

  function ResultType(c: CallRecord): BasicType
    requires IsBasicCall(c)
  {
    c.returnValue.value.typ
  }

  /** What the values are after one round of printing and parsing; 0 where the parser throws. */
  function Rereads(vs: seq<BasicValue>, t: Text): (views: seq<int>)
    ensures |views| == |vs|
  {
    seq(|vs|, i requires 0 <= i < |vs| => match Reread(vs[i].typ, vs[i].raw, t) case Some(n) => n case None => 0)
  }

  predicate AllReread(vs: seq<BasicValue>, t: Text) {
    forall i :: 0 <= i < |vs| ==> Reread(vs[i].typ, vs[i].raw, t).Some?
  }

  /** The server can parse every argument and the placeholder. */
  predicate Readable(c: CallRecord, t: Text)
    requires IsBasicCall(c)
  {
    AllReread(AsBasic(c.arguments), t) && Reread(ResultType(c), c.returnValue.value.raw, t).Some?
  }

  /** The parameters with which the server runs the native function. */
  function Views(c: CallRecord, t: Text): seq<int>
    requires IsBasicCall(c)
  {
    Rereads(AsBasic(c.arguments), t)
  }

  predicate Delivers(c: CallRecord, t: Text)
    requires IsBasicCall(c)
  {
    Readable(c, t) && ArityOk(AsBasic(c.arguments))
  }

  /** Why the server throws on a call that it cannot deliver. */
  function RefusalOf(c: CallRecord, t: Text): Failure
    requires IsBasicCall(c) && !Delivers(c, t)
  {
    if !Readable(c, t) then BadCast
    else if |Reals(AsBasic(c.arguments))| > MAX_REALS then TooManyReals
    else TooManyWords
  }

  // Parsing the printed call

  predicate ReadAs(v: BasicValue, w: Value, t: Text) {
    w.Basic? && w.typ == v.typ && Reread(v.typ, v.raw, t) == Some(Decode(w.typ, w.raw))
  }

  predicate AllReadAs(vs: seq<BasicValue>, ws: seq<Value>, t: Text) {
    |ws| == |vs| && forall i :: 0 <= i < |vs| ==> ReadAs(vs[i], ws[i], t)
  }

  predicate CallReadAs(c: CallRecord, d: CallRecord, t: Text)
    requires IsBasicCall(c)
  {
    && d.methodName == c.methodName && d.sharedObjectPath == c.sharedObjectPath
    && AllReadAs(AsBasic(c.arguments), d.arguments, t)
    && d.returnValue.Some? && ReadAs(c.returnValue.value, d.returnValue.value, t)
  }

  /** The factory reads a printed basic value as predicted, or throws as predicted. */
  lemma ValueIsRead(v: BasicValue, garbage: Raw, t: Text)
    ensures var r := BuildFromJson(ToJson(v, t), garbage, t);
            if Reread(v.typ, v.raw, t).Some? then r.Ok? && ReadAs(v, r.value, t) else r == Err(BadCast)
  {
    OneRound(v.typ, v.raw, garbage, t);
    BuildBasic(v.typ, PrintBasic(v.typ, v.raw, t), garbage, t);
  }

  lemma {:induction false} ItemsAreRead(vs: seq<BasicValue>, g: Garbage, t: Text)
    ensures var r := ParseItems(ItemsToJson(vs, t), g, t);
            if AllReread(vs, t) then r.Ok? && AllReadAs(vs, r.value, t) else r == Err(BadCast)
  {
    if vs != [] {
      var n := |vs| - 1;
      LastItem(vs, g, t);
      ItemsAreRead(vs[..n], g, t);
      ValueIsRead(vs[n], g(n), t);
      OneMoreRead(vs, ParseItems(ItemsToJson(vs[..n], t), g, t), BuildFromJson(ToJson(vs[n], t), g(n), t), t);
    }
  }

  lemma OneMoreRead(vs: seq<BasicValue>, front: Result<seq<Value>>, last: Result<Value>, t: Text)
    requires vs != []
    requires var init := vs[..|vs| - 1];
             if AllReread(init, t) then front.Ok? && AllReadAs(init, front.value, t) else front == Err(BadCast)
    requires var v := vs[|vs| - 1];
             if Reread(v.typ, v.raw, t).Some? then last.Ok? && ReadAs(v, last.value, t) else last == Err(BadCast)
    ensures var r := Joined(front, last);
            if AllReread(vs, t) then r.Ok? && AllReadAs(vs, r.value, t) else r == Err(BadCast)
  {
    var n := |vs| - 1;
    assert vs == vs[..n] + [vs[n]];
    AllRereadSnoc(vs[..n], vs[n], t);
    if AllReread(vs, t) {
      forall i | 0 <= i < n
        ensures ReadAs(vs[i], Joined(front, last).value[i], t)
      {
        assert vs[i] == vs[..n][i];
      }
    }
  }

  lemma AllRereadSnoc(vs: seq<BasicValue>, v: BasicValue, t: Text)
    ensures AllReread(vs + [v], t) <==> AllReread(vs, t) && Reread(v.typ, v.raw, t).Some?
  {
    var longer := vs + [v];
    if AllReread(longer, t) {
      assert longer[|vs|] == v;
      forall i | 0 <= i < |vs|
        ensures Reread(vs[i].typ, vs[i].raw, t).Some?
      {
        assert longer[i] == vs[i];
      }
    }
  }

  /** The server's constructor reads every argument and the placeholder as predicted, or throws. */
  lemma CallIsRead(c: CallRecord, g: Garbage, t: Text)
    requires IsBasicCall(c)
    ensures var r := CallFromJson(CallToJson(c, t), g, t);
            if Readable(c, t) then r.Ok? && CallReadAs(c, r.value, t) else r == Err(BadCast)
  {
    CallFields(c, t);
    ItemsAreRead(AsBasic(c.arguments), g, t);
    ValueIsRead(c.returnValue.value, g(|c.arguments|), t);
  }

  // Loading the parsed call

  /** How many arguments go to either kind of register depends on their types only. */
  lemma {:induction false} SameCounts(vs: seq<BasicValue>, ws: seq<BasicValue>)
    requires Types(vs) == Types(ws)
    ensures |Reals(vs)| == |Reals(ws)| && |Words(vs)| == |Words(ws)|
  {
    if vs != [] {
      var n := |vs| - 1;
      assert Types(vs)[n] == Types(ws)[n];
      assert Types(vs[..n]) == Types(vs)[..n] == Types(ws)[..n] == Types(ws[..n]);
      SameCounts(vs[..n], ws[..n]);
    }
  }

  lemma ReadValues(vs: seq<BasicValue>, ws: seq<BasicValue>, t: Text)
    requires AllReadAs(vs, ws, t)
    ensures Types(ws) == Types(vs) && Decodes(ws) == Rereads(vs, t)
  {
    forall i | 0 <= i < |vs|
      ensures ws[i].typ == vs[i].typ && Decodes(ws)[i] == Rereads(vs, t)[i]
    {
      assert ReadAs(vs[i], ws[i], t);
    }
  }

  /** The parsed call is loaded with the predicted views, or refused for its arity. */
  lemma ArrivedCall(c: CallRecord, d: CallRecord, t: Text)
    requires IsBasicCall(c) && Readable(c, t) && CallReadAs(c, d, t)
    ensures IsBasicCall(d)
    ensures Types(AsBasic(d.arguments)) == Types(AsBasic(c.arguments))
    ensures Decodes(AsBasic(d.arguments)) == Views(c, t)
    ensures ArityOk(AsBasic(d.arguments)) <==> Delivers(c, t)
    ensures ServerLoad(d) ==
            if Delivers(c, t) then Computing(Views(c, t), ResultType(c), []) else Ended(RefusalOf(c, t))
  {
    forall v | v in d.arguments
      ensures v.Basic?
    {
      var j :| 0 <= j < |d.arguments| && d.arguments[j] == v;
      assert ReadAs(AsBasic(c.arguments)[j], d.arguments[j], t);
    }
    ReadValues(AsBasic(c.arguments), AsBasic(d.arguments), t);
    SameCounts(AsBasic(c.arguments), AsBasic(d.arguments));
  }

  /**
   The call message in the server's main loop: whatever the parser leaves around the
   values, the native function is started on the reread arguments exactly if all of them
   and the placeholder parse and the arity fits; otherwise the server throws.
   */
  lemma CallArrives(c: CallRecord, line: string, g: Garbage, t: Text)
    requires IsBasicCall(c) && t.parse(line) == Some(MessageToJson(Call(c), t))
    ensures ServerMain(t, line, g) ==
            if Delivers(c, t) then Computing(Views(c, t), ResultType(c), []) else Ended(RefusalOf(c, t))
    ensures var m := ParseLine(t, line, g);
            if Readable(c, t) then m.Ok? && m.value.Call? else m == Err(BadCast)
  {
    FactoryDispatch(Call(c), CallToJson(c, t), g, t);
    CallIsRead(c, g, t);
    if Readable(c, t) {
      ArrivedCall(c, CallFromJson(CallToJson(c, t), g, t).value, t);
    }
  }
}
