/**
 Calls and the four message kinds, their JSON trees, and the factory that
 rebuilds them (JniCall.cpp, CFunctionCall.cpp, JniEnvCall.cpp, JniMessage.cpp,
 JniMessageFactory.cpp).
 */
module Messages {
  import opened Results
  import opened Cells
  import opened JsonTrees
  import opened Values

  /** What fills the unused bytes of the cell of argument i, and of the return value after the arguments. */
  type Garbage = nat -> Raw

  datatype CallRecord = CallRecord(
    methodName: string,
    sharedObjectPath: string,
    arguments: seq<Value>,
    returnValue: Option<Value>)

  datatype Message =
    | Call(call: CallRecord)
    | EnvCall(call: CallRecord)
    | Reply(result: Value)
    | EnvReply(result: Value)

  /** dynamic_cast to JniCallMessage: JniEnvCallMessage is a subclass. */
  predicate IsJniCallMessage(m: Message) {
    m.Call? || m.EnvCall?
  }

  /** dynamic_cast to JniReplyMessage: JniEnvReplyMessage is a subclass. */
  predicate IsJniReplyMessage(m: Message) {
    m.Reply? || m.EnvReply?
  }

  // Printing

  function ItemsToJson(arguments: seq<Value>, t: Text): (items: seq<Json>)
    ensures |items| == |arguments|
    ensures forall i :: 0 <= i < |items| ==> items[i] == ToJson(arguments[i], t)
  {
    seq(|arguments|, i requires 0 <= i < |arguments| => ToJson(arguments[i], t))
  }

  /** A list that never gets an element stays the null tree. */
  function ArgumentsToJson(arguments: seq<Value>, t: Text): Json {
    if arguments == [] then Null else Arr(ItemsToJson(arguments, t))
  }

  function ReturnToJson(returnValue: Option<Value>, t: Text): Json {
    match returnValue
    case None => Str("null")
    case Some(v) => ToJson(v, t)
  }

  /** JniCall::toJson. */
  function CallToJson(c: CallRecord, t: Text): Json {
    Obj(map[
      "methodName" := Str(c.methodName),
      "sharedObjectPath" := Str(c.sharedObjectPath),
      "argumentValues" := ArgumentsToJson(c.arguments, t),
      "returnValue" := ReturnToJson(c.returnValue, t)])
  }

  function ResultToJson(v: Value, t: Text): Json {
    Obj(map["returnValue" := ToJson(v, t)])
  }

  const PACKAGE := "com.valjni.caller."

  function ClassName(m: Message): string {
    match m
    case Call(_) => "JniCallMessage"
    case EnvCall(_) => "JniEnvCallMessage"
    case Reply(_) => "JniReplyMessage"
    case EnvReply(_) => "JniEnvReplyMessage"
  }

  /** toJsonString of the four kinds, as a tree. */
  function MessageToJson(m: Message, t: Text): Json {
    var payload := match m
      case Call(c) => CallToJson(c, t)
      case EnvCall(c) => CallToJson(c, t)
      case Reply(v) => ResultToJson(v, t)
      case EnvReply(v) => ResultToJson(v, t);
    Arr([Str(PACKAGE + ClassName(m)), payload])
  }

  // Parsing

  function ParseItems(items: seq<Json>, g: Garbage, t: Text): (r: Result<seq<Value>>)
    ensures r.Ok? ==> |r.value| == |items|
  {
    if items == [] then Ok([])
    else
      var front :- ParseItems(items[..|items| - 1], g, t);
      var last :- BuildFromJson(items[|items| - 1], g(|items| - 1), t);
      Ok(front + [last])
  }

  function ParseArguments(json: Json, g: Garbage, t: Text): Result<seq<Value>> {
    match json
    case Null => Ok([])
    case Arr(items) => ParseItems(items, g, t)
    case _ => Err(BadJson)
  }

  /** The CFunctionCall and JniCall constructors from JSON. */
  function CallFromJson(json: Json, g: Garbage, t: Text): Result<CallRecord> {
    var list :- Field(json, "argumentValues");
    var arguments :- ParseArguments(list, g, t);
    var returnJson :- Field(json, "returnValue");
    var returnValue :- BuildFromJson(returnJson, g(|arguments|), t);
    var methodName :- TextField(json, "methodName");
    var path :- TextField(json, "sharedObjectPath");
    Ok(CallRecord(methodName, path, arguments, Some(returnValue)))
  }

  /** substr(rfind(".") + 1). */
  function LastSegment(path: string): (name: string)
    ensures '.' !in name
  {
    if path == "" || path[|path| - 1] == '.' then ""
    else
      var front := path[..|path| - 1];
      LastSegment(front) + [path[|path| - 1]]
  }

  /** JniMessageFactory::createMessageFromJson. */
  function MessageFromJson(json: Json, g: Garbage, t: Text): Result<Message> {
    if !json.Arr? || |json.items| < 2 || !json.items[0].Str? then Err(BadJson)
    else
      var name := LastSegment(json.items[0].text);
      var payload := json.items[1];
      if name == "JniCallMessage" then
        var c :- CallFromJson(payload, g, t);
        Ok(Call(c))
      else if name == "JniReplyMessage" then
        var v :- ResultFromJson(payload, g, t);
        Ok(Reply(v))
      else if name == "JniEnvCallMessage" then
        var c :- CallFromJson(payload, g, t);
        Ok(EnvCall(c))
      else if name == "JniEnvReplyMessage" then
        var v :- ResultFromJson(payload, g, t);
        Ok(EnvReply(v))
      else Err(UnknownMessage)
  }

  function ResultFromJson(payload: Json, g: Garbage, t: Text): Result<Value> {
    var json :- Field(payload, "returnValue");
    BuildFromJson(json, g(0), t)
  }

  // Round trip

  predicate SameValues(vs: seq<Value>, ws: seq<Value>) {
    |vs| == |ws| && forall i :: 0 <= i < |vs| ==> SameValue(vs[i], ws[i])
  }

  predicate SameCall(c: CallRecord, d: CallRecord) {
    && c.methodName == d.methodName && c.sharedObjectPath == d.sharedObjectPath
    && SameValues(c.arguments, d.arguments)
    && c.returnValue.Some? == d.returnValue.Some?
    && (c.returnValue.Some? ==> SameValue(c.returnValue.value, d.returnValue.value))
  }

  /** The same kind and the same content, up to unused bytes of cells. */
  predicate SameMessage(m: Message, n: Message) {
    match (m, n)
    case (Call(c), Call(d)) => SameCall(c, d)
    case (EnvCall(c), EnvCall(d)) => SameCall(c, d)
    case (Reply(v), Reply(w)) => SameValue(v, w)
    case (EnvReply(v), EnvReply(w)) => SameValue(v, w)
    case _ => false
  }

  predicate SameKind(m: Message, n: Message) {
    && m.Call? == n.Call? && m.EnvCall? == n.EnvCall?
    && m.Reply? == n.Reply? && m.EnvReply? == n.EnvReply?
  }

  predicate CallRoundTrips(c: CallRecord, t: Text) {
    && AllRoundTrip(c.arguments, t)
    && c.returnValue.Some? && RoundTrips(c.returnValue.value, t)
  }

  predicate MessageRoundTrips(m: Message, t: Text) {
    match m
    case Call(c) => CallRoundTrips(c, t)
    case EnvCall(c) => CallRoundTrips(c, t)
    case Reply(v) => RoundTrips(v, t)
    case EnvReply(v) => RoundTrips(v, t)
  }

  function Joined(front: Result<seq<Value>>, last: Result<Value>): Result<seq<Value>> {
    if front.Err? then front else if last.Err? then Err(last.failure) else Ok(front.value + [last.value])
  }

  lemma ParseLast(items: seq<Json>, g: Garbage, t: Text)
    requires items != []
    ensures var n := |items| - 1;
            ParseItems(items, g, t) == Joined(ParseItems(items[..n], g, t), BuildFromJson(items[n], g(n), t))
  {
  }

  lemma LastItem(vs: seq<Value>, g: Garbage, t: Text)
    requires vs != []
    ensures var n := |vs| - 1;
            ParseItems(ItemsToJson(vs, t), g, t) ==
            Joined(ParseItems(ItemsToJson(vs[..n], t), g, t), BuildFromJson(ToJson(vs[n], t), g(n), t))
  {
    var n := |vs| - 1;
    var items := ItemsToJson(vs, t);
    ParseLast(items, g, t);
    assert items[..n] == ItemsToJson(vs[..n], t);
  }

  lemma {:induction false} ItemsRoundTrip(vs: seq<Value>, g: Garbage, t: Text)
    ensures var r := ParseItems(ItemsToJson(vs, t), g, t);
            (r.Ok? && SameValues(vs, r.value)) <==> AllRoundTrip(vs, t)
  {
    if vs != [] {
      var n := |vs| - 1;
      LastItem(vs, g, t);
      ItemsRoundTrip(vs[..n], g, t);
      ValueRoundTrip(vs[n], g(n), t);
      OneMoreItem(vs, ParseItems(ItemsToJson(vs[..n], t), g, t), BuildFromJson(ToJson(vs[n], t), g(n), t), t);
    }
  }

  lemma OneMoreItem(vs: seq<Value>, front: Result<seq<Value>>, last: Result<Value>, t: Text)
    requires vs != []
    requires (front.Ok? && SameValues(vs[..|vs| - 1], front.value)) <==> AllRoundTrip(vs[..|vs| - 1], t)
    requires (last.Ok? && SameValue(vs[|vs| - 1], last.value)) <==> RoundTrips(vs[|vs| - 1], t)
    ensures var r := Joined(front, last);
            (r.Ok? && SameValues(vs, r.value)) <==> AllRoundTrip(vs, t)
  {
    AllRoundTripSnoc(vs, t);
    if front.Ok? && last.Ok? {
      SameValuesSnoc(vs, front.value, last.value);
    }
  }

  lemma SameValuesSnoc(vs: seq<Value>, front: seq<Value>, last: Value)
    requires vs != []
    ensures SameValues(vs, front + [last]) <==>
            SameValues(vs[..|vs| - 1], front) && SameValue(vs[|vs| - 1], last)
  {
    var n := |vs| - 1;
    var ws := front + [last];
    if SameValues(vs, ws) {
      assert ws[n] == last;
      forall i | 0 <= i < n ensures SameValue(vs[..n][i], front[i]) {
        assert SameValue(vs[i], ws[i]);
      }
    }
  }

  predicate AllRoundTrip(vs: seq<Value>, t: Text) {
    forall i :: 0 <= i < |vs| ==> RoundTrips(vs[i], t)
  }

  lemma AllRoundTripSnoc(vs: seq<Value>, t: Text)
    requires vs != []
    ensures AllRoundTrip(vs, t) <==> AllRoundTrip(vs[..|vs| - 1], t) && RoundTrips(vs[|vs| - 1], t)
  {
  }

  lemma ArgumentsRoundTrip(vs: seq<Value>, g: Garbage, t: Text)
    ensures var r := ParseArguments(ArgumentsToJson(vs, t), g, t);
            (r.Ok? && SameValues(vs, r.value)) <==> AllRoundTrip(vs, t)
  {
    ItemsRoundTrip(vs, g, t);
  }

  lemma CallFields(c: CallRecord, t: Text)
    ensures var fields := CallToJson(c, t).fields;
            && Field(CallToJson(c, t), "argumentValues") == Ok(ArgumentsToJson(c.arguments, t))
            && Field(CallToJson(c, t), "returnValue") == Ok(ReturnToJson(c.returnValue, t))
            && TextField(CallToJson(c, t), "methodName") == Ok(c.methodName)
            && TextField(CallToJson(c, t), "sharedObjectPath") == Ok(c.sharedObjectPath)
  {
    assert |"argumentValues"| == 14 && |"returnValue"| == 11 && |"methodName"| == 10 && |"sharedObjectPath"| == 16;
  }

  /** The JSON of a call: an empty list is null, a missing return value is the word null. */
  lemma CallShape(c: CallRecord, t: Text)
    ensures var json := CallToJson(c, t);
            && json.Obj? && json.fields.Keys == {"methodName", "sharedObjectPath", "argumentValues", "returnValue"}
            && TextField(json, "methodName") == Ok(c.methodName)
            && TextField(json, "sharedObjectPath") == Ok(c.sharedObjectPath)
            && Field(json, "argumentValues") == Ok(if c.arguments == [] then Null else Arr(ItemsToJson(c.arguments, t)))
            && Field(json, "returnValue") ==
               Ok(if c.returnValue.None? then Str("null") else ToJson(c.returnValue.value, t))
  {
    CallFields(c, t);
  }

  /** The names of the Java classes. */
  lemma ClassPaths(m: Message)
    ensures PACKAGE + ClassName(m) ==
            match m
            case Call(_) => "com.valjni.caller.JniCallMessage"
            case EnvCall(_) => "com.valjni.caller.JniEnvCallMessage"
            case Reply(_) => "com.valjni.caller.JniReplyMessage"
            case EnvReply(_) => "com.valjni.caller.JniEnvReplyMessage"
  {
    assert "com.valjni.caller." + "JniCallMessage" == "com.valjni.caller.JniCallMessage";
    assert "com.valjni.caller." + "JniEnvCallMessage" == "com.valjni.caller.JniEnvCallMessage";
    assert "com.valjni.caller." + "JniReplyMessage" == "com.valjni.caller.JniReplyMessage";
    assert "com.valjni.caller." + "JniEnvReplyMessage" == "com.valjni.caller.JniEnvReplyMessage";
  }

  /** The JSON of a message: a pair of the Java class name and the payload. */
  lemma MessageShape(m: Message, t: Text)
    ensures var json := MessageToJson(m, t);
            && json.Arr? && |json.items| == 2
            && json.items[0] == Str(PACKAGE + ClassName(m))
            && json.items[1] == match m
                                case Call(c) => CallToJson(c, t)
                                case EnvCall(c) => CallToJson(c, t)
                                case Reply(v) => Obj(map["returnValue" := ToJson(v, t)])
                                case EnvReply(v) => Obj(map["returnValue" := ToJson(v, t)])
  {
  }

  lemma CallRoundTrip(c: CallRecord, g: Garbage, t: Text)
    ensures var r := CallFromJson(CallToJson(c, t), g, t);
            (r.Ok? && SameCall(c, r.value)) <==> CallRoundTrips(c, t)
  {
    CallFields(c, t);
    ArgumentsRoundTrip(c.arguments, g, t);
    var arguments := ParseArguments(ArgumentsToJson(c.arguments, t), g, t);
    if c.returnValue.Some? && arguments.Ok? {
      ValueRoundTrip(c.returnValue.value, g(|arguments.value|), t);
    }
  }

  lemma {:induction false} LastSegmentOf(front: string, name: string)
    requires '.' !in name
    ensures LastSegment(front + "." + name) == name
  {
    var path := front + "." + name;
    if name != "" {
      var shorter := name[..|name| - 1];
      assert path[..|path| - 1] == front + "." + shorter;
      LastSegmentOf(front, shorter);
      assert name == shorter + [name[|name| - 1]];
      assert name[|name| - 1] in name;
    }
  }

  lemma ClassNameOf(m: Message)
    ensures LastSegment(PACKAGE + ClassName(m)) == ClassName(m)
  {
    var front := "com.valjni.caller";
    assert PACKAGE + ClassName(m) == front + "." + ClassName(m);
    assert '.' !in ClassName(m);
    LastSegmentOf(front, ClassName(m));
  }

  lemma ClassNamesDiffer(m: Message)
    ensures ClassName(m) == "JniCallMessage" <==> m.Call?
    ensures ClassName(m) == "JniEnvCallMessage" <==> m.EnvCall?
    ensures ClassName(m) == "JniReplyMessage" <==> m.Reply?
    ensures ClassName(m) == "JniEnvReplyMessage" <==> m.EnvReply?
  {
    assert |"JniCallMessage"| == 14 && |"JniEnvCallMessage"| == 17;
    assert |"JniReplyMessage"| == 15 && |"JniEnvReplyMessage"| == 18;
  }

  /**
   The factory applied to a printed message gives a message of the same kind and
   content, exactly when every carried value round trips; a missing return value
   does not.
   */
  lemma MessageRoundTrip(m: Message, g: Garbage, t: Text)
    ensures var r := MessageFromJson(MessageToJson(m, t), g, t);
            (r.Ok? && SameMessage(m, r.value)) <==> MessageRoundTrips(m, t)
    ensures var r := MessageFromJson(MessageToJson(m, t), g, t);
            r.Ok? ==> SameKind(m, r.value)
  {
    match m {
      case Call(c) =>
        FactoryDispatch(m, CallToJson(c, t), g, t);
        CallRoundTrip(c, g, t);
      case EnvCall(c) =>
        FactoryDispatch(m, CallToJson(c, t), g, t);
        CallRoundTrip(c, g, t);
      case Reply(v) =>
        FactoryDispatch(m, ResultToJson(v, t), g, t);
        ResultRoundTrip(v, g, t);
      case EnvReply(v) =>
        FactoryDispatch(m, ResultToJson(v, t), g, t);
        ResultRoundTrip(v, g, t);
    }
  }

  lemma ResultRoundTrip(v: Value, g: Garbage, t: Text)
    ensures ResultFromJson(ResultToJson(v, t), g, t) == BuildFromJson(ToJson(v, t), g(0), t)
    ensures var r := ResultFromJson(ResultToJson(v, t), g, t);
            (r.Ok? && SameValue(v, r.value)) <==> RoundTrips(v, t)
  {
    ValueRoundTrip(v, g(0), t);
  }

  /** The class name alone selects the constructor. */
  lemma FactoryDispatch(m: Message, payload: Json, g: Garbage, t: Text)
    ensures var r := MessageFromJson(Arr([Str(PACKAGE + ClassName(m)), payload]), g, t);
            if m.Call? || m.EnvCall? then
              var c := CallFromJson(payload, g, t);
              r == if c.Err? then Err(c.failure) else if m.Call? then Ok(Call(c.value)) else Ok(EnvCall(c.value))
            else
              var v := ResultFromJson(payload, g, t);
              r == if v.Err? then Err(v.failure) else if m.Reply? then Ok(Reply(v.value)) else Ok(EnvReply(v.value))
  {
    ClassNameOf(m);
    ClassNamesDiffer(m);
  }

  /** What the factory refuses, and that it does not look behind the second element. */
  lemma OddMessages(json: Json, more: seq<Json>, g: Garbage, t: Text)
    ensures !json.Arr? || |json.items| < 2 || !json.items[0].Str? ==> MessageFromJson(json, g, t) == Err(BadJson)
    ensures json.Arr? && |json.items| >= 2 && json.items[0].Str? ==>
              var name := LastSegment(json.items[0].text);
              && (name !in {"JniCallMessage", "JniReplyMessage", "JniEnvCallMessage", "JniEnvReplyMessage"} ==>
                    MessageFromJson(json, g, t) == Err(UnknownMessage))
              && MessageFromJson(Arr(json.items + more), g, t) == MessageFromJson(json, g, t)
  {
  }

  /** A call needs its four fields: a list or null, a value, and two strings. */
  lemma CallNeeds(json: Json, g: Garbage, t: Text)
    ensures var list, returned := Field(json, "argumentValues"), Field(json, "returnValue");
            CallFromJson(json, g, t).Ok? <==>
            && list.Ok? && (list.value.Null? || list.value.Arr?) && returned.Ok?
            && TextField(json, "methodName").Ok? && TextField(json, "sharedObjectPath").Ok?
            && var arguments := ParseItems(if list.value.Null? then [] else list.value.items, g, t);
               arguments.Ok? && BuildFromJson(returned.value, g(|arguments.value|), t).Ok?
  {
  }

  // The mutable objects

  /** A JniCall or JniEnvCall under construction. Every stored value is a clone, so values stand for the objects. */
  class JniCall {
    var methodName: string
    var sharedObjectPath: string
    var arguments: seq<Value>
    var returnValue: Option<Value>

    constructor ()
      ensures View() == CallRecord("", "", [], None)
    {
      methodName := "";
      sharedObjectPath := "";
      arguments := [];
      returnValue := None;
    }

    function View(): CallRecord
      reads this
    {
      CallRecord(methodName, sharedObjectPath, arguments, returnValue)
    }

    method PushArgument(v: Value)
      modifies this
      ensures View() == old(View()).(arguments := old(arguments) + [v])
    {
      arguments := arguments + [v];
    }

    method SetReturnValue(v: Value)
      modifies this
      ensures View() == old(View()).(returnValue := Some(v))
    {
      returnValue := Some(v);
    }

    method SetNames(methodName: string, sharedObjectPath: string)
      modifies this
      ensures View() == old(View()).(methodName := methodName, sharedObjectPath := sharedObjectPath)
    {
      this.methodName := methodName;
      this.sharedObjectPath := sharedObjectPath;
    }

    /** The body of the constructors from JSON. */
    method ReadJson(json: Json, g: Garbage, t: Text) returns (r: Result<()>)
      requires arguments == []
      modifies this
      ensures match CallFromJson(json, g, t)
              case Ok(c) => r == Ok(()) && View() == c
              case Err(failure) => r == Err(failure)
    {
      var list :- Field(json, "argumentValues");
      var _ :- ReadArguments(list, g, t);
      var returnJson :- Field(json, "returnValue");
      var v :- BuildFromJson(returnJson, g(|arguments|), t);
      SetReturnValue(v);
      var name :- TextField(json, "methodName");
      var path :- TextField(json, "sharedObjectPath");
      SetNames(name, path);
      return Ok(());
    }

    method ReadArguments(list: Json, g: Garbage, t: Text) returns (r: Result<()>)
      requires arguments == []
      modifies this
      ensures match ParseArguments(list, g, t)
              case Ok(vs) => r == Ok(()) && View() == old(View()).(arguments := vs)
              case Err(failure) => r == Err(failure)
    {
      if list.Null? {
        return Ok(());
      }
      if !list.Arr? {
        return Err(BadJson);
      }
      var items := list.items;
      var i := 0;
      while i < |items|
        invariant 0 <= i <= |items|
        invariant ParseItems(items[..i], g, t) == Ok(arguments)
        invariant View() == old(View()).(arguments := arguments)
      {
        var built := BuildFromJson(items[i], g(i), t);
        ParseOneMore(items, i, arguments, g, t);
        if built.Err? {
          return Err(built.failure);
        }
        PushArgument(built.value);
        i := i + 1;
      }
      assert items[..i] == items;
      return Ok(());
    }

    method Clone() returns (copy: JniCall)
      ensures fresh(copy) && copy.View() == View()
    {
      copy := new JniCall();
      copy.SetNames(methodName, sharedObjectPath);
      if returnValue.Some? {
        copy.SetReturnValue(returnValue.value);
      }
      var i := 0;
      while i < |arguments|
        invariant 0 <= i <= |arguments|
        invariant copy.View() == View().(arguments := arguments[..i])
      {
        copy.PushArgument(arguments[i]);
        i := i + 1;
      }
    }

    method PrintJson(t: Text) returns (json: Json)
      ensures json == CallToJson(View(), t)
    {
      var argumentsJson := Null;
      var index := 0;
      while index < |arguments|
        invariant 0 <= index <= |arguments|
        invariant argumentsJson == ArgumentsToJson(arguments[..index], t)
      {
        assert arguments[..index + 1][..index] == arguments[..index];
        var items := if argumentsJson.Null? then [] else argumentsJson.items;
        argumentsJson := Arr(items + [ToJson(arguments[index], t)]);
        index := index + 1;
      }
      assert arguments[..index] == arguments;
      json := Obj(map[
        "methodName" := Str(methodName),
        "sharedObjectPath" := Str(sharedObjectPath),
        "argumentValues" := argumentsJson,
        "returnValue" := ReturnToJson(returnValue, t)]);
    }
  }

  /** The loop's step: the next element is appended, or the whole list is unreadable. */
  lemma ParseOneMore(items: seq<Json>, i: nat, front: seq<Value>, g: Garbage, t: Text)
    requires i < |items| && ParseItems(items[..i], g, t) == Ok(front)
    ensures var built := BuildFromJson(items[i], g(i), t);
            if built.Ok? then ParseItems(items[..i + 1], g, t) == Ok(front + [built.value])
            else ParseItems(items, g, t) == Err(built.failure)
  {
    assert items[..i + 1][..i] == items[..i];
    if BuildFromJson(items[i], g(i), t).Err? {
      ParseItemsFails(items, i + 1, g, t);
    }
  }

  /** A list with an unreadable prefix is unreadable, for the same reason. */
  lemma {:induction false} ParseItemsFails(items: seq<Json>, n: nat, g: Garbage, t: Text)
    requires n <= |items| && ParseItems(items[..n], g, t).Err?
    ensures ParseItems(items, g, t) == Err(ParseItems(items[..n], g, t).failure)
    decreases |items|
  {
    if n == |items| {
      assert items[..n] == items;
    } else {
      var front := items[..|items| - 1];
      assert front[..n] == items[..n];
      ParseItemsFails(front, n, g, t);
    }
  }

  /** JniEnvCall::Builder. */
  class Builder {
    var methodName: string
    var returnValue: Option<Value>
    var arguments: seq<Value>

    constructor (methodName: string)
      ensures this.methodName == methodName && arguments == [] && returnValue == None
    {
      this.methodName := methodName;
      this.arguments := [];
      this.returnValue := None;
    }

    method PushArgument(v: Value)
      modifies this
      ensures arguments == old(arguments) + [v]
      ensures methodName == old(methodName) && returnValue == old(returnValue)
    {
      arguments := arguments + [v];
    }

    method SetReturnValue(v: Value)
      modifies this
      ensures returnValue == Some(v)
      ensures methodName == old(methodName) && arguments == old(arguments)
    {
      returnValue := Some(v);
    }

    /** The source dereferences the return value, so it must have been set. */
    method Build() returns (call: JniCall)
      requires returnValue.Some?
      ensures fresh(call) && call.View() == CallRecord(methodName, "", arguments, returnValue)
    {
      call := new JniCall();
      call.SetNames(methodName, "");
      var i := 0;
      while i < |arguments|
        invariant 0 <= i <= |arguments|
        invariant call.View() == CallRecord(methodName, "", arguments[..i], None)
      {
        call.PushArgument(arguments[i]);
        i := i + 1;
      }
      call.SetReturnValue(returnValue.value);
    }
  }
}
