/** Placing the arguments and calling the native function (SharedObjectLoader.cpp). */
module NativeLoader {
  import opened Results
  import opened Cells
  import opened JsonTrees
  import opened Values
  import opened CallingConvention

  const MAX_REALS := 6
  const MAX_WORDS := 8

  type BasicValue = v: Value | v.Basic? witness Basic(Void, 0)

  function Reals(values: seq<BasicValue>): seq<BasicValue> {
    if values == [] then []
    else
      var n := |values| - 1;
      if IsReal(values[n].typ) then Reals(values[..n]) + [values[n]] else Reals(values[..n])
  }

  function Words(values: seq<BasicValue>): seq<BasicValue> {
    if values == [] then []
    else
      var n := |values| - 1;
      if IsReal(values[n].typ) then Words(values[..n]) else Words(values[..n]) + [values[n]]
  }

  function Raws(values: seq<BasicValue>): (raws: seq<Raw>)
    ensures |raws| == |values|
  {
    seq(|values|, i requires 0 <= i < |values| => values[i].raw)
  }

  function Types(values: seq<BasicValue>): (types: seq<BasicType>)
    ensures |types| == |values|
  {
    seq(|values|, i requires 0 <= i < |values| => values[i].typ)
  }

  function Decodes(values: seq<BasicValue>): (ns: seq<int>)
    ensures |ns| == |values|
  {
    seq(|values|, i requires 0 <= i < |values| => Decode(values[i].typ, values[i].raw))
  }

  // What the ABI prescribes for the native function's own prototype

  /** The JNIEnv pointer and the null object in front, then the parameters in order. */
  function Prototype(env: Raw, values: seq<BasicValue>): (arguments: seq<Argument>)
    ensures |arguments| == |values| + 2
  {
    [IntegerClass(env), IntegerClass(0)] +
    seq(|values|, i requires 0 <= i < |values| =>
      if IsReal(values[i].typ) then SseClass(values[i].raw) else IntegerClass(values[i].raw))
  }

  function PrototypeClasses(types: seq<BasicType>): (isSse: seq<bool>)
    ensures |isSse| == |types| + 2
  {
    [false, false] + seq(|types|, i requires 0 <= i < |types| => IsReal(types[i]))
  }

  /** The native function's reading of its parameters, from its own prototype. */
  predicate CalleeReads(types: seq<BasicType>, f: Frame, views: seq<int>) {
    && |views| == |types|
    && forall i :: 0 <= i < |types| ==> CalleeReadsParameter(types, f, i, views[i])
  }

  predicate CalleeReadsParameter(types: seq<BasicType>, f: Frame, i: nat, view: int)
    requires i < |types|
  {
    ParameterHeld(types, f, i) && view == ReadParameter(types, f, i)
  }

  predicate ParameterHeld(types: seq<BasicType>, f: Frame, i: nat)
    requires i < |types|
  {
    Holds(f, Locate(PrototypeClasses(types), i + 2))
  }

  /** The parameters as the native function reads them. */
  function ReadParameters(types: seq<BasicType>, f: Frame): (views: seq<int>)
    requires forall i :: 0 <= i < |types| ==> ParameterHeld(types, f, i)
    ensures |views| == |types| && CalleeReads(types, f, views)
  {
    seq(|types|, i requires 0 <= i < |types| && ParameterHeld(types, f, i) => ReadParameter(types, f, i))
  }

  function ReadParameter(types: seq<BasicType>, f: Frame, i: nat): int
    requires i < |types| && ParameterHeld(types, f, i)
  {
    Decode(types[i], ReadAt(f, Locate(PrototypeClasses(types), i + 2)))
  }

  lemma CalleeHolds(types: seq<BasicType>, f: Frame, views: seq<int>)
    requires CalleeReads(types, f, views)
    ensures forall i :: 0 <= i < |types| ==> ParameterHeld(types, f, i)
  {
    forall i | 0 <= i < |types|
      ensures ParameterHeld(types, f, i)
    {
      assert CalleeReadsParameter(types, f, i, views[i]);
    }
  }

  lemma ReadsAreUnique(types: seq<BasicType>, f: Frame, views: seq<int>, views': seq<int>)
    requires CalleeReads(types, f, views) && CalleeReads(types, f, views')
    ensures views == views'
  {
    forall i | 0 <= i < |types|
      ensures views[i] == views'[i]
    {
      assert CalleeReadsParameter(types, f, i, views[i]) && CalleeReadsParameter(types, f, i, views'[i]);
    }
  }

  /** What the loader leaves in the registers and on the stack when it jumps to the function. */
  ghost predicate LoadedFrame(env: Raw, values: seq<BasicValue>, f: Frame) {
    // the casted prototype has the non-real arguments only, all of class INTEGER
    && var casted := Place(Prototype(env, Words(values)));
    && f.ints == casted.ints && f.stack == casted.stack
    // the registers that the descending loop has filled
    && |f.sse| == SSE_REGISTERS && |Reals(values)| <= SSE_REGISTERS
    && forall k :: 0 <= k < |Reals(values)| ==>
         Decode(Reals(values)[k].typ, f.sse[k]) == Decode(Reals(values)[k].typ, Reals(values)[k].raw)
  }

  lemma PrototypeSnoc(env: Raw, values: seq<BasicValue>)
    requires values != []
    ensures var n := |values| - 1;
            Place(Prototype(env, values)) ==
            PlaceOne(Place(Prototype(env, values[..n])), Prototype(env, values)[n + 2])
  {
    var n := |values| - 1;
    assert Prototype(env, values)[..n + 2] == Prototype(env, values[..n]);
  }

  lemma {:induction false} WordsAreWords(values: seq<BasicValue>)
    ensures forall v :: v in Words(values) ==> !IsReal(v.typ) && !v.typ.Float? && !v.typ.Double?
    ensures |Words(values)| + |Reals(values)| == |values|
  {
    if values != [] {
      WordsAreWords(values[..|values| - 1]);
    }
  }

  /**
   Splitting commutes with placing: passing the non-real arguments on their own
   puts every word where the interleaved prototype wants it, and the real ones
   take xmm0.. in order, as long as they all fit in registers.
   */
  lemma {:induction false} SplitThenPlace(env: Raw, values: seq<BasicValue>)
    requires |Reals(values)| <= SSE_REGISTERS
    ensures var whole := Place(Prototype(env, values));
            var split := Place(Prototype(env, Words(values)));
            && whole.ints == split.ints && whole.stack == split.stack
            && whole.sse == Raws(Reals(values))
  {
    if values == [] {
      assert Words(values) == values;
      assert Place(Prototype(env, values)) == Frame([env, 0], [], []) by {
        assert Prototype(env, values)[..1] == [IntegerClass(env)];
        assert [IntegerClass(env)][..0] == [];
        assert Place([IntegerClass(env)]) == Frame([env], [], []);
      }
    } else {
      SplitThenPlace(env, values[..|values| - 1]);
      if IsReal(values[|values| - 1].typ) {
        SplitReal(env, values);
      } else {
        SplitWord(env, values);
      }
    }
  }

  /**
   The registers and the stack of the native function's own prototype, in figures: the
   environment and the null object in rdi and rsi, the first four words behind them, the
   others on the stack, and the reals in xmm0 and up.
   */
  lemma RegistersAndStack(env: Raw, values: seq<BasicValue>)
    requires |Reals(values)| <= 8
    ensures var f := Place(Prototype(env, values));
            var ws := Raws(Words(values));
            && f.ints == [env, 0] + (if |ws| <= 4 then ws else ws[..4])
            && f.stack == (if |ws| <= 4 then [] else ws[4..])
            && f.sse == Raws(Reals(values))
  {
    SplitThenPlace(env, values);
    WordsInFigures(env, values);
  }

  lemma WordsInFigures(env: Raw, values: seq<BasicValue>)
    ensures var f := Place(Prototype(env, Words(values)));
            var ws := Raws(Words(values));
            && f.ints == [env, 0] + (if |ws| <= 4 then ws else ws[..4])
            && f.stack == if |ws| <= 4 then [] else ws[4..]
  {
    var arguments := Prototype(env, Words(values));
    PrototypeOfWords(env, values);
    PlaceByClass(arguments);
    IntegersOverflow(arguments);
    BehindTwo([env, 0], Raws(Words(values)));
  }

  lemma PrototypeOfWords(env: Raw, values: seq<BasicValue>)
    ensures OnlyIntegers(Prototype(env, Words(values)))
    ensures WordsOf(Prototype(env, Words(values))) == [env, 0] + Raws(Words(values))
  {
    WordsAreWords(values);
    var words := Words(values);
    var arguments := Prototype(env, words);
    forall i | 0 <= i < |arguments|
      ensures arguments[i] == IntegerClass(([env, 0] + Raws(words))[i])
    {
      if i >= 2 {
        assert words[i - 2] in words;
      }
    }
  }

  lemma BehindTwo(two: seq<Raw>, ws: seq<Raw>)
    requires |two| == 2
    ensures Take(two + ws, 6) == two + if |ws| <= 4 then ws else ws[..4]
    ensures |two + ws| > 6 ==> (two + ws)[6..] == ws[4..]
  {
  }

  lemma SplitReal(env: Raw, values: seq<BasicValue>)
    requires values != [] && IsReal(values[|values| - 1].typ)
    ensures var n := |values| - 1;
            && Words(values) == Words(values[..n])
            && Raws(Reals(values)) == Raws(Reals(values[..n])) + [values[n].raw]
            && Place(Prototype(env, values)) == PlaceOne(Place(Prototype(env, values[..n])), SseClass(values[n].raw))
  {
    PrototypeSnoc(env, values);
    RawsSnoc(Reals(values[..|values| - 1]), values[|values| - 1]);
  }

  lemma RawsSnoc(values: seq<BasicValue>, v: BasicValue)
    ensures Raws(values + [v]) == Raws(values) + [v.raw]
  {
  }

  lemma SplitWord(env: Raw, values: seq<BasicValue>)
    requires values != [] && !IsReal(values[|values| - 1].typ)
    ensures var n := |values| - 1;
            var a := IntegerClass(values[n].raw);
            && Reals(values) == Reals(values[..n])
            && Place(Prototype(env, values)) == PlaceOne(Place(Prototype(env, values[..n])), a)
            && Place(Prototype(env, Words(values))) == PlaceOne(Place(Prototype(env, Words(values[..n]))), a)
  {
    var n := |values| - 1;
    PrototypeSnoc(env, values);
    var words := Words(values);
    assert words[..|words| - 1] == Words(values[..n]) && words[|words| - 1] == values[n];
    PrototypeSnoc(env, words);
  }

  lemma {:induction false} RealIndex(values: seq<BasicValue>, i: nat)
    requires i < |values| && IsReal(values[i].typ)
    ensures var k := SseBefore(PrototypeClasses(Types(values)), i + 2);
            k < |Reals(values)| && Reals(values)[k] == values[i]
  {
    var n := |values| - 1;
    var isSse := PrototypeClasses(Types(values));
    assert isSse[..n + 2] == PrototypeClasses(Types(values[..n]));
    SseBeforePrefix(isSse, n + 2, i + 2);
    if i < n {
      RealIndex(values[..n], i);
    } else {
      RealCount(values[..n]);
    }
  }

  lemma {:induction false} RealCount(values: seq<BasicValue>)
    ensures SseBefore(PrototypeClasses(Types(values)), |values| + 2) == |Reals(values)|
  {
    if values == [] {
      assert SseBefore(PrototypeClasses([]), 1) == 0;
    } else {
      var n := |values| - 1;
      var isSse := PrototypeClasses(Types(values));
      assert isSse[..n + 2] == PrototypeClasses(Types(values[..n]));
      SseBeforePrefix(isSse, n + 2, n + 2);
      RealCount(values[..n]);
    }
  }

  lemma PrototypeClassesOf(env: Raw, values: seq<BasicValue>)
    ensures Classes(Prototype(env, values)) == PrototypeClasses(Types(values))
  {
  }

  /** The location of a parameter in the frame that its own prototype prescribes. */
  lemma PlacedParameter(env: Raw, values: seq<BasicValue>, i: nat)
    requires i < |values|
    ensures var whole := Place(Prototype(env, values));
            var l := Locate(PrototypeClasses(Types(values)), i + 2);
            && Holds(whole, l) && ReadAt(whole, l) == values[i].raw
            && (!IsReal(values[i].typ) ==> !l.SseRegister?)
  {
    PrototypeClassesOf(env, values);
    PlaceThenLocate(Prototype(env, values), i + 2);
  }

  lemma DeliversWord(env: Raw, values: seq<BasicValue>, f: Frame, i: nat)
    requires LoadedFrame(env, values, f) && i < |values| && !IsReal(values[i].typ)
    ensures CalleeReadsParameter(Types(values), f, i, Decodes(values)[i])
  {
    PlacedParameter(env, values, i);
    SplitThenPlace(env, values);
    var whole := Place(Prototype(env, values));
    var l := Locate(PrototypeClasses(Types(values)), i + 2);
    assert Holds(f, l) && ReadAt(f, l) == ReadAt(whole, l);
  }

  lemma DeliversReal(env: Raw, values: seq<BasicValue>, f: Frame, i: nat)
    requires LoadedFrame(env, values, f) && i < |values| && IsReal(values[i].typ)
    ensures CalleeReadsParameter(Types(values), f, i, Decodes(values)[i])
  {
    RealIndex(values, i);
    var k := SseBefore(PrototypeClasses(Types(values)), i + 2);
    assert Locate(PrototypeClasses(Types(values)), i + 2) == SseRegister(k);
    assert Decode(Reals(values)[k].typ, f.sse[k]) == Decode(values[i].typ, values[i].raw);
  }

  lemma DeliversHidden(env: Raw, values: seq<BasicValue>, f: Frame)
    requires LoadedFrame(env, values, f)
    ensures |f.ints| >= 2 && f.ints[0] == env && f.ints[1] == 0
  {
    var arguments := Prototype(env, values);
    SplitThenPlace(env, values);
    PlaceThenLocate(arguments, 0);
    PlaceThenLocate(arguments, 1);
    assert SseBefore(Classes(arguments), 1) == 0;
  }

  /** The callee reads, parameter by parameter, the value that was to be passed. */
  lemma LoadedFrameDelivers(env: Raw, values: seq<BasicValue>, f: Frame)
    requires LoadedFrame(env, values, f)
    ensures CalleeReads(Types(values), f, Decodes(values))
    ensures |f.ints| >= 2 && f.ints[0] == env && f.ints[1] == 0
  {
    forall i | 0 <= i < |values|
      ensures CalleeReadsParameter(Types(values), f, i, Decodes(values)[i])
    {
      if IsReal(values[i].typ) {
        DeliversReal(env, values, f, i);
      } else {
        DeliversWord(env, values, f, i);
      }
    }
    DeliversHidden(env, values, f);
  }

  // The loader

  /** The cell is read as the value. */
  predicate IsInCell(v: BasicValue, cell: Raw) {
    Decode(v.typ, cell) == Decode(v.typ, v.raw)
  }

  lemma CellOfBits(bits: Bits32)
    ensures Decode(Float, bits) == bits
  {
  }

  class Loader {
    /** The JNIEnv pointer passed to every native function. */
    const jniEnv: Raw
    /** The low halves of xmm0 to xmm7. Nothing but the code below is assumed to write them before the call. */
    const xmm: array<Raw>

    constructor (jniEnv: Raw)
      ensures this.jniEnv == jniEnv && xmm.Length == SSE_REGISTERS && fresh(xmm)
    {
      this.jniEnv := jniEnv;
      xmm := new Raw[SSE_REGISTERS](_ => 0);
    }

    static method ExtractFloatArguments(values: seq<BasicValue>) returns (extracted: seq<BasicValue>)
      ensures extracted == Reals(values)
    {
      extracted := [];
      var i := 0;
      while i < |values|
        invariant 0 <= i <= |values|
        invariant extracted == Reals(values[..i])
      {
        assert values[..i + 1][..i] == values[..i];
        if IsReal(values[i].typ) {
          extracted := extracted + [values[i]];
        }
        i := i + 1;
      }
      assert values[..i] == values;
    }

    static method ExtractNonFloatArguments(values: seq<BasicValue>) returns (extracted: seq<BasicValue>)
      ensures extracted == Words(values)
    {
      extracted := [];
      var i := 0;
      while i < |values|
        invariant 0 <= i <= |values|
        invariant extracted == Words(values[..i])
      {
        assert values[..i + 1][..i] == values[..i];
        if !IsReal(values[i].typ) {
          extracted := extracted + [values[i]];
        }
        i := i + 1;
      }
      assert values[..i] == values;
    }

    /** The float parameter itself arrives in xmm0; movss clears the rest of the target register. */
    method PutFloat(position: nat, value: Bits32, garbage: Raw) returns (r: Result<()>)
      requires xmm.Length == SSE_REGISTERS
      modifies xmm
      ensures Decode(Float, xmm[0]) == value
      ensures r == if position < MAX_REALS then Ok(()) else Err(TooManyReals)
      ensures forall k :: 1 <= k < SSE_REGISTERS ==>
                xmm[k] == if k == position && position < MAX_REALS then value else old(xmm[k])
    {
      xmm[0] := Overwrite(value, Four, garbage);
      if position == 0 {
        return Ok(());
      } else if position < MAX_REALS {
        xmm[position] := value;
        return Ok(());
      } else {
        return Err(TooManyReals);
      }
    }

    method PutDouble(position: nat, value: Raw) returns (r: Result<()>)
      requires xmm.Length == SSE_REGISTERS
      modifies xmm
      ensures xmm[0] == value
      ensures r == if position < MAX_REALS then Ok(()) else Err(TooManyReals)
      ensures forall k :: 1 <= k < SSE_REGISTERS ==>
                xmm[k] == if k == position && position < MAX_REALS then value else old(xmm[k])
    {
      xmm[0] := value;
      if position == 0 {
        return Ok(());
      } else if position < MAX_REALS {
        xmm[position] := value;
        return Ok(());
      } else {
        return Err(TooManyReals);
      }
    }

    /**
     Fills the registers from the last to the first. Every put spoils xmm0, so
     only the last one, for position 0, leaves its own value there.
     */
    method SetupFloatArguments(values: seq<BasicValue>, g: nat -> Raw) returns (r: Result<()>)
      requires xmm.Length == SSE_REGISTERS
      requires forall v :: v in values ==> IsReal(v.typ)
      modifies xmm
      ensures r == if |values| <= MAX_REALS then Ok(()) else Err(TooManyReals)
      ensures r.Ok? ==> forall k :: 0 <= k < |values| ==> IsInCell(values[k], xmm[k])
      ensures forall k :: 1 <= k < SSE_REGISTERS && (r.Ok? ==> |values| <= k) ==> xmm[k] == old(xmm[k])
      ensures values == [] ==> xmm[0] == old(xmm[0])
    {
      var i := |values| - 1;
      while i >= 0
        invariant -1 <= i < |values|
        invariant |values| > MAX_REALS ==> i == |values| - 1
        invariant forall k :: 1 <= k < SSE_REGISTERS && (k <= i || |values| <= k) ==> xmm[k] == old(xmm[k])
        invariant forall k :: 1 <= k && i < k < |values| ==> IsInCell(values[k], xmm[k])
        invariant i < 0 && values != [] ==> IsInCell(values[0], xmm[0])
        invariant values == [] ==> xmm[0] == old(xmm[0])
        decreases i
      {
        var value := values[i];
        assert value in values;
        var put: Result<()>;
        if value.typ.Float? {
          put := PutFloat(i, Decode(Float, value.raw), g(i));
          CellOfBits(Decode(Float, value.raw));
        } else {
          put := PutDouble(i, value.raw);
        }
        if put.Err? {
          return put;
        }
        assert IsInCell(value, xmm[i]);
        i := i - 1;
      }
      return Ok(());
    }

    /** The arity switch: each case passes exactly as many words as there are. */
    static method SelectCall(words: seq<Raw>) returns (r: Result<seq<Raw>>)
      ensures r == if |words| <= MAX_WORDS then Ok(words) else Err(TooManyWords)
    {
      var w := words;
      match |words| {
        case 0 => r := Ok([]);
        case 1 => r := Ok([w[0]]);
        case 2 => r := Ok([w[0], w[1]]);
        case 3 => r := Ok([w[0], w[1], w[2]]);
        case 4 => r := Ok([w[0], w[1], w[2], w[3]]);
        case 5 => r := Ok([w[0], w[1], w[2], w[3], w[4]]);
        case 6 => r := Ok([w[0], w[1], w[2], w[3], w[4], w[5]]);
        case 7 => r := Ok([w[0], w[1], w[2], w[3], w[4], w[5], w[6]]);
        case 8 => r := Ok([w[0], w[1], w[2], w[3], w[4], w[5], w[6], w[7]]);
        case _ => r := Err(TooManyWords);
      }
      assert r.Ok? ==> r.value == words;
    }

    /** callFunction up to the jump: the frame that the native function starts with. */
    method PrepareCall(values: seq<BasicValue>, g: nat -> Raw) returns (r: Result<Frame>)
      requires xmm.Length == SSE_REGISTERS
      modifies xmm
      ensures r.Ok? <==> ArityOk(values)
      ensures |Reals(values)| > MAX_REALS ==> r == Err(TooManyReals)
      ensures |Reals(values)| <= MAX_REALS && |Words(values)| > MAX_WORDS ==> r == Err(TooManyWords)
      ensures |Reals(values)| <= MAX_REALS && |Words(values)| <= MAX_WORDS ==>
                && r.Ok? && LoadedFrame(jniEnv, values, r.value)
                && CalleeReads(Types(values), r.value, Decodes(values))
      // in figures
      ensures r.Ok? <==> |Reals(values)| <= 6 && |Words(values)| <= 8
      ensures r.Ok? ==> var ws := Raws(Words(values));
                        && r.value.ints == [jniEnv, 0] + (if |ws| <= 4 then ws else ws[..4])
                        && r.value.stack == (if |ws| <= 4 then [] else ws[4..])
                        && |r.value.sse| == 8
                        && forall k :: 0 <= k < |Reals(values)| ==> IsInCell(Reals(values)[k], r.value.sse[k])
    {
      var floats := ExtractFloatArguments(values);
      var others := ExtractNonFloatArguments(values);
      RealsAreReal(values);
      var _ :- SetupFloatArguments(floats, g);
      var words :- SelectCall(Raws(others));
      var casted := Place(CastedPrototype(jniEnv, words));
      CastedIsPrototype(jniEnv, values);
      WordsInFigures(jniEnv, values);
      var frame := Frame(casted.ints, xmm[..], casted.stack);
      assert LoadedFrame(jniEnv, values, frame);
      LoadedFrameDelivers(jniEnv, values, frame);
      return Ok(frame);
    }
  }

  lemma {:induction false} RealsAreReal(values: seq<BasicValue>)
    ensures forall v :: v in Reals(values) ==> IsReal(v.typ) && (v.typ.Float? || v.typ.Double?)
  {
    if values != [] {
      RealsAreReal(values[..|values| - 1]);
    }
  }

  /** The function pointer is cast to take the environment, the object and 64-bit words only. */
  function CastedPrototype(env: Raw, words: seq<Raw>): seq<Argument> {
    [IntegerClass(env), IntegerClass(0)] +
    seq(|words|, i requires 0 <= i < |words| => IntegerClass(words[i]))
  }

  lemma CastedIsPrototype(env: Raw, values: seq<BasicValue>)
    ensures CastedPrototype(env, Raws(Words(values))) == Prototype(env, Words(values))
  {
    WordsAreWords(values);
    var words := Words(values);
    forall i | 0 <= i < |words|
      ensures !IsReal(words[i].typ)
    {
      assert words[i] in words;
    }
  }

  /** The arity that the loader can deliver. */
  predicate ArityOk(values: seq<BasicValue>) {
    |Reals(values)| <= MAX_REALS && |Words(values)| <= MAX_WORDS
  }

  // Returning

  /** After the call: rax, or for a real return type the low four bytes of xmm0 over an uninitialised cell. */
  function CollectReturn(isReal: bool, rax: Raw, xmm0: Raw, garbage: Raw): Raw {
    if isReal then Overwrite(Low(xmm0, Four), Four, garbage) else rax
  }

  /** Integers, references and floats come back as the native function left them. */
  lemma CollectReturnKeeps(typ: BasicType, rax: Raw, xmm0: Raw, garbage: Raw)
    requires !typ.Double?
    ensures Decode(typ, CollectReturn(IsReal(typ), rax, xmm0, garbage)) ==
            Decode(typ, if IsReal(typ) then xmm0 else rax)
  {
  }

  /** The same in figures: a float from the low four bytes of xmm0, everything else from rax. */
  lemma CollectInFigures(typ: BasicType, rax: Raw, xmm0: Raw, garbage: Raw)
    ensures var cell := CollectReturn(IsReal(typ), rax, xmm0, garbage);
            && (typ.Float? ==> Decode(Float, cell) == xmm0 % 0x1_0000_0000)
            && (typ.Double? ==> cell % 0x1_0000_0000 == xmm0 % 0x1_0000_0000)
            && (!typ.Float? && !typ.Double? ==> cell == rax)
  {
  }

  /** A double keeps its low four bytes; the high ones are whatever the cell held. */
  lemma CollectReturnTruncatesDouble(rax: Raw, xmm0: Raw, garbage: Raw)
    ensures Decode(Double, CollectReturn(true, rax, xmm0, garbage)) == xmm0 <==>
            garbage / 0x1_0000_0000 == xmm0 / 0x1_0000_0000
  {
    var raw := CollectReturn(true, rax, xmm0, garbage);
    DecodeEight(Double, raw);
    assert raw / Modulus(Four) == garbage / Modulus(Four);
    DivMod(raw, Modulus(Four));
    DivMod(xmm0, Modulus(Four));
  }
}
