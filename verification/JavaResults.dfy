/**
 What Java makes of the result: updateJniReturn's two strings and asPrimitiveObject
 (JniClientImplementation.java, JniValue.java).
 */
module JavaResults {
  import opened Results
  import opened Cells
  import opened Numerals
  import opened JsonTrees
  import opened Values
  import opened ArgumentQueue
  import opened Handlers

  datatype JavaObject =
    | JavaByte(n: int)
    | JavaChar(c: char)
    | JavaShort(n: int)
    | JavaInt(n: int)
    | JavaLong(n: int)
    | JavaFloat(bits: Bits32)
    | JavaDouble(bits64: Raw)
    | JavaBoolean(b: bool)
    | JavaNull

  /** Float.valueOf and Double.valueOf; None when they throw. */
  datatype Boxes = Boxes(floatValueOf: string -> Option<Bits32>, doubleValueOf: string -> Option<Raw>)

  /** Integer.valueOf and its siblings: an optional sign, at least one digit, a value in range. */
  function ValueOf(s: string, w: Width): Option<int> {
    match LexicalCast(s, w, true)
    case Ok(n) => Some(n)
    case Err(_) => None
  }

  predicate IsTrue(s: string) {
    && |s| == 4
    && (s[0] == 't' || s[0] == 'T') && (s[1] == 'r' || s[1] == 'R')
    && (s[2] == 'u' || s[2] == 'U') && (s[3] == 'e' || s[3] == 'E')
  }

  function Boxed<T>(v: Option<T>, box: T -> JavaObject): Option<JavaObject> {
    match v case None => None case Some(x) => Some(box(x))
  }

  /** JniValue.asPrimitiveObject; None when it throws. */
  function AsPrimitiveObject(signature: string, value: string, boxes: Boxes): Option<JavaObject> {
    if signature == "B" then Boxed(ValueOf(value, One), n => JavaByte(n))
    else if signature == "C" then (if value == "" then None else Some(JavaChar(value[0])))
    else if signature == "S" then Boxed(ValueOf(value, Two), n => JavaShort(n))
    else if signature == "I" then Boxed(ValueOf(value, Four), n => JavaInt(n))
    else if signature == "J" then Boxed(ValueOf(value, Eight), n => JavaLong(n))
    else if signature == "F" then Boxed(boxes.floatValueOf(value), b => JavaFloat(b))
    else if signature == "D" then Boxed(boxes.doubleValueOf(value), b => JavaDouble(b))
    else if signature == "*" then Some(JavaNull)
    else if signature == "Z" then Some(JavaBoolean(IsTrue(value)))
    else None
  }

  /** What invokeJni returns; None when it throws, as it does on the null left by a missing result. */
  function JavaOutcome(pc: ClientPc, boxes: Boxes): Option<JavaObject> {
    if pc.Finished? then AsPrimitiveObject(pc.signature, pc.value, boxes) else None
  }

  /**
   The signed integers that the C++ side prints are boxed as they are; a byte too,
   although C++ cannot read it back.
   */
  lemma NumberIsBoxed(typ: BasicType, raw: Raw, t: Text, boxes: Boxes)
    requires typ.Byte? || typ.Short? || typ.Int? || typ.Long?
    ensures var n := Decode(typ, raw);
            AsPrimitiveObject(SignatureOf(typ), PrintBasic(typ, raw, t), boxes) ==
            Some(match typ
                 case Byte => JavaByte(n)
                 case Short => JavaShort(n)
                 case Int => JavaInt(n)
                 case _ => JavaLong(n))
  {
    var s := PrintBasic(typ, raw, t);
    DecimalIsRead(Decode(typ, raw), WidthOf(typ));
    SignaturesOfNumbers(s, boxes);
  }

  lemma DecimalIsRead(n: int, w: Width)
    requires InRange(n, w, true)
    ensures ValueOf(ToDecimal(n), w) == Some(n)
  {
    DecimalRoundTrip(n, w, true);
  }

  lemma SignaturesOfNumbers(s: string, boxes: Boxes)
    ensures AsPrimitiveObject(SignatureOf(Byte), s, boxes) == Boxed(ValueOf(s, One), n => JavaByte(n))
    ensures AsPrimitiveObject(SignatureOf(Short), s, boxes) == Boxed(ValueOf(s, Two), n => JavaShort(n))
    ensures AsPrimitiveObject(SignatureOf(Int), s, boxes) == Boxed(ValueOf(s, Four), n => JavaInt(n))
    ensures AsPrimitiveObject(SignatureOf(Long), s, boxes) == Boxed(ValueOf(s, Eight), n => JavaLong(n))
  {
    assert "B"[0] == 'B' && "C"[0] == 'C' && "S"[0] == 'S' && "I"[0] == 'I' && "J"[0] == 'J';
  }

  /** A printed boolean is a number, and Boolean.valueOf makes false of every number. */
  lemma BooleanIsFalse(raw: Raw, t: Text, boxes: Boxes)
    ensures AsPrimitiveObject(SignatureOf(Boolean), PrintBasic(Boolean, raw, t), boxes) == Some(JavaBoolean(false))
  {
    var s := ToDecimal(Decode(Boolean, raw));
    DigitIsNoLetter(s);
  }

  lemma DigitIsNoLetter(s: string)
    requires s != "" && AllDigits(s, 10)
    ensures !IsTrue(s)
  {
    assert DigitValue(s[0]) < 10;
  }

  /** Boolean.valueOf makes true of one word, in any case. */
  lemma TrueInAnyCase(s: string)
    ensures IsTrue(s) <==> |s| == 4 && forall i :: 0 <= i < 4 ==> s[i] == "true"[i] || s[i] == "TRUE"[i]
  {
    if |s| == 4 && forall i :: 0 <= i < 4 ==> s[i] == "true"[i] || s[i] == "TRUE"[i] {
      assert s[0] == "true"[0] || s[0] == "TRUE"[0];
      assert s[1] == "true"[1] || s[1] == "TRUE"[1];
      assert s[2] == "true"[2] || s[2] == "TRUE"[2];
      assert s[3] == "true"[3] || s[3] == "TRUE"[3];
    }
  }

  /** The other signatures: the first character, what Double.valueOf reads, null; and no more. */
  lemma OtherSignatures(signature: string, value: string, boxes: Boxes)
    ensures AsPrimitiveObject("C", value, boxes) == if value == "" then None else Some(JavaChar(value[0]))
    ensures AsPrimitiveObject("D", value, boxes) == Boxed(boxes.doubleValueOf(value), b => JavaDouble(b))
    ensures AsPrimitiveObject("*", value, boxes) == Some(JavaNull)
    ensures AsPrimitiveObject("Z", "true", boxes) == AsPrimitiveObject("Z", "TRUE", boxes) == Some(JavaBoolean(true))
    ensures AsPrimitiveObject("Z", "false", boxes) == Some(JavaBoolean(false))
    ensures signature !in {"B", "C", "S", "I", "J", "F", "D", "*", "Z"} ==>
              AsPrimitiveObject(signature, value, boxes) == None
  {
    assert "B"[0] == 'B' && "C"[0] == 'C' && "S"[0] == 'S' && "I"[0] == 'I' && "J"[0] == 'J';
    assert "F"[0] == 'F' && "D"[0] == 'D' && "*"[0] == '*' && "Z"[0] == 'Z';
    assert |"true"| == 4 && |"TRUE"| == 4 && |"false"| == 5;
  }

  /** asPrimitiveObject knows the signatures of Int and Float, and not those of references. */
  lemma SignaturesKnown(value: string, boxes: Boxes)
    ensures AsPrimitiveObject(SignatureOf(JArray), value, boxes) == None
    ensures AsPrimitiveObject(SignatureOf(JObject), value, boxes) == None
    ensures AsPrimitiveObject(SignatureOf(Float), value, boxes) == Boxed(boxes.floatValueOf(value), b => JavaFloat(b))
  {
    assert |"JARRAY"| == 6 && |"JOBJECT"| == 7 && |"B"| == 1 && |"C"| == 1 && |"S"| == 1 && |"I"| == 1;
    assert |"J"| == 1 && |"F"| == 1 && |"D"| == 1 && |"*"| == 1 && |"Z"| == 1;
  }

  /** What the placeholder's class becomes on the C++ side. */
  function TypeOfClass(c: ReturnClass): BasicType {
    match c
    case IntClass => Int
    case FloatClass => Float
    case ArrayClass => JArray
    case OtherClass => JObject
  }

  /** Whether asPrimitiveObject makes an object of what the native function left in `rax` and `xmm0`. */
  predicate JavaReads(c: ReturnClass, xmm0: Raw, t: Text, boxes: Boxes) {
    match c
    case IntClass => true
    case FloatClass => Arrives(Float, xmm0, t) && boxes.floatValueOf(ArrivedText(Float, xmm0, t)).Some?
    case _ => false
  }

  /**
   What Java gets from a native function that left `rax` and `xmm0`: the int; the float
   that its twice printed decimals are for Java; a handle with which invokeJni throws.
   */
  predicate ReachesJava(c: ReturnClass, pc: ClientPc, rax: Raw, xmm0: Raw, t: Text, boxes: Boxes) {
    && pc.Finished? && (JavaOutcome(pc, boxes).Some? <==> JavaReads(c, xmm0, t, boxes))
    && match c
       case IntClass => pc.signature == "I" && JavaOutcome(pc, boxes) == Some(JavaInt(Decode(Int, rax)))
       case FloatClass =>
         && pc.signature == "F"
         && Arrives(Float, xmm0, t)
         && JavaOutcome(pc, boxes) == Boxed(boxes.floatValueOf(ArrivedText(Float, xmm0, t)), b => JavaFloat(b))
       case _ =>
         && pc.signature == (if c.ArrayClass? then "JARRAY" else "JOBJECT")
         && ParsePointer(pc.value) == Ok(rax) && JavaOutcome(pc, boxes) == None
  }

  lemma ResultIsRead(c: ReturnClass, pc: ClientPc, rax: Raw, xmm0: Raw, t: Text, boxes: Boxes)
    requires var typ := TypeOfClass(c);
             var raw := if IsReal(typ) then xmm0 else rax;
             Arrives(typ, raw, t) && pc == Finished(SignatureOf(typ), ArrivedText(typ, raw, t))
    ensures ReachesJava(c, pc, rax, xmm0, t, boxes)
  {
    match c {
      case IntClass => NumberIsBoxed(Int, rax, t, boxes);
      case FloatClass => SignaturesKnown(pc.value, boxes);
      case _ =>
        SignaturesKnown(pc.value, boxes);
        PointerRoundTrip(rax);
    }
  }
}
