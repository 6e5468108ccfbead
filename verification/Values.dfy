/** Typed JNI values and their text and JSON forms (JniValue.cpp, JniValueFactory.cpp, JniRawValue.h). */
module Values {
  import opened Results
  import opened Cells
  import opened Numerals
  import opened JsonTrees

  datatype JniValueType =
    | Byte | Char | Short | Int | Long | Float | Double
    | Void | Boolean | JSize | JObject | JArray
    | CStringType | CPointerType

  /** The types of a BasicJniValue. */
  type BasicType = t: JniValueType | !t.CStringType? && !t.CPointerType? witness Void

  /** The data of a SharedMemory object. */
  datatype ShmRecord = ShmRecord(shmId: string, size: int, address: Raw, remoteAddress: Raw)

  datatype Value =
    | Basic(typ: BasicType, raw: Raw)
    | CString(text: string)
    | CPointer(shm: ShmRecord)

  // Signature tables

  const PRIMITIVE_TABLE: map<string, JniValueType> := map[
    "B" := Byte, "C" := Char, "S" := Short, "I" := Int, "J" := Long,
    "F" := Float, "D" := Double, "VOID" := Void, "Z" := Boolean,
    "JSIZE" := JSize, "JOBJECT" := JObject, "JARRAY" := JArray]

  const CSTRING_TABLE: map<string, JniValueType> := map["CSTRING" := CStringType]

  const ADDRESS_TABLE: map<string, JniValueType> := map["*" := CPointerType]

  function SignatureOf(typ: JniValueType): string {
    match typ
    case Byte => "B"
    case Char => "C"
    case Short => "S"
    case Int => "I"
    case Long => "J"
    case Float => "F"
    case Double => "D"
    case Void => "VOID"
    case Boolean => "Z"
    case JSize => "JSIZE"
    case JObject => "JOBJECT"
    case JArray => "JARRAY"
    case CStringType => "CSTRING"
    case CPointerType => "*"
  }

  /** A table and SignatureOf are inverse to each other on the types the table serves. */
  ghost predicate IsInverseTable(table: map<string, JniValueType>) {
    forall s :: s in table ==> SignatureOf(table[s]) == s
  }

  lemma TablesAreInverse()
    ensures IsInverseTable(PRIMITIVE_TABLE) && IsInverseTable(CSTRING_TABLE) && IsInverseTable(ADDRESS_TABLE)
    ensures forall t: BasicType :: SignatureOf(t) in PRIMITIVE_TABLE && PRIMITIVE_TABLE[SignatureOf(t)] == t
    ensures forall s :: s in PRIMITIVE_TABLE ==> !PRIMITIVE_TABLE[s].CStringType? && !PRIMITIVE_TABLE[s].CPointerType?
    ensures "CSTRING" !in PRIMITIVE_TABLE && "*" !in PRIMITIVE_TABLE && "*" !in CSTRING_TABLE
  {
  }

  /** The names behind which Java reads a value: of the two kinds of references, and of the lengths. */
  lemma SignatureNames()
    ensures PRIMITIVE_TABLE["JOBJECT"] == JObject && PRIMITIVE_TABLE["JARRAY"] == JArray
    ensures PRIMITIVE_TABLE["JSIZE"] == JSize && PRIMITIVE_TABLE["VOID"] == Void
    ensures PRIMITIVE_TABLE["I"] == Int && PRIMITIVE_TABLE["F"] == Float
  {
    TablesAreInverse();
  }

  /** Some order in which the hash table can be walked. */
  ghost predicate Enumerates(items: seq<(string, JniValueType)>, table: map<string, JniValueType>) {
    && (forall i :: 0 <= i < |items| ==> items[i].0 in table && table[items[i].0] == items[i].1)
    && (forall s :: s in table ==> (s, table[s]) in items)
  }

  /** The reverse lookup walks the table; whatever the order, it finds the one signature of the type. */
  method GetSignatureFromType(items: seq<(string, JniValueType)>, ghost table: map<string, JniValueType>,
                              typ: JniValueType)
    returns (signature: Option<string>)
    requires Enumerates(items, table) && IsInverseTable(table)
    ensures signature == if SignatureOf(typ) in table && table[SignatureOf(typ)] == typ
                         then Some(SignatureOf(typ)) else None
  {
    var i := 0;
    while i < |items|
      invariant 0 <= i <= |items|
      invariant forall k :: 0 <= k < i ==> items[k].1 != typ
    {
      if items[i].1 == typ {
        return Some(items[i].0);
      }
      i := i + 1;
    }
    return None;
  }

  // Native readings of a cell

  function WidthOf(typ: BasicType): Width {
    match typ
    case Byte => One
    case Boolean => One
    case Char => Two
    case Short => Two
    case Int => Four
    case JSize => Four
    case Float => Four
    case _ => Eight
  }

  predicate IsSigned(typ: BasicType) {
    typ.Byte? || typ.Short? || typ.Int? || typ.JSize? || typ.Long?
  }

  /** The integer types of two bytes and more. */
  predicate IsInteger(typ: BasicType) {
    typ.Char? || typ.Short? || typ.Int? || typ.JSize? || typ.Long?
  }

  predicate IsReal(typ: BasicType) {
    typ.Float? || typ.Double?
  }

  predicate IsReference(typ: BasicType) {
    typ.JObject? || typ.JArray?
  }

  /**
   What native code sees in a cell: the number of an integer type, the bits of a
   float, the pointer of a reference. The other bytes of the cell do not matter.
   */
  function Decode(typ: BasicType, raw: Raw): (n: int)
    ensures !typ.Void? ==> InRange(n, WidthOf(typ), IsSigned(typ))
  {
    if typ.Void? then 0 else Interpret(Low(raw, WidthOf(typ)), WidthOf(typ), IsSigned(typ))
  }

  /** A cell that holds `n`, above whatever garbage its upper bytes had. */
  function Store(typ: BasicType, n: int, garbage: Raw): (raw: Raw)
    requires InRange(n, WidthOf(typ), IsSigned(typ))
    ensures !typ.Void? ==> Decode(typ, raw) == n
  {
    StoreLoad(n, WidthOf(typ), IsSigned(typ), garbage);
    Overwrite(Encode(n, WidthOf(typ), IsSigned(typ)), WidthOf(typ), garbage)
  }

  /** How native code reads a cell of each type, in figures: two's complement in the low bytes. */
  lemma NativeReading(typ: BasicType, raw: Raw)
    ensures var n := Decode(typ, raw);
            match typ
            case Byte => -0x80 <= n < 0x80 && (n - raw) % 0x100 == 0
            case Boolean => 0 <= n < 0x100 && (n - raw) % 0x100 == 0
            case Char => 0 <= n < 0x1_0000 && (n - raw) % 0x1_0000 == 0
            case Short => -0x8000 <= n < 0x8000 && (n - raw) % 0x1_0000 == 0
            case Int => -0x8000_0000 <= n < 0x8000_0000 && (n - raw) % 0x1_0000_0000 == 0
            case JSize => -0x8000_0000 <= n < 0x8000_0000 && (n - raw) % 0x1_0000_0000 == 0
            case Long => -0x8000_0000_0000_0000 <= n < 0x8000_0000_0000_0000 && (n - raw) % 0x1_0000_0000_0000_0000 == 0
            case Float => 0 <= n < 0x1_0000_0000 && (n - raw) % 0x1_0000_0000 == 0
            case Double => n == raw
            case JObject => n == raw
            case JArray => n == raw
            case Void => n == 0
  {
    ReadIsCongruent(raw, WidthOf(typ), IsSigned(typ));
    DecodeEight(typ, raw);
  }

  /** The bytes that a stored number leaves in the cell, and those that stay. */
  lemma NativeBytes(typ: BasicType, n: int, garbage: Raw)
    requires InRange(n, WidthOf(typ), IsSigned(typ))
    ensures var raw := Store(typ, n, garbage);
            var m := Modulus(WidthOf(typ));
            raw % m == n % m && raw / m == garbage / m
    ensures Modulus(WidthOf(Byte)) == 0x100 && Modulus(WidthOf(Boolean)) == 0x100
    ensures Modulus(WidthOf(Char)) == 0x1_0000 && Modulus(WidthOf(Short)) == 0x1_0000
    ensures Modulus(WidthOf(Int)) == Modulus(WidthOf(JSize)) == Modulus(WidthOf(Float)) == 0x1_0000_0000
    ensures IsReference(typ) || typ.Long? || typ.Double? ==> Modulus(WidthOf(typ)) == 0x1_0000_0000_0000_0000
  {
    EncodeIsModulo(n, WidthOf(typ), IsSigned(typ));
    assert Low(Store(typ, n, garbage), WidthOf(typ)) == Encode(n, WidthOf(typ), IsSigned(typ));
  }

  lemma DecodeEight(typ: BasicType, raw: Raw)
    ensures IsReference(typ) || typ.Double? ==> Decode(typ, raw) == raw
  {
  }

  // Text

  /** BasicJniValue::getAsString. */
  function PrintBasic(typ: BasicType, raw: Raw, t: Text): string {
    match typ
    case Void => ""
    case Float => t.printFloat(Decode(Float, raw))
    case Double => t.printDouble(raw)
    case JObject => PrintPointer(raw)
    case JArray => PrintPointer(raw)
    case _ => ToDecimal(Decode(typ, raw))
  }

  /**
   BasicJniValue::setByString, as the new cell. lexical_cast to a one-byte type
   takes a single character and stores its code, so BYTE and BOOLEAN do not
   parse numbers.
   */
  function ParseBasic(typ: BasicType, s: string, garbage: Raw, t: Text): Result<Raw> {
    if s == "null" then Ok(0)
    else if IsInteger(typ) then
      var n :- LexicalCast(s, WidthOf(typ), IsSigned(typ));
      Ok(Store(typ, n, garbage))
    else if IsReference(typ) then ParsePointer(s)
    else if typ.Float? then
      (match t.parseFloat(s) case Some(b) => Ok(Overwrite(b, Four, garbage)) case None => Err(BadCast))
    else if typ.Double? then
      (match t.parseDouble(s) case Some(b) => Ok(b) case None => Err(BadCast))
    else if typ.Void? then Ok(garbage)
    else ParseCharacter(s, garbage)
  }

  function ParseCharacter(s: string, garbage: Raw): Result<Raw> {
    if |s| == 1 then Ok(Overwrite(s[0] as int % 0x100, One, garbage)) else Err(BadCast)
  }

  /**
   What setByString makes of the word null, of a single character, which for a one-byte
   type is its code modulo 256, and of any text for VOID.
   */
  lemma OddTexts(typ: BasicType, s: string, garbage: Raw, t: Text)
    ensures ParseBasic(typ, "null", garbage, t) == Ok(0)
    ensures typ.Byte? || typ.Boolean? ==>
              var r := ParseBasic(typ, s, garbage, t);
              if s == "null" then r == Ok(0)
              else if |s| != 1 then r == Err(BadCast)
              else r.Ok? && r.value % 0x100 == s[0] as int % 0x100 && r.value / 0x100 == garbage / 0x100
    ensures typ.Void? && s != "null" ==> ParseBasic(typ, s, garbage, t) == Ok(garbage)
  {
  }

  /** A parsed number leaves the bytes above it as the cell had them. */
  lemma ParsedAbove(typ: BasicType, s: string, garbage: Raw, t: Text)
    requires s != "null" && (IsInteger(typ) || typ.Float?)
    ensures var r := ParseBasic(typ, s, garbage, t);
            r.Ok? ==> r.value / Modulus(WidthOf(typ)) == garbage / Modulus(WidthOf(typ))
  {
    var number := LexicalCast(s, WidthOf(typ), IsSigned(typ));
    if IsInteger(typ) && number.Ok? {
      NativeBytes(typ, number.value, garbage);
    }
  }

  /** The values that survive printing and parsing. */
  predicate BasicRoundTrips(typ: BasicType, raw: Raw, t: Text) {
    match typ
    case Byte => false
    case Boolean => false
    case Float => t.FaithfulFloat(Decode(Float, raw))
    case Double => t.FaithfulDouble(raw)
    case _ => true
  }

  /** Integers and references of every width always survive; single bytes never do; floats as their text does. */
  lemma BasicRoundTrip(typ: BasicType, raw: Raw, garbage: Raw, t: Text)
    ensures var r := ParseBasic(typ, PrintBasic(typ, raw, t), garbage, t);
            (r.Ok? && Decode(typ, r.value) == Decode(typ, raw)) <==> BasicRoundTrips(typ, raw, t)
  {
    if IsInteger(typ) {
      IntegerRoundTrip(typ, raw, garbage, t);
    } else if IsReference(typ) {
      ReferenceRoundTrip(typ, raw, garbage, t);
    } else if IsReal(typ) {
      RealRoundTrip(typ, raw, garbage, t);
    } else if typ.Byte? || typ.Boolean? {
      ByteNeverRoundTrips(typ, raw, garbage, t);
    }
  }

  lemma RealRoundTrip(typ: BasicType, raw: Raw, garbage: Raw, t: Text)
    requires IsReal(typ)
    ensures var r := ParseBasic(typ, PrintBasic(typ, raw, t), garbage, t);
            (r.Ok? && Decode(typ, r.value) == Decode(typ, raw)) <==> BasicRoundTrips(typ, raw, t)
  {
    DecodeEight(typ, raw);
  }

  lemma IntegerRoundTrip(typ: BasicType, raw: Raw, garbage: Raw, t: Text)
    requires IsInteger(typ)
    ensures var r := ParseBasic(typ, PrintBasic(typ, raw, t), garbage, t);
            r.Ok? && Decode(typ, r.value) == Decode(typ, raw)
  {
    var n := Decode(typ, raw);
    var s := ToDecimal(n);
    assert PrintBasic(typ, raw, t) == s;
    DecimalRoundTrip(n, WidthOf(typ), IsSigned(typ));
    DecimalIsNotNull(n);
    assert ParseBasic(typ, s, garbage, t) == Ok(Store(typ, n, garbage));
  }

  lemma ReferenceRoundTrip(typ: BasicType, raw: Raw, garbage: Raw, t: Text)
    requires IsReference(typ)
    ensures ParseBasic(typ, PrintBasic(typ, raw, t), garbage, t) == Ok(raw)
  {
    PointerRoundTrip(raw);
    ParseReference(typ, PrintPointer(raw), garbage, t);
    PrintReference(typ, raw, t);
  }

  lemma ParseReference(typ: BasicType, s: string, garbage: Raw, t: Text)
    requires IsReference(typ) && s != "null"
    ensures ParseBasic(typ, s, garbage, t) == ParsePointer(s)
  {
  }

  lemma PrintReference(typ: BasicType, raw: Raw, t: Text)
    requires IsReference(typ)
    ensures PrintBasic(typ, raw, t) == PrintPointer(raw)
  {
  }

  /** A one-byte number is printed in decimal and read back as a character: 0 to 9 shift by 48, the others throw. */
  lemma ByteNeverRoundTrips(typ: BasicType, raw: Raw, garbage: Raw, t: Text)
    requires typ.Byte? || typ.Boolean?
    ensures var n := Decode(typ, raw);
            var r := ParseBasic(typ, PrintBasic(typ, raw, t), garbage, t);
            if 0 <= n < 10 then r.Ok? && Decode(typ, r.value) == n + 48 else r == Err(BadCast)
  {
    var n := Decode(typ, raw);
    OneDigit(n);
    DecimalIsNotNull(n);
    assert PrintBasic(typ, raw, t) == ToDecimal(n);
    if 0 <= n < 10 {
      CharacterCell(typ, ToDecimal(n), n + 48, garbage);
    }
  }

  lemma CharacterCell(typ: BasicType, s: string, code: int, garbage: Raw)
    requires typ.Byte? || typ.Boolean?
    requires |s| == 1 && s[0] as int == code < 0x80
    ensures ParseCharacter(s, garbage).Ok? && Decode(typ, ParseCharacter(s, garbage).value) == code
  {
    assert code % 0x100 == code;
  }

  // Printed and parsed once, as an argument is

  /** What a printed number, bit pattern or pointer is read back as; None when the parser throws. */
  function RereadAs(typ: BasicType, n: int, t: Text): (r: Option<int>)
    requires !typ.Void? ==> InRange(n, WidthOf(typ), IsSigned(typ))
  {
    match typ
    case Byte => if 0 <= n < 10 then Some(n + 48) else None
    case Boolean => if n < 10 then Some(n + 48) else None
    case Float => t.RereadFloat(n)
    case Double => t.RereadDouble(n)
    case _ => Some(n)
  }

  function Reread(typ: BasicType, raw: Raw, t: Text): Option<int> {
    RereadAs(typ, Decode(typ, raw), t)
  }

  /** One round of printing and parsing gives the predicted reading, whatever the garbage, or throws as predicted. */
  lemma OneRound(typ: BasicType, raw: Raw, garbage: Raw, t: Text)
    ensures var r := ParseBasic(typ, PrintBasic(typ, raw, t), garbage, t);
            match Reread(typ, raw, t)
            case Some(n) => r.Ok? && Decode(typ, r.value) == n
            case None => r == Err(BadCast)
  {
    if typ.Byte? || typ.Boolean? {
      ByteRound(typ, raw, garbage, t);
    } else if IsReal(typ) {
      RealRound(typ, raw, garbage, t);
    } else {
      BasicRoundTrip(typ, raw, garbage, t);
    }
  }

  lemma ByteRound(typ: BasicType, raw: Raw, garbage: Raw, t: Text)
    requires typ.Byte? || typ.Boolean?
    ensures var r := ParseBasic(typ, PrintBasic(typ, raw, t), garbage, t);
            match Reread(typ, raw, t)
            case Some(n) => r.Ok? && Decode(typ, r.value) == n
            case None => r == Err(BadCast)
  {
    ByteNeverRoundTrips(typ, raw, garbage, t);
  }

  lemma RealRound(typ: BasicType, raw: Raw, garbage: Raw, t: Text)
    requires IsReal(typ)
    ensures var r := ParseBasic(typ, PrintBasic(typ, raw, t), garbage, t);
            match Reread(typ, raw, t)
            case Some(n) => r.Ok? && Decode(typ, r.value) == n
            case None => r == Err(BadCast)
  {
    RealIsReread(typ, raw, garbage, t);
    DecodeEight(typ, raw);
    var r := ParseBasic(typ, PrintBasic(typ, raw, t), garbage, t);
    if r.Ok? {
      DecodeEight(typ, r.value);
    }
  }

  /** A value survives a round exactly if it is read back as itself. */
  lemma FaithfulIsReread(typ: BasicType, raw: Raw, t: Text)
    ensures BasicRoundTrips(typ, raw, t) <==> Reread(typ, raw, t) == Some(Decode(typ, raw))
  {
    DecodeEight(typ, raw);
  }

  // Printed and parsed twice, as the value of a reply is

  /** Whether a value is still a value after two rounds: single bytes never, reals as their text is. */
  predicate Arrives(typ: BasicType, raw: Raw, t: Text) {
    match typ
    case Byte => false
    case Boolean => false
    case Float =>
      var bits := t.RereadFloat(Decode(Float, raw));
      bits.Some? && t.RereadFloat(bits.value).Some?
    case Double =>
      var bits := t.RereadDouble(raw);
      bits.Some? && t.RereadDouble(bits.value).Some?
    case _ => true
  }

  /** The text of a value after two rounds. */
  function ArrivedText(typ: BasicType, raw: Raw, t: Text): string
    requires Arrives(typ, raw, t)
  {
    match typ
    case Float => t.printFloat(t.RereadFloat(t.RereadFloat(Decode(Float, raw)).value).value)
    case Double => t.printDouble(t.RereadDouble(t.RereadDouble(raw).value).value)
    case _ => PrintBasic(typ, raw, t)
  }

  /** The reading that one round gives to a real. */
  lemma RealIsReread(typ: BasicType, raw: Raw, garbage: Raw, t: Text)
    requires IsReal(typ)
    ensures var r := ParseBasic(typ, PrintBasic(typ, raw, t), garbage, t);
            if typ.Float? then
              var bits := t.RereadFloat(Decode(Float, raw));
              if bits.Some? then r.Ok? && Decode(Float, r.value) == bits.value else r == Err(BadCast)
            else
              var bits := t.RereadDouble(raw);
              if bits.Some? then r.Ok? && r.value == bits.value else r == Err(BadCast)
  {
  }

  /**
   Two rounds of printing and parsing, with any garbage, succeed exactly as predicted,
   and give the predicted text.
   */
  lemma TwoRounds(typ: BasicType, raw: Raw, garbage: Raw, garbage': Raw, t: Text)
    ensures var r := ParseBasic(typ, PrintBasic(typ, raw, t), garbage, t);
            if r.Err? then !Arrives(typ, raw, t)
            else
              var r' := ParseBasic(typ, PrintBasic(typ, r.value, t), garbage', t);
              && r'.Ok? == Arrives(typ, raw, t)
              && (r'.Ok? ==> PrintBasic(typ, r'.value, t) == ArrivedText(typ, raw, t))
  {
    var r := ParseBasic(typ, PrintBasic(typ, raw, t), garbage, t);
    if typ.Byte? || typ.Boolean? {
      ByteNeverRoundTrips(typ, raw, garbage, t);
      if r.Ok? {
        ByteNeverRoundTrips(typ, r.value, garbage', t);
      }
    } else if IsReal(typ) {
      RealIsReread(typ, raw, garbage, t);
      if r.Ok? {
        RealIsReread(typ, r.value, garbage', t);
      }
    } else {
      BasicRoundTrip(typ, raw, garbage, t);
      BasicRoundTrip(typ, r.value, garbage', t);
      var r' := ParseBasic(typ, PrintBasic(typ, r.value, t), garbage', t);
      PrintDependsOnDecode(typ, r'.value, raw, t);
    }
  }

  /** Whether and how a value arrives depends only on what the cell decodes to. */
  lemma ArrivesByDecode(typ: BasicType, raw: Raw, raw': Raw, t: Text)
    requires Decode(typ, raw) == Decode(typ, raw')
    ensures Arrives(typ, raw, t) == Arrives(typ, raw', t)
    ensures Arrives(typ, raw, t) ==> ArrivedText(typ, raw, t) == ArrivedText(typ, raw', t)
  {
    DecodeEight(typ, raw);
    DecodeEight(typ, raw');
    PrintDependsOnDecode(typ, raw, raw', t);
  }

  // JSON

  /** SharedMemory::getJson. */
  function ShmToJson(shm: ShmRecord): Json {
    Obj(map[
      "address" := Str(PrintPointer(shm.address)),
      "shmId" := Str(shm.shmId),
      "size" := Num(shm.size),
      "remoteAddressForRef" := Str(PrintPointer(shm.remoteAddress))])
  }

  /** The SharedMemory constructor from JSON. */
  function ShmFromJson(json: Json): (r: Result<ShmRecord>) {
    var shmId :- TextField(json, "shmId");
    var size :- NumberField(json, "size");
    var addressText :- TextField(json, "address");
    var address :- ParsePointer(addressText);
    var remoteText :- TextField(json, "remoteAddressForRef");
    var remote :- ParsePointer(remoteText);
    Ok(ShmRecord(shmId, size, address, remote))
  }

  lemma ShmRoundTrip(shm: ShmRecord)
    ensures ShmFromJson(ShmToJson(shm)) == Ok(shm)
  {
    ShmFields(shm);
    PointerRoundTrip(shm.address);
    PointerRoundTrip(shm.remoteAddress);
  }

  lemma ShmFields(shm: ShmRecord)
    ensures var json := ShmToJson(shm);
            && json.Obj? && json.fields.Keys == {"address", "shmId", "size", "remoteAddressForRef"}
            && TextField(json, "shmId") == Ok(shm.shmId)
            && NumberField(json, "size") == Ok(shm.size)
            && TextField(json, "address") == Ok(PrintPointer(shm.address))
            && TextField(json, "remoteAddressForRef") == Ok(PrintPointer(shm.remoteAddress))
  {
    assert |"address"| == 7 && |"shmId"| == 5 && |"size"| == 4 && |"remoteAddressForRef"| == 19;
  }

  /** JniValue::getJson and its override. */
  function ToJson(v: Value, t: Text): Json {
    match v
    case Basic(typ, raw) => Obj(map["signature" := Str(SignatureOf(typ)), "value" := Str(PrintBasic(typ, raw, t))])
    case CString(s) => Obj(map["signature" := Str("CSTRING"), "value" := Str(s)])
    case CPointer(shm) => Obj(map["signature" := Str("*"), "sharedMemory" := ShmToJson(shm)])
  }

  /** JniValueFactory::buildFromJson. */
  function BuildFromJson(json: Json, garbage: Raw, t: Text): Result<Value> {
    var signature :- TextField(json, "signature");
    if signature in PRIMITIVE_TABLE then
      TablesAreInverse();
      var value :- TextField(json, "value");
      var raw :- ParseBasic(PRIMITIVE_TABLE[signature], value, garbage, t);
      Ok(Basic(PRIMITIVE_TABLE[signature], raw))
    else if signature in CSTRING_TABLE then
      var value :- TextField(json, "value");
      Ok(CString(value))
    else if signature in ADDRESS_TABLE then
      var shmJson :- Field(json, "sharedMemory");
      var shm :- ShmFromJson(shmJson);
      Ok(CPointer(shm))
    else Err(BadSignature)
  }

  lemma ParseFailures(typ: BasicType, s: string, garbage: Raw, t: Text)
    ensures var r := ParseBasic(typ, s, garbage, t);
            r.Err? ==> r.failure == BadCast || r.failure == OutOfRange
  {
  }

  /** JniValueFactory::build from a signature and a raw cell. */
  function BuildFromRaw(signature: string, raw: Raw): Result<Value> {
    if signature in PRIMITIVE_TABLE then
      TablesAreInverse();
      Ok(Basic(PRIMITIVE_TABLE[signature], raw))
    else Err(BadSignature)
  }

  /** Equal up to the bytes that the type does not use. */
  predicate SameValue(v: Value, w: Value) {
    if v.Basic? && w.Basic? then v.typ == w.typ && Decode(v.typ, v.raw) == Decode(w.typ, w.raw) else v == w
  }

  predicate RoundTrips(v: Value, t: Text) {
    v.Basic? ==> BasicRoundTrips(v.typ, v.raw, t)
  }

  /** The factory inverts the JSON printer exactly on the values that round trip. */
  lemma ValueRoundTrip(v: Value, garbage: Raw, t: Text)
    ensures var r := BuildFromJson(ToJson(v, t), garbage, t);
            (r.Ok? && SameValue(v, r.value)) <==> RoundTrips(v, t)
  {
    match v {
      case Basic(typ, raw) =>
        BasicRoundTrip(typ, raw, garbage, t);
        BuildBasic(typ, PrintBasic(typ, raw, t), garbage, t);
      case CString(s) => BuildString(s, garbage, t);
      case CPointer(shm) => BuildPointer(shm, garbage, t);
    }
  }

  /** A record needs its four fields, and pointers that parse. */
  lemma RecordNeeds(json: Json)
    ensures var address, remote := TextField(json, "address"), TextField(json, "remoteAddressForRef");
            ShmFromJson(json).Ok? <==>
            && TextField(json, "shmId").Ok? && NumberField(json, "size").Ok?
            && address.Ok? && ParsePointer(address.value).Ok?
            && remote.Ok? && ParsePointer(remote.value).Ok?
  {
  }

  /** A value needs a signature that is in one of the tables. */
  lemma ValueNeeds(json: Json, garbage: Raw, t: Text)
    ensures var signature := TextField(json, "signature");
            && (signature.Err? ==> BuildFromJson(json, garbage, t) == Err(BadJson))
            && (signature.Ok? &&
                signature.value !in {"B", "C", "S", "I", "J", "F", "D", "VOID", "Z", "JSIZE", "JOBJECT", "JARRAY",
                                     "CSTRING", "*"} ==>
                  BuildFromJson(json, garbage, t) == Err(BadSignature) &&
                  BuildFromRaw(signature.value, garbage) == Err(BadSignature))
            && (BuildFromRaw("CSTRING", garbage) == BuildFromRaw("*", garbage) == Err(BadSignature))
  {
    TablesAreInverse();
  }

  lemma BuildString(s: string, garbage: Raw, t: Text)
    ensures BuildFromJson(ToJson(CString(s), t), garbage, t) == Ok(CString(s))
  {
    TablesAreInverse();
  }

  lemma BuildPointer(shm: ShmRecord, garbage: Raw, t: Text)
    ensures BuildFromJson(ToJson(CPointer(shm), t), garbage, t) == Ok(CPointer(shm))
  {
    TablesAreInverse();
    ShmRoundTrip(shm);
  }

  lemma BuildBasic(typ: BasicType, s: string, garbage: Raw, t: Text)
    ensures var r := BuildFromJson(Obj(map["signature" := Str(SignatureOf(typ)), "value" := Str(s)]), garbage, t);
            var cell := ParseBasic(typ, s, garbage, t);
            r == if cell.Ok? then Ok(Basic(typ, cell.value)) else Err(cell.failure)
  {
    TablesAreInverse();
  }

  /** The JSON of a value, field by field. */
  lemma ValueShape(v: Value, t: Text)
    ensures var json := ToJson(v, t);
            match v
            case Basic(typ, raw) =>
              && json.Obj? && json.fields.Keys == {"signature", "value"}
              && TextField(json, "signature") == Ok(SignatureOf(typ))
              && TextField(json, "value") == Ok(PrintBasic(typ, raw, t))
            case CString(s) =>
              && json.Obj? && json.fields.Keys == {"signature", "value"}
              && TextField(json, "signature") == Ok("CSTRING") && TextField(json, "value") == Ok(s)
            case CPointer(shm) =>
              && json.Obj? && json.fields.Keys == {"signature", "sharedMemory"}
              && TextField(json, "signature") == Ok("*") && Field(json, "sharedMemory") == Ok(ShmToJson(shm))
  {
    assert |"signature"| == 9 && |"value"| == 5 && |"sharedMemory"| == 12;
  }

  /** The text of a value: decimal for numbers, hexadecimal for references, nothing for VOID. */
  lemma TextForms(typ: BasicType, raw: Raw, t: Text)
    ensures var s := PrintBasic(typ, raw, t);
            if typ.Void? then s == ""
            else if typ.Float? then s == t.printFloat(raw % 0x1_0000_0000)
            else if typ.Double? then s == t.printDouble(raw)
            else if typ.JObject? || typ.JArray? then
              |s| > 2 && s[..2] == "0x" && AllDigits(s[2..], 16) && Numerals.Value(s[2..], 16) == raw
            else if Decode(typ, raw) < 0 then
              |s| > 1 && s[0] == '-' && AllDigits(s[1..], 10) && Numerals.Value(s[1..], 10) == -Decode(typ, raw)
            else AllDigits(s, 10) && Numerals.Value(s, 10) == Decode(typ, raw)
  {
    DecimalText(Decode(typ, raw));
    PointerText(raw);
  }

  /** Text depends only on what the cell decodes to. */
  lemma PrintDependsOnDecode(typ: BasicType, raw: Raw, raw': Raw, t: Text)
    requires Decode(typ, raw) == Decode(typ, raw')
    ensures PrintBasic(typ, raw, t) == PrintBasic(typ, raw', t)
    ensures BasicRoundTrips(typ, raw, t) == BasicRoundTrips(typ, raw', t)
  {
    DecodeEight(typ, raw);
    DecodeEight(typ, raw');
  }

  /** A mutable BasicJniValue. */
  class BasicJniValue {
    const jniValueType: BasicType
    var rawValue: Raw

    constructor (jniValueType: BasicType, garbage: Raw)
      ensures this.jniValueType == jniValueType && rawValue == garbage
    {
      this.jniValueType := jniValueType;
      this.rawValue := garbage;
    }

    function View(): Value
      reads this
    {
      Basic(jniValueType, rawValue)
    }

    method SetByString(s: string, t: Text) returns (r: Result<()>)
      modifies this
      ensures match ParseBasic(jniValueType, s, old(rawValue), t)
              case Ok(raw) => r == Ok(()) && rawValue == raw
              case Err(failure) => r == Err(failure) && rawValue == old(rawValue)
    {
      var parsed := ParseBasic(jniValueType, s, rawValue, t);
      match parsed {
        case Ok(raw) => rawValue := raw; r := Ok(());
        case Err(failure) => r := Err(failure);
      }
    }

    /** memcpy into a fresh local cell that becomes the value's cell. */
    method SetByInt(value: int, garbage: Raw)
      requires InRange(value, Four, true)
      modifies this
      ensures Decode(Int, rawValue) == value && Decode(JSize, rawValue) == value
      ensures rawValue % 0x1_0000_0000 == value % 0x1_0000_0000
      ensures rawValue / 0x1_0000_0000 == garbage / 0x1_0000_0000
    {
      StoreLoad(value, Four, true, garbage);
      EncodeIsModulo(value, Four, true);
      rawValue := Overwrite(Encode(value, Four, true), Four, garbage);
    }

    method SetByFloat(bits: Bits32, garbage: Raw)
      modifies this
      ensures Decode(Float, rawValue) == bits
      ensures rawValue % 0x1_0000_0000 == bits && rawValue / 0x1_0000_0000 == garbage / 0x1_0000_0000
    {
      rawValue := Overwrite(bits, Four, garbage);
    }

    method SetByJobjectId(id: Raw)
      modifies this
      ensures Decode(JObject, rawValue) == id && Decode(JArray, rawValue) == id
    {
      rawValue := id;
      DecodeEight(JObject, id);
    }

    /** A clone is a new object that native code and the printer cannot tell from the original. */
    method Clone() returns (copy: BasicJniValue)
      ensures fresh(copy) && copy.View() == View()
    {
      copy := new BasicJniValue(jniValueType, 0);
      copy.rawValue := rawValue;
    }
  }
}
