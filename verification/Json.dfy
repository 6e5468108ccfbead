/**
 JSON trees, and the library conversions that the program relies on without
 implementing them: JSON text (json.hpp) and the decimal text of floats.
 */
module JsonTrees {
  import opened Results
  import opened Cells

  datatype Json =
    | Null
    | Str(text: string)
    | Num(number: int)
    | Arr(items: seq<Json>)
    | Obj(fields: map<string, Json>)

  function Field(json: Json, key: string): (r: Result<Json>)
    ensures r.Ok? <==> json.Obj? && key in json.fields
    ensures r.Err? ==> r.failure == BadJson
  {
    if json.Obj? && key in json.fields then Ok(json.fields[key]) else Err(BadJson)
  }

  function TextField(json: Json, key: string): (r: Result<string>)
    ensures r.Ok? <==> json.Obj? && key in json.fields && json.fields[key].Str?
    ensures r.Err? ==> r.failure == BadJson
  {
    var value :- Field(json, key);
    if value.Str? then Ok(value.text) else Err(BadJson)
  }

  function NumberField(json: Json, key: string): (r: Result<int>)
    ensures r.Ok? <==> json.Obj? && key in json.fields && json.fields[key].Num?
    ensures r.Err? ==> r.failure == BadJson
  {
    var value :- Field(json, key);
    if value.Num? then Ok(value.number) else Err(BadJson)
  }

  type Bits32 = b: int | 0 <= b < 0x1_0000_0000

  /** The conversions of the C++ and JSON libraries. Floats are their bit patterns. */
  datatype Text = Text(
    printFloat: Bits32 -> string,
    parseFloat: string -> Option<Bits32>,
    printDouble: Raw -> string,
    parseDouble: string -> Option<Raw>,
    dump: Json -> string,
    parse: string -> Option<Json>)
  {
    /**
     What is assumed of JSON text: parsing inverts printing, also with a newline
     behind it, and control characters are escaped (section 7 of RFC 8259).
     */
    ghost predicate Sound() {
      forall j: Json ::
        && parse(dump(j)) == Some(j)
        && parse(dump(j) + "\n") == Some(j)
        && '\n' !in dump(j) && '\0' !in dump(j)
    }

    /** What the six printed decimals of a float parse to ("null" is read as zero). */
    function RereadFloat(bits: Bits32): Option<Bits32> {
      if printFloat(bits) == "null" then Some(0) else parseFloat(printFloat(bits))
    }

    function RereadDouble(bits: Raw): Option<Raw> {
      if printDouble(bits) == "null" then Some(0) else parseDouble(printDouble(bits))
    }

    /** A float whose text parses to the same bits. */
    predicate FaithfulFloat(bits: Bits32) {
      RereadFloat(bits) == Some(bits)
    }

    predicate FaithfulDouble(bits: Raw) {
      RereadDouble(bits) == Some(bits)
    }
  }
}
