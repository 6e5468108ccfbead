/**
 Parameter passing of section 3.2.3 of the System V AMD64 ABI, for parameters
 of the classes INTEGER and SSE that fit one register.
 */
module CallingConvention {
  import opened Cells

  datatype Argument = IntegerClass(word: Raw) | SseClass(word: Raw)

  /**
   rdi, rsi, rdx, rcx, r8, r9 as far as used; the low halves of xmm0.. as far as used;
   the stack words, lowest address first.
   */
  datatype Frame = Frame(ints: seq<Raw>, sse: seq<Raw>, stack: seq<Raw>)

  const INT_REGISTERS := 6
  const SSE_REGISTERS := 8

  function PlaceOne(f: Frame, a: Argument): Frame {
    match a
    case IntegerClass(w) =>
      if |f.ints| < INT_REGISTERS then f.(ints := f.ints + [w]) else f.(stack := f.stack + [w])
    case SseClass(w) =>
      if |f.sse| < SSE_REGISTERS then f.(sse := f.sse + [w]) else f.(stack := f.stack + [w])
  }

  /** Left to right, each argument takes the next free register of its class, or the next stack word. */
  function Place(arguments: seq<Argument>): Frame {
    if arguments == [] then Frame([], [], [])
    else PlaceOne(Place(arguments[..|arguments| - 1]), arguments[|arguments| - 1])
  }

  // The same in figures

  function Ints(arguments: seq<Argument>): seq<Raw> {
    if arguments == [] then []
    else
      var a := arguments[|arguments| - 1];
      Ints(arguments[..|arguments| - 1]) + if a.IntegerClass? then [a.word] else []
  }

  function Sses(arguments: seq<Argument>): seq<Raw> {
    if arguments == [] then []
    else
      var a := arguments[|arguments| - 1];
      Sses(arguments[..|arguments| - 1]) + if a.SseClass? then [a.word] else []
  }

  /** From the seventh argument of class INTEGER and the ninth of class SSE on, in the order of the list. */
  function Overflow(arguments: seq<Argument>): seq<Raw> {
    if arguments == [] then []
    else
      var front, a := arguments[..|arguments| - 1], arguments[|arguments| - 1];
      Overflow(front) + if |if a.IntegerClass? then Ints(front) else Sses(front)| >= (if a.IntegerClass? then 6 else 8)
                        then [a.word] else []
  }

  function Take(s: seq<Raw>, n: nat): seq<Raw> {
    if |s| <= n then s else s[..n]
  }

  /** rdi, rsi, rdx, rcx, r8, r9 take the first six integers, xmm0 to xmm7 the first eight reals, the stack the rest. */
  lemma {:induction false} PlaceByClass(arguments: seq<Argument>)
    ensures Place(arguments) == Frame(Take(Ints(arguments), 6), Take(Sses(arguments), 8), Overflow(arguments))
  {
    if arguments != [] {
      PlaceByClass(arguments[..|arguments| - 1]);
    }
  }

  predicate OnlyIntegers(arguments: seq<Argument>) {
    forall a :: a in arguments ==> a.IntegerClass?
  }

  lemma {:induction false} IntegersOverflow(arguments: seq<Argument>)
    requires OnlyIntegers(arguments)
    ensures Ints(arguments) == WordsOf(arguments)
    ensures Overflow(arguments) == if |arguments| <= 6 then [] else WordsOf(arguments)[6..]
  {
    if arguments != [] {
      var n := |arguments| - 1;
      assert arguments[n] in arguments;
      IntegersOverflow(arguments[..n]);
      assert WordsOf(arguments) == WordsOf(arguments[..n]) + [arguments[n].word];
    }
  }

  function WordsOf(arguments: seq<Argument>): (words: seq<Raw>)
    ensures |words| == |arguments|
  {
    seq(|arguments|, i requires 0 <= i < |arguments| => arguments[i].word)
  }

  // The callee's side: where a parameter is, from the parameter classes alone.

  datatype Location = IntRegister(index: nat) | SseRegister(index: nat) | StackWord(index: nat)

  function SseBefore(isSse: seq<bool>, i: nat): (n: nat)
    requires i <= |isSse|
    ensures n <= i
  {
    if i == 0 then 0 else SseBefore(isSse, i - 1) + if isSse[i - 1] then 1 else 0
  }

  function Excess(n: int, limit: int): nat {
    if n > limit then n - limit else 0
  }

  function Locate(isSse: seq<bool>, i: nat): Location
    requires i < |isSse|
  {
    LocateNext(isSse[i], SseBefore(isSse, i), i - SseBefore(isSse, i))
  }

  /** The place of a parameter that has `sse` and `ints` parameters of the two classes before it. */
  function LocateNext(isSse: bool, sse: nat, ints: nat): Location {
    if isSse && sse < SSE_REGISTERS then SseRegister(sse)
    else if !isSse && ints < INT_REGISTERS then IntRegister(ints)
    else StackWord(Excess(sse, SSE_REGISTERS) + Excess(ints, INT_REGISTERS))
  }

  predicate Holds(f: Frame, l: Location) {
    match l
    case IntRegister(i) => i < |f.ints|
    case SseRegister(i) => i < |f.sse|
    case StackWord(i) => i < |f.stack|
  }

  function ReadAt(f: Frame, l: Location): Raw
    requires Holds(f, l)
  {
    match l
    case IntRegister(i) => f.ints[i]
    case SseRegister(i) => f.sse[i]
    case StackWord(i) => f.stack[i]
  }

  function Classes(arguments: seq<Argument>): (isSse: seq<bool>)
    ensures |isSse| == |arguments|
  {
    seq(|arguments|, i requires 0 <= i < |arguments| => arguments[i].SseClass?)
  }

  lemma {:induction false} SseBeforePrefix(isSse: seq<bool>, n: nat, i: nat)
    requires i <= n <= |isSse|
    ensures SseBefore(isSse[..n], i) == SseBefore(isSse, i)
  {
    if i > 0 {
      SseBeforePrefix(isSse, n, i - 1);
    }
  }

  /** How full each part of the frame is. */
  lemma {:induction false} PlaceSizes(arguments: seq<Argument>)
    ensures var sse := SseBefore(Classes(arguments), |arguments|);
            var ints := |arguments| - sse;
            var f := Place(arguments);
            && |f.sse| == sse - Excess(sse, SSE_REGISTERS)
            && |f.ints| == ints - Excess(ints, INT_REGISTERS)
            && |f.stack| == Excess(sse, SSE_REGISTERS) + Excess(ints, INT_REGISTERS)
  {
    if arguments != [] {
      var n := |arguments| - 1;
      PlaceSizes(arguments[..n]);
      assert Classes(arguments[..n]) == Classes(arguments)[..n];
      SseBeforePrefix(Classes(arguments), n, n);
    }
  }

  lemma LocatePrefix(isSse: seq<bool>, n: nat, i: nat)
    requires i < n <= |isSse|
    ensures Locate(isSse[..n], i) == Locate(isSse, i)
  {
    SseBeforePrefix(isSse, n, i);
  }

  /** Placing one more argument moves none of the earlier ones. */
  lemma PlaceOneKeeps(f: Frame, a: Argument, l: Location)
    requires Holds(f, l)
    ensures Holds(PlaceOne(f, a), l) && ReadAt(PlaceOne(f, a), l) == ReadAt(f, l)
  {
  }

  lemma PlaceLast(arguments: seq<Argument>)
    requires arguments != []
    ensures var n := |arguments| - 1;
            var l := Locate(Classes(arguments), n);
            Holds(Place(arguments), l) && ReadAt(Place(arguments), l) == arguments[n].word
  {
    var n := |arguments| - 1;
    var isSse := Classes(arguments);
    assert Classes(arguments[..n]) == isSse[..n];
    SseBeforePrefix(isSse, n, n);
    PlaceSizes(arguments[..n]);
    var sse := SseBefore(isSse, n);
    PlaceOneLast(Place(arguments[..n]), arguments[n], sse, n - sse);
  }

  lemma PlaceOneLast(f: Frame, a: Argument, sse: nat, ints: nat)
    requires |f.sse| == sse - Excess(sse, SSE_REGISTERS) && |f.ints| == ints - Excess(ints, INT_REGISTERS)
    requires |f.stack| == Excess(sse, SSE_REGISTERS) + Excess(ints, INT_REGISTERS)
    ensures var l := LocateNext(a.SseClass?, sse, ints);
            Holds(PlaceOne(f, a), l) && ReadAt(PlaceOne(f, a), l) == a.word
  {
  }

  /** Caller and callee agree: reading a parameter's location gives the argument that was passed for it. */
  lemma {:induction false} PlaceThenLocate(arguments: seq<Argument>, i: nat)
    requires i < |arguments|
    ensures var l := Locate(Classes(arguments), i);
            Holds(Place(arguments), l) && ReadAt(Place(arguments), l) == arguments[i].word
  {
    var n := |arguments| - 1;
    if i < n {
      PlaceThenLocate(arguments[..n], i);
      assert Classes(arguments[..n]) == Classes(arguments)[..n];
      LocatePrefix(Classes(arguments), n, i);
      PlaceOneKeeps(Place(arguments[..n]), arguments[n], Locate(Classes(arguments), i));
    } else {
      PlaceLast(arguments);
    }
  }
}
