# A verified model of valjni

valjni runs the native half of a JNI method in another process. The client, inside
the JVM, sends one `JniCall`; the server loads the shared object, calls the native
function, and relays the function's own JNIEnv calls back to the client; a `JniReply`
ends the conversation. The point of the program is that Java cannot tell the
difference. This project models the program and proves to what extent that is so.

| file | models |
|---|---|
| `Cells.dfy`, `Numerals.dfy`, `Json.dfy`, `Values.dfy`, `Messages.dfy` | 64-bit cells with unspecified upper bytes, decimal and hexadecimal text, JSON trees, typed values, the four messages and their factory |
| `CallingConvention.dfy`, `Loader.dfy` | parameter passing of section 3.2.3 of the System V AMD64 ABI, and the loader that imitates it |
| `ArgumentQueue.dfy` | the Java side's pushes, the argument queue, JNI local and global references |
| `Handlers.dfy` | what client and server do with one message; shared by the files below |
| `Dispatch.dfy` | the handlers on every kind of message, also those that no conversation brings |
| `ArrivingCalls.dfy` | what the server gets of a printed call |
| `Protocol.dfy` | client, server and two byte pipes as a step machine, and its refinement of the direct run |
| `ClientLoop.dfy`, `ServerLoop.dfy` | the two programs' loops as mutable objects |
| `Refinement.dfy` | the two programs over whole executions of the machine |
| `SharedArrays.dfy`, `SeparateArrays.dfy`, `NativeArrays.dfy` | POSIX shared memory, the two registries, the data path of `GetIntArrayElements`, that different arrays are in different memory, and the address that the native code gets |
| `JavaResults.dfy`, `EndToEnd.dfy` | `asPrimitiveObject`, and one `invokeJni` from Java arguments to Java result |
| `LocalRuns.dfy` | the same call inside the JVM, on Java's own handles |
| `Series.dfy` | a series of `invokeJni` calls on one queue and one JVM |

The native function is any function from the parameters and replies it has got to its
next move: return, or call the JVM. The JVM is any state with any three operations.
The bytes that a narrow value leaves unspecified in its cell are explicit parameters
(`garbage`), as are the addresses from `mmap`, the numbers from `rand()` and the
handles that the JVM gives out.

What is true of the code, and what is not:

- An `int` result reaches Java unchanged, with the same env calls in the same order
  and the same replies as in the direct run, which is the native code on the JVM with the
  parameters that the server gets. `AsIfLocal` compares that with a local call on Java's
  own handles. A reference result reaches `updateJniReturn` with the right handle, but
  `asPrimitiveObject` has no case for references, so `invokeJni` throws.
  `JavaGetsAnswerIff` gives the exact condition, on the direct run alone, under which
  `invokeJni` returns.
- `pushReturnValue` only ever asks for an INT, a FLOAT, a JARRAY or a JOBJECT. A native
  method that returns void, boolean, byte, char, short, long or double is sent with a
  JOBJECT placeholder (`OtherClass` in `TypeOfClass`), so that its `invokeJni` throws too.
- The codec has more types than Java asks for; for these it is still true that a `BYTE`
  or `BOOLEAN` is printed as a number and read back as a character, so that no value
  survives (`ByteNeverRoundTrips`), that the loader keeps only the low four bytes of a
  `DOUBLE` result (`CollectReturnTruncatesDouble`), and that a printed boolean would be
  false for Java (`BooleanIsFalse`). `NumberIsBoxed` is about BYTE, SHORT and LONG too,
  which Java never asks for; of these, only INT occurs.
- A float argument is printed and parsed once on its way, a float result twice. The
  native code, or Java, gets what the six decimals say, if they say anything (`Reread`;
  `Arrives`, `ArrivedText`); an argument whose decimals do not parse makes the server
  throw.
- A null Java argument throws, and the arguments pushed before it go out with the next
  call (`NoLeftoversIff`, `LeftoverExample`).
- The client reads argument 1 of `GetIntArrayElements`, which the proxy does not send
  (`ServesArrivedCall`). That is undefined behaviour; the model ends there, and nothing is
  claimed of what the real process does then. `SharedArrays.dfy` proves the rest of that path; it works
  exactly for a non-empty array whose byte size is an `int` (`ArrayIsShared`).

## Model

| member | source | states |
|---|---|---|
| Cells.StoreLoad | src/main/jni/common/JniRawValue.h:20-40 | Every number that a native type holds survives a store to a cell and a load from it, whatever the cell's other bytes are. |
| Cells.ReadIsCongruent | src/main/jni/common/JniRawValue.h:20-25 | What native code reads from a cell differs from the cell by a multiple of 256 to the power of the width: two's complement. |
| Cells.EncodeIsModulo | src/main/jni/common/JniRawValue.h:35-40 | The low bytes that hold a number are the number modulo 256 to the power of the width. |
| Numerals.DecimalRoundTrip | src/main/jni/common/JniRawValue.h:13-33 | A printed integer parses to itself exactly when the target type can hold it, over every width, signed or not. |
| Numerals.PointerRoundTrip | src/main/jni/common/JniRawValue.h:42-81 | For every 64-bit value, parsing the printed pointer gives it back, null included. |
| Numerals.PointerTextRoundTrip | src/main/jni/common/JniRawValue.h:42-90 | A string is 0x and at most sixteen canonical digits exactly when printing its parse gives it back. |
| Numerals.DigitsInOrder | src/main/jni/common/JniRawValue.h:42-60 | The digits are those of 0123456789abcdef, and upper-case ones are read too. |
| Numerals.ValueFromHead | src/main/jni/common/JniRawValue.h:13-33 | The first digit of a numeral counts for the base to the power of the number of digits behind it. |
| Numerals.DecimalText | src/main/jni/common/JniRawValue.h:13-18 | A printed integer is its shortest digits, behind a minus sign if it is negative. |
| Numerals.PointerText | src/main/jni/common/JniRawValue.h:42-60 | A printed pointer is 0x and digits of its value in base 16. |
| Numerals.CastOfDigits | src/main/jni/common/JniRawValue.h:27-33 | Digits are cast to their value exactly when it is within the type, and otherwise throw. |
| Numerals.CastOfPlus | src/main/jni/common/JniRawValue.h:27-33 | A plus sign changes nothing. |
| Numerals.CastOfMinus | src/main/jni/common/JniRawValue.h:27-33 | A minus sign negates, down to the least number of a signed type; an unsigned number wraps around. |
| Numerals.CastNeedsDigits | src/main/jni/common/JniRawValue.h:27-33 | Nothing but an optional sign and digits is cast. |
| Numerals.PrefixedForms | src/main/jni/common/JniRawValue.h:71-81 | The hexadecimal parser takes 0x or 0X and the digits up to the first other character, and throws beyond 64 bits. |
| Numerals.BareDigits | src/main/jni/common/JniRawValue.h:71-81 | Without the prefix it reads the same value. |
| Numerals.NoDigits | src/main/jni/common/JniRawValue.h:71-81 | Text that does not begin with a digit throws. |
| Values.TablesAreInverse | src/main/jni/common/JniValue.cpp:55-71 | Each signature table and the type-to-signature mapping invert each other on all types, and no signature is in two tables. |
| Values.SignatureNames | src/main/jni/common/JniValue.cpp:55-71 | JOBJECT, JARRAY, JSIZE, VOID, I and F stand for the types of these names. |
| Values.NativeReading | src/main/jni/common/JniRawValue.h:20-25 | For every native type, in figures: the range that native code reads a cell in, and that the reading is the cell modulo 2 to the 8, 16, 32 or 64. |
| Values.NativeBytes | src/main/jni/common/JniRawValue.h:35-40 | A stored number replaces exactly the low 1, 2, 4 or 8 bytes by the number modulo their capacity, and leaves the others. |
| Values.TextForms | src/main/jni/common/JniValue.cpp:79-114 | The text of a value of each type: decimal digits of the native reading, 0x and hexadecimal digits of a handle, the library's text of the low four or all bytes of a real, nothing for VOID. |
| Values.OddTexts | src/main/jni/common/JniValue.cpp:116-161 | The word null is a zero cell for every type; a one-byte type takes one character, as its code modulo 256, and no more; VOID keeps its cell. |
| Values.ParsedAbove | src/main/jni/common/JniRawValue.h:27-33 | A parsed number leaves the bytes above its width as the uninitialised cell had them. |
| Values.GetSignatureFromType | src/main/jni/common/JniValue.cpp:42-50 | The linear search finds the one signature of a type under every iteration order of the hash table, or none if the table lacks the type. |
| Values.BasicRoundTrip | src/main/jni/common/JniValue.cpp:79-161 | A value survives printing and parsing exactly when it is a CHAR, SHORT, INT, LONG, JSIZE, reference or VOID, or a float whose text is faithful, for any upper bytes. |
| Values.ByteNeverRoundTrips | src/main/jni/common/JniRawValue.h:27-33 | A BYTE or BOOLEAN of 0 to 9 comes back 48 larger, and every other one makes the parser throw. |
| Values.PrintDependsOnDecode | src/main/jni/common/JniRawValue.h:13-18 | The printed text does not depend on the unspecified bytes of a cell. |
| Values.OneRound | src/main/jni/common/JniRawValue.h:13-33 | A value that is printed and parsed once, as an argument is, is read as predicted, whatever the garbage, or makes the parser throw as predicted: a real as its text says, a single byte 48 larger or not at all, everything else as itself. |
| Values.TwoRounds | src/main/jni/client/JniClient.cpp:121-130 | A value that is printed and parsed twice, as a reply is, comes through exactly if it is no single byte and, for a real, both of its texts parse; then it has the predicted text, whatever the garbage. |
| Values.ShmRoundTrip | src/main/jni/common/SharedMemory.cpp:99-114 | A shared-memory record is rebuilt from its JSON with the same id, size and two addresses. |
| Values.ShmFields | src/main/jni/common/SharedMemory.cpp:106-114 | The JSON of a record has exactly the four fields address, shmId, size and remoteAddressForRef, with the two pointers as text. |
| Values.RecordNeeds | src/main/jni/common/SharedMemory.cpp:99-104 | A record is built exactly from JSON that has the four fields, with pointers that parse. |
| Values.ValueShape | src/main/jni/common/JniValue.cpp:18-26 | The JSON of a value has exactly a signature and its text or, for a C pointer, its record. |
| Values.ValueNeeds | src/main/jni/common/JniValueFactory.cpp:6-46 | A value is not built without a signature, nor with any but the fourteen; from a raw cell, not for C strings and C pointers. |
| Values.ValueRoundTrip | src/main/jni/common/JniValueFactory.cpp:6-27 | The factory inverts the JSON printer exactly on the values that survive, for basic values, C strings and C pointers. |
| Values.BasicJniValue.SetByString | src/main/jni/common/JniValue.cpp:116-161 | The cell becomes the parsed one; a text that does not parse leaves it as it was. |
| Values.BasicJniValue.SetByInt | src/main/jni/common/JniValue.cpp:204-206 | The low four bytes of the cell become the int modulo 2 to the 32, and the others those of the garbage; both the INT and the JSIZE reading give it. |
| Values.BasicJniValue.SetByFloat | src/main/jni/common/JniValue.cpp:208-210 | The low four bytes of the cell become the bits, and the others those of the garbage; the FLOAT reading gives the bits. |
| Values.BasicJniValue.SetByJobjectId | src/main/jni/common/JniValue.cpp:187-189 | After setting a handle, both reference readings of the cell give it. |
| Values.BasicJniValue.Clone | src/main/jni/common/JniValue.cpp:216-220 | A clone is a new object with the same type and cell. |
| Messages.ArgumentsRoundTrip | src/main/jni/common/CFunctionCall.cpp:23-29 | A list of any length, printed (an empty one as null) and read back, has equal values in order exactly when each element survives. |
| Messages.CallShape | src/main/jni/common/JniCall.cpp:25-47 | The JSON of a call has exactly its four fields: the names, null for an empty list and otherwise the array of the arguments, and the word null for no return value. |
| Messages.CallRoundTrip | src/main/jni/common/JniCall.cpp:7-47 | A call read from its JSON has the same names, arguments and return value exactly when all its values survive and a return value is set. |
| Messages.CallNeeds | src/main/jni/common/CFunctionCall.cpp:23-29 | A call is read exactly from JSON with its four fields, in which every argument and the return value can be built. |
| Messages.MessageRoundTrip | src/main/jni/common/JniMessageFactory.cpp:5-29 | For all four kinds, the factory applied to the printed message gives the same kind and content exactly when the carried values survive; it never gives another kind. |
| Messages.ClassPaths | src/main/jni/common/JniMessage.cpp:23-88 | The four class names are those of the Java classes in com.valjni.caller. |
| Messages.MessageShape | src/main/jni/common/JniMessage.cpp:23-88 | A printed message is the pair of its class name and its payload: the call, or an object with the return value. |
| Messages.FactoryDispatch | src/main/jni/common/JniMessageFactory.cpp:8-27 | The class name behind the last dot alone selects the constructor. |
| Messages.OddMessages | src/main/jni/common/JniMessageFactory.cpp:5-29 | Anything but a list that begins with a string and has a second element is no message; a fifth class name throws; a third element is not looked at. |
| Messages.ResultRoundTrip | src/main/jni/common/JniMessage.cpp:39-88 | The return value of a reply comes back equal exactly when it survives. |
| Messages.JniCall.ReadJson | src/main/jni/common/CFunctionCall.cpp:23-29 | The constructor loop builds exactly the call that the specification reads from the tree, or throws for the same reason. |
| Messages.JniCall.PrintJson | src/main/jni/common/JniCall.cpp:25-47 | The indexed loop produces the tree that the round-trip results are about. |
| Messages.JniCall.Clone | src/main/jni/common/JniCall.cpp:57-70 | A clone is a new call with the same fields, set return value or not. |
| Messages.Builder.Build | src/main/jni/common/JniEnvCall.cpp:15-41 | The built env call has the collected arguments in order, the name and the return value, and no path. |
| CallingConvention.PlaceThenLocate | src/main/jni_server/lib/SharedObjectLoader.cpp:199-216 | Section 3.2.3 of the System V AMD64 ABI: for any list of INTEGER and SSE arguments, the place where the callee looks for a parameter holds that argument. |
| CallingConvention.PlaceByClass | src/main/jni_server/lib/SharedObjectLoader.cpp:199-216 | In figures: of any list of arguments, the first six of class INTEGER are in rdi, rsi, rdx, rcx, r8 and r9, the first eight of class SSE in xmm0 to xmm7, and the others on the stack in the order of the list. |
| NativeLoader.SplitThenPlace | src/main/jni_server/lib/SharedObjectLoader.cpp:118-185 | With at most eight reals, placing only the non-real arguments gives the integer registers and stack of the interleaved list, and the reals are its SSE registers. |
| NativeLoader.RegistersAndStack | src/main/jni_server/lib/SharedObjectLoader.cpp:199-216 | In figures, for the native function's own prototype with at most eight reals: the environment, 0 and the first four words in the integer registers, the words from the fifth on the stack, the reals in xmm0 and up. |
| NativeLoader.LoadedFrameDelivers | src/main/jni_server/lib/SharedObjectLoader.cpp:113-185 | In the frame that the loader prepares, every parameter, the environment and the null object are read by the native function, from its own prototype, as the value passed for it. |
| NativeLoader.Loader.PutFloat | src/main/jni_server/lib/SharedObjectLoader.cpp:75-91 | The value ends in its own register; xmm0 is overwritten by the parameter itself; the other registers stay; from position 6 on it throws. |
| NativeLoader.Loader.PutDouble | src/main/jni_server/lib/SharedObjectLoader.cpp:57-73 | The same for doubles. |
| NativeLoader.Loader.SetupFloatArguments | src/main/jni_server/lib/SharedObjectLoader.cpp:102-111 | The descending loop leaves value i in xmm_i for all of up to six values, position 0 included; with more it throws in its first turn and has written xmm0 only. |
| NativeLoader.Loader.ExtractFloatArguments | src/main/jni_server/lib/SharedObjectLoader.cpp:292-301 | The push_back loop extracts the real arguments in order. |
| NativeLoader.Loader.ExtractNonFloatArguments | src/main/jni_server/lib/SharedObjectLoader.cpp:303-312 | The push_back loop extracts the other arguments in order. |
| NativeLoader.Loader.SelectCall | src/main/jni_server/lib/SharedObjectLoader.cpp:126-185 | Each case of the arity switch passes all words in order; nine or more throw. |
| NativeLoader.Loader.PrepareCall | src/main/jni_server/lib/SharedObjectLoader.cpp:113-185 | Succeeds exactly for at most six real and eight other arguments, and otherwise throws for the list that is too long. The frame has the environment, 0 and the first four words in its integer registers, the words from the fifth on its stack, and each real in its xmm register; the native function reads every argument's value in it. |
| NativeLoader.CollectReturnKeeps | src/main/jni_server/lib/SharedObjectLoader.cpp:93-99 | Integer, reference and float results are collected with the value that the native function left. |
| NativeLoader.CollectInFigures | src/main/jni_server/lib/SharedObjectLoader.cpp:93-99 | A float is the low four bytes of xmm0; everything that is no real is rax. |
| NativeLoader.CollectReturnTruncatesDouble | src/main/jni_server/lib/SharedObjectLoader.cpp:93-99 | A double result is collected unchanged exactly when the uninitialised cell happened to have its high half. |
| ArgumentQueue.RunConserves | src/main/jni/client/JniArgumentRepository.cpp:9-44 | Over every legal series of push, pop, popReturnResult and clear, the live global references are exactly those of the queue's non-null reference entries, and an empty queue leaves none. |
| ArgumentQueue.PopReturnConservesIff | src/main/jni/client/JniArgumentRepository.cpp:32-36 | Taking the placeholder conserves references exactly when it is null or no reference. |
| ArgumentQueue.PopConserves | src/main/jni/client/JniArgumentRepository.cpp:20-30 | A pop keeps the accounting, and the global reference that it deletes is alive. |
| ArgumentQueue.DrainDelivers | src/main/jni/client/JniClient.cpp:153-156 | Draining any queue gives its entries in order, each reference as a live local handle of the same object, and deletes exactly the queue's global references. |
| ArgumentQueue.CallDelivers | src/main/java/com/valjni/caller/JniClientImplementation.java:29-63 | A call without nulls puts the queue's leftovers and then its own arguments into the message, in order and with the same objects, and empties the queue; a null throws as such and leaves what was pushed before it. |
| ArgumentQueue.CallContents | src/main/java/com/valjni/caller/JniClientImplementation.java:29-63 | In terms of numbers and Java objects: a message is the queue and then the arguments, every reference a live local one, and a call that throws on a null lengthens the queue by what it had pushed. |
| ArgumentQueue.NoLeftoversIff | src/main/java/com/valjni/caller/JniClientImplementation.java:29-67 | From an empty queue, a call leaves the queue empty exactly when it has no null argument or its first argument is null. |
| ArgumentQueue.LeftoverExample | src/main/java/com/valjni/caller/JniClientImplementation.java:29-67 | After a call (7, null), the call (1) is sent with the two arguments 7 and 1. |
| ArgumentQueue.SuccessiveCalls | src/main/jni/client/JniClient.cpp:146-161 | Over any number of successive calls without nulls, each message carries its own arguments and no others. |
| ArgumentQueue.JniArgumentRepository.PushArgument | src/main/jni/client/JniArgumentRepository.cpp:9-15 | The queue and the JVM's references become those of the specified push. |
| ArgumentQueue.JniArgumentRepository.PopArgument | src/main/jni/client/JniArgumentRepository.cpp:20-30 | The queue, the references and the result are those of the specified pop. |
| ArgumentQueue.JniArgumentRepository.PopReturnResult | src/main/jni/client/JniArgumentRepository.cpp:32-36 | The last entry is returned and removed; the references stay. |
| ArgumentQueue.JniArgumentRepository.ClearArguments | src/main/jni/client/JniArgumentRepository.cpp:37-44 | The loop deletes exactly the global references of the queue and empties it. |
| ArgumentQueue.JniArgumentRepository.PushArguments | src/main/java/com/valjni/caller/JniClientImplementation.java:31-33 | The loop pushes in order up to the first argument that throws. |
| ArgumentQueue.JniArgumentRepository.CreateJniCall | src/main/jni/client/JniClient.cpp:146-161 | The loop ends, with the queue empty and a call of the drained arguments, the placeholder from the back and the two names. |
| Protocol.Transparency | src/main/jni/client/JniClient.cpp:83-144 | When the client is finished, the direct run returns after the same env calls in the same order and with the same JVM state, and updateJniReturn was called once, with the signature of the result and the text of the direct result after its two rounds of printing (of a DOUBLE: of what the loader collected). |
| Protocol.SameReplies | src/main/jni_server/lib/JniEnvProxy.cpp:7-54 | In every reachable state the native code has got the parameters and replies of the direct run and makes its moves; a call that fits is started by the second step. |
| Protocol.AnswersIff | src/main/jni_server/lib/JniProcessor.cpp:18-43 | An ended conversation has an answer exactly when the call can be delivered (its values parse, its arity fits) and the direct run returns, without asking for array elements, a value that comes through its two rounds; for a DOUBLE, if it does with all garbage and only if it does with some. |
| Protocol.EndsLikeDirectRun | src/main/jni/client/JniClient.cpp:83-107 | However a conversation ends, with an answer or without, it has left the JVM as the direct run leaves it where it first stops, after the same env calls; a call that is not delivered leaves it alone. |
| Protocol.Terminates | src/main/jni/client/JniClient.cpp:83-107 | If the native code stops after n env calls, by returning or by asking for array elements, where the model ends, no execution has more than 5 + 4n steps, whatever becomes of the result; a call that cannot be delivered has at most 3. |
| Protocol.Completes | src/main/jni/client/JniClient.cpp:83-107 | Every execution of a call that stops or cannot be delivered can be continued until the client is done. |
| Protocol.AnswersInStep | src/main/jni/client/JniClient.cpp:98-103 | A call that returns after n env calls answers in exactly its step 5 + 4n, if it answers, and has answered then if its value must come through. |
| Protocol.AnAnswerExists | src/main/jni/client/JniClient.cpp:83-132 | A call that can be delivered and whose value must come through has an execution that ends with the client's result. |
| Protocol.NeverEnds | src/main/jni_server/lib/JniEnvProxy.cpp:7-27 | If the call can be delivered and the native code never stops, the client is never done. |
| Protocol.Progress | src/main/jni/client/JniClient.cpp:83-107 | A reachable state has a successor exactly when the client neither has a result nor has given up: no deadlock. |
| Protocol.LockStep | src/main/jni_server/lib/JniEnvProxy.cpp:7-27 | In every reachable state the two pipes together hold at most one message; its direction and kind follow from who is blocked where; at most one step is possible. |
| Protocol.DispatchSafety | src/main/jni/client/JniClient.cpp:109-119 | Although the message classes overlap, the main loop only meets a JniCall, the nested reader only env replies, the client env calls and one reply; the unknown-message exceptions are unreachable; the only line that is not understood is a call with a value that does not parse. |
| Protocol.TwoReaders | src/main/jni_server/bin/JniServerMain.cpp:15-21 | Over every run, each line written to the server is consumed once and in order, the first by the main loop and the others by the nested invoke. |
| Protocol.ServesArrivedCall | src/main/jni/client/JniEnvWrapper.cpp:11-51 | An env call that went through the pipe is served as the JVM would serve the request directly; GetIntArrayElements reads an argument that was not sent. |
| ArrivingCalls.CallIsRead | src/main/jni/common/CFunctionCall.cpp:23-29 | The server's constructor reads every argument and the placeholder of a printed call as one round makes them, for lists of any length, or throws if one of them does not parse. |
| ArrivingCalls.ArrivedCall | src/main/jni_server/lib/SharedObjectLoader.cpp:113-185 | A parsed call is loaded with the reread arguments as parameters, or refused for its arity. |
| ArrivingCalls.CallArrives | src/main/jni_server/lib/JniProcessor.cpp:18-43 | The main loop starts the native function on the reread arguments exactly if all values of the call parse and the arity fits; otherwise it throws, and for which of these reasons. |
| Protocol.NestedGets | src/main/jni_server/lib/JniEnvProxy.cpp:12-37 | The reply line becomes the value that the native code would have got directly. |
| Protocol.ReplyPrints | src/main/jni/client/JniClient.cpp:121-132 | The client prints and parses the reply's value once more and calls updateJniReturn once with what it then is, or not at all if it does not parse. |
| Dispatch.MainLoopTakes | src/main/jni_server/lib/JniProcessor.cpp:18-34 | The main loop runs a JniCall, and would run an env call too; it drops both kinds of replies. |
| Dispatch.NestedReaderTakes | src/main/jni_server/lib/JniEnvProxy.cpp:22-26 | The nested reader goes on with an env reply and throws on the three other kinds, its superclass included. |
| Dispatch.ClientTakes | src/main/jni/client/JniClient.cpp:109-119 | The client takes either kind of reply as the result, serves an env call and answers it, and throws on a JniCall. |
| Dispatch.BufferInFigures | src/main/jni/client/JniClient.cpp:86-105 | The first read asks for 4096 bytes, the later ones for 4095; an end of stream or 4096 bytes end the loop, unparseable text throws. |
| Dispatch.UnreadableText | src/main/jni/client/JniClient.cpp:94-96 | Text that is no JSON or no message makes both of the server's readers and the client throw, for the same reason. |
| Dispatch.TextReply | src/main/jni/client/JniClient.cpp:121-132 | A string in a reply reaches updateJniReturn as it is, a C pointer as its JSON. |
| Dispatch.UncheckedCasts | src/main/jni_server/lib/JniEnvProxy.cpp:50-91 | The proxy and the loader cast without a check: what they do is defined exactly if the reply, and every value of the call, has the class that they cast to. |
| Dispatch.RequestIsPrinted | src/main/jni_server/lib/JniEnvProxy.cpp:40-92 | What the three proxy methods send: the method's name, one argument, the class name or the array's handle in hexadecimal, and a placeholder of the type that they put there. |
| Dispatch.WrapperServes | src/main/jni/client/JniEnvWrapper.cpp:11-51 | The wrapper throws on any method but the three; with a second argument it would share the array of the first; without arguments it reads outside the list; further arguments do not matter to the other two methods. |
| ClientLoop.LoopOutcome | src/main/jni/client/JniClient.cpp:83-132 | For every series of read results the client's loop ends, and updateJniReturn is called once if it is finished and never otherwise. |
| ClientLoop.NothingAfterTheResult | src/main/jni/client/JniClient.cpp:98-106 | What could be read after the result changes nothing. |
| ClientLoop.JniClient.ProcessMessageLoop | src/main/jni/client/JniClient.cpp:83-107 | The buffer loop stores inside its 4096 bytes, processes what the specification says, and sets processDone exactly when updateJniReturn was called, once. |
| ClientLoop.JniClient.JniClientMain | src/main/jni/client/JniClient.cpp:36-38 | Writes the call message first and then does what the loop's specification says. |
| ClientLoop.JniClient.ProcessBuffer | src/main/jni/client/JniClient.cpp:91-98 | Whatever an earlier message left behind the terminator is not looked at. |
| ClientLoop.JniClient.ProcessMessage | src/main/jni/client/JniClient.cpp:109-119 | The dispatch by class leaves the client, its output and processDone as specified. |
| ClientLoop.JniClient.ProcessReplyMessage | src/main/jni/client/JniClient.cpp:121-132 | Calls updateJniReturn with what the reply decodes to, or throws before the call. |
| ClientLoop.JniClient.ProcessJniEnvCallMessage | src/main/jni/client/JniClient.cpp:134-144 | The JVM is called once and its answer written, or nothing is written. |
| ServerLoop.Server.Invoke | src/main/jni_server/lib/JniEnvProxy.cpp:7-38 | Prints the env call, takes exactly one line, and replaces the call's return value by the reply's, or throws as the machine does. |
| ServerLoop.Server.ProxyFindClass | src/main/jni_server/lib/JniEnvProxy.cpp:40-54 | Builds the request, blocks for its reply and hands the native code the machine's value. |
| ServerLoop.Server.ProxyGetIntArrayElements | src/main/jni_server/lib/JniEnvProxy.cpp:56-75 | The same; what the native code gets is the address that mmap chose in the server for the replied memory. |
| ServerLoop.Server.ProxyGetArrayLength | src/main/jni_server/lib/JniEnvProxy.cpp:77-92 | The same, with the int reading of a JSIZE cell. |
| ServerLoop.EndOfInput | src/main/jni_server/bin/JniServerMain.cpp:15-21 | The end of the input ends the main loop; the nested reader takes it for an empty line. |
| ServerLoop.Server.ProcessJniCall | src/main/jni_server/lib/JniProcessor.cpp:36-43 | Loads, runs the native function to its return, collects and replies, with the machine's output, or throws where it ends; the function runs on what it reads, by its own prototype, in the frame that the loader has prepared with the server's JNIEnv. |
| ServerLoop.Server.Process | src/main/jni_server/lib/JniProcessor.cpp:18-34 | Runs every call message, drops every other, and throws on unreadable lines, as the machine does. |
| ServerLoop.Server.CallJniProcessor | src/main/jni_server/bin/JniServerMain.cpp:9-22 | The nested program with two readers of one input consumes the same lines and prints the same text as the flat machine, for every input and with garbage of its own at every move. |
| Refinement.ServerMove | src/main/jni_server/bin/JniServerMain.cpp:15-21 | Every step of the machine's server, with any garbage, keeps the outcome of the server's program. |
| Refinement.WholePipes | src/main/jni/client/JniClient.cpp:25-34 | In every reachable state, what was written to a pipe is what was read from it and what is still inside. |
| Refinement.ServerProgramRuns | src/main/jni_server/bin/JniServerMain.cpp:9-22 | Every execution, up to any point where the native code is not running, is one of the server's program: on the consumed lines it prints what the machine's server printed and ends where it is. |
| Refinement.ClientProgramRuns | src/main/jni/client/JniClient.cpp:83-107 | Every execution, up to any point between the client's turns, is one of the client's program: on the chunks that were read it writes what the machine's client wrote and ends where it is, with the same JVM. |
| Refinement.ProgramsConverse | src/main/jni/client/JniClient.cpp:83-144 | In a finished conversation each program has read, to the last character, what the other one wrote. |
| Refinement.ReplayServer | src/main/jni_server/bin/JniServerMain.cpp:9-22 | The server's program itself, run on the lines of an execution, prints and ends as the machine's server. |
| Refinement.ReplayClient | src/main/jni/client/JniClient.cpp:36-38 | The client's program itself, run on the chunks of an execution, writes and ends as the machine's client. |
| SharedArrays.RunKeepsSystem | src/main/jni/common/SharedMemory.cpp:9-42 | Over every legal series of create, load, free and store in both processes, every key is its record's address, live created ids are distinct and recorded, and every mapping has its object. |
| SharedArrays.RecordSurvives | src/main/jni/common/SharedMemory.cpp:19-42 | No insertion overwrites a live record, and a free removes only its own. |
| SharedArrays.CreateThenFind | src/main/jni/common/SharedMemory.cpp:19-36 | A created record is found under its address, has an id that no live creation had, and maps the object of that name, which is the old one resized or new zeros; no other name and no other record changes; creation throws exactly for sizes below one, and then after resizing. |
| SharedArrays.LoadThenFind | src/main/jni/common/SharedMemory.cpp:27-32 | A loaded record is found under its address and maps the object of its name; loading throws exactly for a missing name or a size below one; it makes no id the loader's own. |
| SharedArrays.FreeThenFind | src/main/jni/common/SharedMemory.cpp:34-42 | A freed record is no longer found, its id is free, its name cannot be loaded, and all other records, ids, names and all mappings stay. |
| SharedArrays.FreeIsSafeIff | src/main/jni/common/SharedMemory.cpp:38-42 | Freeing a registered record, even a loaded one, keeps the registry in order exactly when no other live created record has its id. |
| SharedArrays.MappingsStayEqual | src/main/jni/common/SharedMemory.cpp:68-93 | Two mappings of one object show the same bytes after any later legal operations of both processes. |
| SharedArrays.StoreIsSeen | src/main/jni/common/SharedMemory.cpp:68-93 | A store through either mapping is read at the same offset through the other. |
| SharedArrays.StoreIsLocal | src/main/jni/common/SharedMemory.cpp:68-93 | A store changes one byte of one object in every mapping of it, and nothing that any process sees elsewhere. |
| SharedArrays.ContentKept | src/main/jni/common/SharedMemory.cpp:19-42 | No create, load or free, and no store to another object, changes a byte of an object, unless it resizes that object by its name. |
| SharedArrays.ViewKept | src/main/jni/common/SharedMemory.cpp:19-42 | The same of what either process sees at a mapped address. |
| SharedArrays.RunKeepsView | src/main/jni/common/SharedMemory.cpp:19-42 | The same over every legal run that neither stores to the object nor resizes it. |
| SharedArrays.ReadsLast | src/main/jni_server/lib/JniEnvProxy.cpp:72-74 | After any such run, of any length, the server still reads the Java array's elements. |
| SharedArrays.EarlierArraysStay | src/main/jni/client/JniEnvWrapper.cpp:32-43 | Sharing one more array under an id of its own leaves every array that the server had got before as it was. |
| SharedArrays.BytesInFigures | src/main/jni/client/JniEnvWrapper.cpp:40-40 | The four bytes of an int, weighted from the first, sum to the int modulo 2 to the 32. |
| SharedArrays.ElementInFigures | src/main/jni_server/lib/JniEnvProxy.cpp:74-74 | Element i is the int that the bytes from 4i to 4i + 3 hold, the lowest first. |
| SharedArrays.CastIsCongruent | src/main/jni/client/JniEnvWrapper.cpp:39-39 | The byte size is cast to an int modulo 2 to the 32. |
| SharedArrays.CopyIsInFront | src/main/jni/client/JniEnvWrapper.cpp:40-40 | memcpy replaces the front of the mapping and leaves the rest. |
| SharedArrays.ServeArrayIff | src/main/jni/client/JniEnvWrapper.cpp:36-42 | The client copies an array exactly when it has an element and its byte size is an int; otherwise the mapping fails or memcpy overruns it, and which of them is given by the byte size modulo 2 to the 32. |
| SharedArrays.ArrayIsShared | src/main/jni_server/lib/JniEnvProxy.cpp:68-74 | For every int array, the path through client, message and server succeeds exactly for 1 to 2^29 - 1 elements; then the server reads every Java element, and its registry leads through the client's to the Java pointer. |
| SharedArrays.SharingLasts | src/main/jni/common/SharedMemory.cpp:19-42 | After any later legal operations that do not free the client's record, both mappings are equal and the reference chain still holds. |
| SharedArrays.ChainStays | src/main/jni/common/SharedMemory.cpp:19-36 | The chain from the server's address to the Java pointer, with equal ids and sizes, is kept by every legal run that does not free the client's record. |
| NativeArrays.NativeReadsArray | src/main/jni_server/lib/JniEnvProxy.cpp:56-75 | When the client has served any array of 1 to 2^29 - 1 elements, the printed reply makes the native code go on with the server's own mapping address; the server's registry has the record under it, and what is read there is the Java array. |
| NativeArrays.RecordIsAnswered | src/main/jni_server/lib/JniEnvProxy.cpp:68-74 | Whatever record a reply line carries, the native code gets the address that the server maps it at. |
| NativeArrays.ReturnElements | src/main/jni_server/lib/JniEnvProxy.cpp:68-75 | The end of the proxy method, on the server's own statics: it registers the replied record, maps its object, and returns the address of that mapping, which is the machine's answer. |
| SeparateArrays.NamesTellProcess | src/main/jni/common/SharedMemory.cpp:9-17 | Ids of processes with different pids are different, whatever was drawn. |
| SeparateArrays.NamesTellDraw | src/main/jni/common/SharedMemory.cpp:9-17 | Different draws give a process different ids. |
| SeparateArrays.RunKeepsApart | src/main/jni/common/SharedMemory.cpp:9-42 | Over every legal run in which both processes create ids of their own, every live created record maps the one object that its name stands for. |
| SeparateArrays.FreshProcessesAreApart | src/main/jni/common/SharedMemory.cpp:6-7 | Two processes with different pids that have created nothing yet satisfy the invariant, whatever names there already are. |
| SeparateArrays.ArraysStayApart | src/main/jni/common/SharedMemory.cpp:19-42 | In every state of such a run, a store to one live created array, through any mapping in either process, is never seen in another one. |
| SharedArrays.SharedMemory.CreateShmId | src/main/jni/common/SharedMemory.cpp:9-17 | The do-while loop returns the first drawn id that is not in use, and records it; with none it has changed nothing. |
| SharedArrays.SharedMemory.CreateSharedMemory | src/main/jni/common/SharedMemory.cpp:19-25 | The statics and the kernel become those of the specified creation under a new id, of which the rows from CreateThenFind to RunKeepsView say what it changes and what not. |
| SharedArrays.SharedMemory.LoadSharedMemory | src/main/jni/common/SharedMemory.cpp:27-32 | The statics and the kernel become those of the specified load. |
| SharedArrays.SharedMemory.FreeSharedMemory | src/main/jni/common/SharedMemory.cpp:38-42 | The statics and the kernel become those of the specified free. |
| SharedArrays.SharedMemory.InvokeGetIntArrayElements | src/main/jni/client/JniEnvWrapper.cpp:32-43 | Creating the memory and copying into it leaves the specified state, or throws as specified, and then after the creation. |
| EndToEnd.SeesJava | src/main/java/com/valjni/caller/JniClientImplementation.java:52-63 | What it means to see a Java argument: an int as it is, a float as what its six decimals say, a reference as a live local one of the same object. |
| EndToEnd.ArgumentsArrive | src/main/jni/client/JniClient.cpp:146-161 | The call message names the method and the shared object and carries, in order, what was left in the queue and then each argument, references as live local ones of the same objects; it can be delivered exactly if its floats and the placeholder parse and there are at most six reals and eight others, and survives the pipe exactly if they parse as themselves; queue and global references are as before. |
| EndToEnd.BuildCall | src/main/jni/client/JniClient.cpp:146-161 | The repository and the JNIEnv themselves, through all pushes, the placeholder's push and createJniCallMessge, end in the state and with the call that these results are about, names included. |
| EndToEnd.ArgumentsDelivered | src/main/jni_server/lib/SharedObjectLoader.cpp:113-185 | Queue, call message, JSON, reparse, partition and placement compose to the identity: the parsed call has the two names and basic arguments, unless a real does not parse and the server throws; the loader can place it exactly if the arity fits, and in any frame that it prepares the native function reads, by the prototype of the passed types, each int, each float as its decimals say, and for each reference a live local one of the same object, in order, whatever the garbage. |
| EndToEnd.LoadArguments | src/main/jni_server/lib/SharedObjectLoader.cpp:113-185 | Parsing and loading a Java call succeeds exactly if its reals parse and the arity fits, and leaves a frame in which the native function reads the arguments. |
| EndToEnd.JavaGetsTheDirectResult | src/main/java/com/valjni/caller/JniClientImplementation.java:29-37 | In every finished execution of a whole invokeJni, the server started the native code in its second step and, in every state, ran it on views of what was passed; the env calls were the direct run's; Java gets an int result as it is, a reference's handle arrives but throws, a float becomes what its printed decimals say. |
| EndToEnd.JavaGetsAnswerIff | src/main/java/com/valjni/caller/JniValue.java:23-45 | An ended call returns to Java exactly when it can be delivered and the direct run returns, without asking for array elements, an int, or a float whose text comes through and is one for Java. |
| EndToEnd.JavaCallReturns | src/main/java/com/valjni/caller/JniClientImplementation.java:29-37 | Such a call has an execution in which invokeJni returns, of 5 + 4n steps for n env calls. |
| LocalRuns.LikeRuns | src/main/jni_server/lib/JniEnvProxy.cpp:40-92 | Native code that only passes handles on, with a JVM that answers for objects, runs alike on like handles: same JVM states, same replies, like requests and moves, after any number of env calls. |
| LocalRuns.AsIfLocal | src/main/java/com/valjni/caller/JniClientImplementation.java:29-37 | For such native code and JVM, and floats that their decimals keep, a finished invokeJni has done to the JVM what the local call on Java's own handles does, by the same requests up to handles of the same objects, and hands on that call's result. |
| Series.QueueBefore | src/main/java/com/valjni/caller/JniClientImplementation.java:29-37 | Before every call of a series, the queue holds what was pushed since the last call without a null, and the global references are exactly its. |
| Series.EachCallGoesWell | src/main/java/com/valjni/caller/JniClientImplementation.java:29-37 | Every call of every series runs its native code on what throwing calls have left and then on its own arguments, takes the JVM from where the call before left it to where its direct run does, and gives Java that run's result or an exception. |
| JavaResults.NumberIsBoxed | src/main/java/com/valjni/caller/JniValue.java:23-45 | What C++ prints of a BYTE, SHORT, INT or LONG is boxed as the same number. |
| JavaResults.BooleanIsFalse | src/main/java/com/valjni/caller/JniValue.java:41-43 | What C++ prints of a BOOLEAN is boxed as false, whatever it is. |
| JavaResults.TrueInAnyCase | src/main/java/com/valjni/caller/JniValue.java:41-43 | Boolean.valueOf is true of the word true in any case, and of nothing else. |
| JavaResults.OtherSignatures | src/main/java/com/valjni/caller/JniValue.java:23-45 | C gives the first character, D what Double.valueOf reads, * null; every signature but nine throws, those of references included. |

## Left out

- JSON text: `json.hpp` is not part of this model. Parsing is assumed to invert printing, and control characters to be escaped (section 7 of RFC 8259); see `Text.Sound`. Values of an unexpected shape throw, also an object in place of an argument list, whose values the source would go through.
- Decimal text of floats: opaque; what six decimals parse to is a parameter.
- Whole messages: each message is assumed to arrive in one read and to fit the client's buffer (`MessagesFit`); `ClientLoop.dfy` covers every length of a read result, but no reassembly, which the client does not do.
- fork, exec, valgrind, pipe creation, failing writes, dlopen and dlsym: the machine starts with two empty pipes and a resolved function.
- The machine code of the inline assembly: a register file stands for it, and nothing between the last put and the call is assumed to write xmm registers.
- The native function's memory: it is a strategy over its parameters and replies; what it stores through array pointers is only in `SharedArrays.dfy`.
- Protocol.Transparency: for a DOUBLE, compares with what the loader collected and not with the direct result, of which the loader keeps four bytes; for a call that asks for array elements nothing is claimed beyond that request, because the client then reads an argument that was not sent.
- Protocol.Terminates: is about the client; the server never sets its end flag and waits for more input.
- SharedArrays.SharedMemory.CreateShmId: does not claim that some draw of `rand()` is unused.
- LocalRuns.AsIfLocal: is about calls without leftovers in the queue, and native code that does not look into handles.
- Series.EachCallGoesWell: a series does not go on after undefined behaviour in the client.
- EndToEnd.JavaGetsTheDirectResult: compares a float with the text of its decimals only; the JVM's reference tables are followed up to the call message; what the JVM does with handles during env calls is arbitrary.
- A Java object array or primitive wrapper other than Integer and Float: all are pushed as plain objects, as the source does.
- Leading spaces and signs in hexadecimal text, and non-ASCII digits in Java's number parsers: no text of the program has them.
- Bytecode instrumentation, the Java proxy classes, logging, stack traces and heap leaks.
