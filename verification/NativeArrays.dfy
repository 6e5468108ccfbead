/**
 What the native code gets from GetIntArrayElements once the client has served it: the
 proxy's side of the call, in its own process (JniEnvProxy.cpp).
 */
module NativeArrays {
  import opened Results
  import opened Cells
  import opened JsonTrees
  import opened Values
  import opened Messages
  import opened Handlers
  import opened Protocol
  import opened SharedArrays

  /** The nested reader takes a record, and gives the native code the address at which the server maps it. */
  lemma RecordIsAnswered(t: Text, pc: ServerPc, record: ShmRecord, g: Garbage)
    requires t.Sound() && pc.NestedRead? && pc.request.GetIntArrayElements?
    ensures ServerNested(t, pc, FirstLine(Line(t, EnvReply(CPointer(record)))), g) ==
            Computing(pc.views, pc.result, pc.history + [g(1)])
  {
    LineFacts(t, EnvReply(CPointer(record)));
    RecordArrives(record, g, t);
  }

  /**
   The array at the end of the call. When the client has served a Java array and the
   server maps the replied record at an address of its own, the native code goes on with
   that address, the server's registry has the record under it, and what is read there is
   the Java array.
   */
  lemma NativeReadsArray(s: State, java: Raw, elements: seq<Int32>, shmId: string, ca: Raw,
                         t: Text, pc: ServerPc, g: Garbage)
    requires 1 <= |elements| && 4 * |elements| <= 0x7fff_ffff
    requires SystemOk(s) && Available(s, shmId, ca, g(1))
    requires t.Sound() && pc.NestedRead? && pc.request.GetIntArrayElements?
    ensures var served := ServeArray(s, java, Bytes(elements), shmId, ca);
            && served.Ok?
            && var (s1, record) := served.value;
               var next := ServerNested(t, pc, FirstLine(Line(t, EnvReply(CPointer(record)))), g);
               && next.Computing? && next.views == pc.views && next.result == pc.result
               && |next.history| == |pc.history| + 1 && next.history[..|pc.history|] == pc.history
               && var n := next.history[|pc.history|];
                  var loaded := LoadArray(s1, record, g(1));
                  && n == g(1) && loaded.Ok?
                  && var (s2, local) := loaded.value;
                     && local.address == n && Find(s2.server, n) == Ok(local)
                     && local == ShmRecord(shmId, 4 * |elements|, n, ca)
                     && Shared(s2, java, ca, n) && Reads(s2, n, elements)
  {
    RecordOfArray(s, java, elements, shmId, ca, g(1));
    var (s1, record) := ServeArray(s, java, Bytes(elements), shmId, ca).value;
    RecordIsAnswered(t, pc, record, g);
    ArrayIsShared(s, java, elements, shmId, ca, g(1), g, t);
    ServeThenLoad(s, java, Bytes(elements), shmId, ca, g(1), g, t);
  }

  lemma RecordOfArray(s: State, java: Raw, elements: seq<Int32>, shmId: string, ca: Raw, sa: Raw)
    requires 1 <= |elements| && 4 * |elements| <= 0x7fff_ffff
    requires SystemOk(s) && Available(s, shmId, ca, sa)
    ensures var served := ServeArray(s, java, Bytes(elements), shmId, ca);
            && served.Ok?
            && var (s1, record) := served.value;
               var loaded := LoadArray(s1, record, sa);
               && loaded.Ok? && loaded.value.1 == ShmRecord(shmId, 4 * |elements|, sa, ca)
               && Find(loaded.value.0.server, sa) == Ok(loaded.value.1)
  {
    var bytes := Bytes(elements);
    var s1, record := ServedState(s, java, bytes, |elements|, shmId, ca);
    LoadedState(s1, record, bytes, sa);
  }

  /**
   The end of JniEnvProxy::GetIntArrayElements: load the replied memory, and return the
   address of the local mapping.
   */
  method ReturnElements(memory: SharedMemory, os: OperatingSystem, reply: Value, handle: Raw, address: Raw)
    returns (r: Result<Raw>)
    modifies memory, os
    ensures !reply.CPointer? ==> r == Err(UndefinedBehaviour) && os.kernel == old(os.kernel)
    ensures reply.CPointer? ==>
              var shm := reply.shm;
              var (k, p, loaded) :=
                Load(old(os.kernel), old(memory.Statics()), shm.shmId, shm.address, shm.size, address);
              && os.kernel == k && memory.Statics() == p
              && r == (if loaded.Ok? then Ok(loaded.value.address) else Err(loaded.failure))
              && (r.Ok? ==> r.value == address && ReplyView(GetIntArrayElements(handle), reply, address) == Ok(r.value))
  {
    if !reply.CPointer? {
      return Err(UndefinedBehaviour);
    }
    var remote := reply.shm;
    var local := memory.LoadSharedMemory(os, remote.shmId, remote.address, remote.size, address);
    if local.Err? {
      return Err(local.failure);
    }
    return Ok(local.value.address);
  }
}
