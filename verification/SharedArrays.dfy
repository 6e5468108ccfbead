/**
 Arrays in POSIX shared memory: the kernel's objects, the registries of the two
 processes, and the path of GetIntArrayElements (SharedMemory.cpp,
 JniEnvWrapper.cpp, JniEnvProxy.cpp).
 */
module SharedArrays {
  import opened Results
  import opened Cells
  import opened Numerals
  import opened JsonTrees
  import opened Values
  import opened Messages

  type Byte = b: int | 0 <= b < 0x100

  /** Shared-memory objects outlive their names: shm_unlink removes a name, mappings keep the object. */
  datatype Kernel = Kernel(names: map<string, nat>, objects: map<nat, seq<Byte>>, next: nat)

  /**
   A process: its live created ids, its registry, its mappings (never unmapped), and
   which registered addresses came from createSharedMemory.
   */
  datatype Process = Process(
    pid: nat,
    shmIds: set<string>,
    registry: map<Raw, ShmRecord>,
    mapped: map<Raw, nat>,
    created: set<Raw>)

  datatype Side = ClientSide | ServerSide

  datatype State = State(kernel: Kernel, client: Process, server: Process)
  {
    function Of(side: Side): Process {
      match side case ClientSide => client case ServerSide => server
    }

    function With(side: Side, p: Process): State {
      match side case ClientSide => this.(client := p) case ServerSide => this.(server := p)
    }
  }

  // Names

  function ShmName(pid: nat, draw: nat): string {
    ToDecimal(pid) + "::" + ToDecimal(draw)
  }

  /** The ids that the draws of rand() give. */
  function ShmNames(pid: nat, draws: seq<nat>): (names: seq<string>)
    ensures |names| == |draws|
    ensures forall i :: 0 <= i < |draws| ==> names[i] == ShmName(pid, draws[i])
  {
    seq(|draws|, i requires 0 <= i < |draws| => ShmName(pid, draws[i]))
  }

  /** How many candidates are in use before one is not. */
  function FirstUnused<T>(candidates: seq<T>, used: set<T>): (n: nat)
    ensures n <= |candidates| && (n < |candidates| ==> candidates[n] !in used)
    ensures forall i :: 0 <= i < n ==> candidates[i] in used
  {
    if candidates == [] || candidates[0] !in used then 0 else 1 + FirstUnused(candidates[1..], used)
  }

  // System calls

  function Zeros(n: nat): (s: seq<Byte>)
    ensures |s| == n
  {
    seq(n, _ => 0)
  }

  /** ftruncate; a negative size is refused and the failure is ignored. */
  function Resize(content: seq<Byte>, size: int): (r: seq<Byte>)
    ensures size >= 0 ==> |r| == size
    ensures size >= 0 ==> forall i :: 0 <= i < size ==> r[i] == if i < |content| then content[i] else 0
    ensures size < 0 || size == |content| ==> r == content
  {
    if size < 0 then content
    else if size <= |content| then content[..size]
    else content + Zeros(size - |content|)
  }

  /** shm_open with O_CREAT: the object of that name, or a new empty one. */
  function OpenOrCreate(k: Kernel, name: string): (Kernel, nat) {
    if name in k.names then (k, k.names[name])
    else (Kernel(k.names[name := k.next], k.objects[k.next := []], k.next + 1), k.next)
  }

  function Content(k: Kernel, inode: nat): seq<Byte> {
    if inode in k.objects then k.objects[inode] else []
  }

  function SetContent(k: Kernel, inode: nat, content: seq<Byte>): Kernel {
    k.(objects := k.objects[inode := content])
  }

  // The registry operations

  /** createSharedMemory with the id that createShmId found; `address` is where mmap puts a mapping. */
  function Create(k: Kernel, p: Process, shmId: string, remote: Raw, size: int, address: Raw)
    : (Kernel, Process, Result<ShmRecord>)
  {
    var (k1, inode) := OpenOrCreate(k, shmId);
    var k2 := SetContent(k1, inode, Resize(Content(k1, inode), size));
    var p1 := p.(shmIds := p.shmIds + {shmId});
    if size <= 0 then (k2, p1, Err(MapFailed))
    else
      var record := ShmRecord(shmId, size, address, remote);
      (k2,
       p1.(registry := p.registry[address := record], mapped := p.mapped[address := inode],
           created := p.created + {address}),
       Ok(record))
  }

  /** loadSharedMemory. A missing name gives a bad descriptor, with which ftruncate and mmap fail. */
  function Load(k: Kernel, p: Process, shmId: string, remote: Raw, size: int, address: Raw)
    : (Kernel, Process, Result<ShmRecord>)
  {
    if shmId !in k.names then (k, p, Err(MapFailed))
    else
      var inode := k.names[shmId];
      var k1 := SetContent(k, inode, Resize(Content(k, inode), size));
      if size <= 0 then (k1, p, Err(MapFailed))
      else
        var record := ShmRecord(shmId, size, address, remote);
        (k1, p.(registry := p.registry[address := record], mapped := p.mapped[address := inode]), Ok(record))
  }

  /** findSharedMemory: unordered_map::at throws on a missing key. */
  function Find(p: Process, address: Raw): Result<ShmRecord> {
    if address in p.registry then Ok(p.registry[address]) else Err(OutOfRange)
  }

  /** freeSharedMemory of the registered record. */
  function FreeRecord(p: Process, record: ShmRecord): Process {
    p.(registry := p.registry - {record.address}, shmIds := p.shmIds - {record.shmId},
       created := p.created - {record.address})
  }

  function Unlink(k: Kernel, shmId: string): Kernel {
    k.(names := k.names - {shmId})
  }

  /** A store through a mapping. */
  function Write(s: State, side: Side, address: Raw, offset: nat, byte: Byte): State
    requires address in s.Of(side).mapped && offset < |View(s, side, address)|
  {
    var inode := s.Of(side).mapped[address];
    s.(kernel := SetContent(s.kernel, inode, Content(s.kernel, inode)[offset := byte]))
  }

  /** The bytes that a process sees at a mapped address. */
  function View(s: State, side: Side, address: Raw): seq<Byte>
    requires address in s.Of(side).mapped
  {
    Content(s.kernel, s.Of(side).mapped[address])
  }

  // Runs

  datatype Operation =
    | CreateOp(side: Side, shmId: string, remote: Raw, size: int, address: Raw)
    | LoadOp(side: Side, shmId: string, remote: Raw, size: int, address: Raw)
    | FreeOp(side: Side, record: ShmRecord)
    | WriteOp(side: Side, address: Raw, offset: nat, byte: Byte)

  /**
   mmap returns an address that is not mapped; createShmId returns an unused id; a
   created handle is freed at most once, and a loaded one never; stores are in bounds.
   */
  predicate Legal(s: State, op: Operation) {
    match op
    case CreateOp(side, shmId, _, _, address) =>
      shmId !in s.Of(side).shmIds && address != 0 && address !in s.Of(side).mapped
    case LoadOp(side, _, _, _, address) => address != 0 && address !in s.Of(side).mapped
    case FreeOp(side, record) => record.address in s.Of(side).created && Find(s.Of(side), record.address) == Ok(record)
    case WriteOp(side, address, offset, _) =>
      address in s.Of(side).mapped && offset < |View(s, side, address)|
  }

  function Apply(s: State, op: Operation): State
    requires Legal(s, op)
  {
    match op
    case CreateOp(side, shmId, remote, size, address) =>
      var (k, p, _) := Create(s.kernel, s.Of(side), shmId, remote, size, address);
      s.(kernel := k).With(side, p)
    case LoadOp(side, shmId, remote, size, address) =>
      var (k, p, _) := Load(s.kernel, s.Of(side), shmId, remote, size, address);
      s.(kernel := k).With(side, p)
    case FreeOp(side, record) =>
      s.(kernel := Unlink(s.kernel, record.shmId)).With(side, FreeRecord(s.Of(side), record))
    case WriteOp(side, address, offset, byte) => Write(s, side, address, offset, byte)
  }

  predicate LegalRun(s: State, ops: seq<Operation>)
    decreases |ops|
  {
    ops != [] ==> Legal(s, ops[0]) && LegalRun(Apply(s, ops[0]), ops[1..])
  }

  function Run(s: State, ops: seq<Operation>): State
    requires LegalRun(s, ops)
    decreases |ops|
  {
    if ops == [] then s else Run(Apply(s, ops[0]), ops[1..])
  }

  // The registry invariant

  /** Every key is its record's address; live created ids are pairwise distinct and recorded. */
  predicate RegistryOk(p: Process) {
    && (forall a :: a in p.registry ==> p.registry[a].address == a && a in p.mapped)
    && p.created <= p.registry.Keys
    && (forall a :: a in p.created ==> p.registry[a].shmId in p.shmIds)
    && (forall a, b :: a in p.created && b in p.created && a != b ==> p.registry[a].shmId != p.registry[b].shmId)
  }

  predicate RegistriesOk(s: State) {
    RegistryOk(s.client) && RegistryOk(s.server)
  }

  /** The record at `a` in the registry of `side` is not the one that the operation frees. */
  predicate Spares(op: Operation, side: Side, a: Raw) {
    op.FreeOp? && op.side == side ==> op.record.address != a
  }

  lemma StepKeepsRegistry(s: State, op: Operation, side: Side)
    requires RegistryOk(s.Of(side)) && Legal(s, op)
    ensures RegistryOk(Apply(s, op).Of(side))
  {
    if op.side == side {
      match op {
        case CreateOp(_, shmId, remote, size, address) =>
          CreateKeepsRegistry(s.kernel, s.Of(side), shmId, remote, size, address);
        case LoadOp(_, shmId, remote, size, address) =>
          LoadKeepsRegistry(s.kernel, s.Of(side), shmId, remote, size, address);
        case FreeOp(_, record) =>
          FreeKeepsRegistry(s.Of(side), record);
        case WriteOp(_, _, _, _) =>
      }
    }
  }

  lemma CreateKeepsRegistry(k: Kernel, p: Process, shmId: string, remote: Raw, size: int, address: Raw)
    requires RegistryOk(p) && shmId !in p.shmIds && address !in p.mapped
    ensures RegistryOk(Create(k, p, shmId, remote, size, address).1)
  {
  }

  lemma LoadKeepsRegistry(k: Kernel, p: Process, shmId: string, remote: Raw, size: int, address: Raw)
    requires RegistryOk(p) && address !in p.mapped
    ensures RegistryOk(Load(k, p, shmId, remote, size, address).1)
  {
  }

  lemma FreeKeepsRegistry(p: Process, record: ShmRecord)
    requires RegistryOk(p) && record.address in p.created && Find(p, record.address) == Ok(record)
    ensures RegistryOk(FreeRecord(p, record))
  {
  }

  /** No insertion overwrites a live record, and a free removes only its own. */
  lemma RecordSurvives(s: State, op: Operation, side: Side, a: Raw)
    requires RegistryOk(s.Of(side)) && Legal(s, op) && a in s.Of(side).registry && Spares(op, side, a)
    ensures a in Apply(s, op).Of(side).registry && Apply(s, op).Of(side).registry[a] == s.Of(side).registry[a]
  {
  }

  /**
   A new record is found under its address, with an id no live creation had; its mapping
   starts as zeros if the name was new.
   */
  lemma CreateThenFind(k: Kernel, p: Process, shmId: string, remote: Raw, size: int, address: Raw)
    requires RegistryOk(p) && shmId !in p.shmIds && address !in p.mapped
    ensures var (k', p', r) := Create(k, p, shmId, remote, size, address);
            && (r.Ok? <==> size > 0)
            && p'.shmIds == p.shmIds + {shmId} && p'.pid == p.pid
            && (forall a :: a != address || r.Err? ==> Find(p', a) == Find(p, a))
            && shmId in k'.names && (forall n :: n != shmId ==> (n in k'.names <==> n in k.names))
            && (forall n :: n in k.names ==> n in k'.names && k'.names[n] == k.names[n])
            // a failing mmap comes after ftruncate
            && Content(k', k'.names[shmId]) ==
               Resize(if shmId in k.names then Content(k, k.names[shmId]) else [], size)
            && (r.Err? ==> r == Err(MapFailed) && p'.mapped == p.mapped && p'.created == p.created)
            && (r.Ok? ==>
                  && Find(p', address) == r && r.value == ShmRecord(shmId, size, address, remote)
                  && p'.created == p.created + {address}
                  && (forall a :: a in p.created ==> p.registry[a].shmId != shmId)
                  && address in p'.mapped && k'.names[shmId] == p'.mapped[address]
                  && |Content(k', p'.mapped[address])| == size
                  && (shmId !in k.names ==> Content(k', p'.mapped[address]) == Zeros(size)))
  {
    if shmId !in k.names && size > 0 {
      assert [] + Zeros(size) == Zeros(size);
    }
  }

  /**
   A freed record is not found, its id may be used again, its name can no longer be
   loaded, and nothing else changes.
   */
  lemma FreeThenFind(k: Kernel, p: Process, record: ShmRecord, other: Process, remote: Raw, size: int, address: Raw)
    requires RegistryOk(p) && record.address in p.created && Find(p, record.address) == Ok(record)
    ensures var p' := FreeRecord(p, record);
            && Find(p', record.address) == Err(OutOfRange)
            && record.shmId !in p'.shmIds
            && (forall a :: a != record.address ==> Find(p', a) == Find(p, a))
            && (forall id :: id != record.shmId ==> (id in p'.shmIds <==> id in p.shmIds))
            && p'.mapped == p.mapped
    ensures Load(Unlink(k, record.shmId), other, record.shmId, remote, size, address).2 == Err(MapFailed)
    ensures forall n :: n != record.shmId ==> (n in Unlink(k, record.shmId).names <==> n in k.names)
    ensures forall n :: n != record.shmId && n in k.names ==> Unlink(k, record.shmId).names[n] == k.names[n]
  {
  }

  /**
   A loaded record is found under its address and maps the object of that name, in its
   new size; loading throws exactly for a name that there is not or a size below one, and
   then it changes no registry. It never makes an id the loader's own.
   */
  lemma LoadThenFind(k: Kernel, p: Process, shmId: string, remote: Raw, size: int, address: Raw)
    requires address !in p.mapped
    ensures var (k', p', r) := Load(k, p, shmId, remote, size, address);
            && (r.Ok? <==> shmId in k.names && size > 0)
            && (r.Err? ==> r == Err(MapFailed) && p' == p)
            && p'.shmIds == p.shmIds && p'.created == p.created && p'.pid == p.pid && k'.names == k.names
            && (forall a :: a != address ==> Find(p', a) == Find(p, a))
            && (r.Ok? ==>
                  && Find(p', address) == r && r.value == ShmRecord(shmId, size, address, remote)
                  && address in p'.mapped && p'.mapped[address] == k.names[shmId])
            && (shmId in k.names ==> Content(k', k.names[shmId]) == Resize(Content(k, k.names[shmId]), size))
  {
  }

  /** Freeing any registered record, even a loaded one, is safe exactly when no other live created record has its id. */
  lemma FreeIsSafeIff(p: Process, record: ShmRecord)
    requires RegistryOk(p) && Find(p, record.address) == Ok(record)
    ensures RegistryOk(FreeRecord(p, record)) <==>
            forall a :: a in p.created && a != record.address ==> p.registry[a].shmId != record.shmId
  {
    var q := FreeRecord(p, record);
    forall a | a in p.created && a != record.address
      ensures a in q.created && q.registry[a] == p.registry[a]
    {
    }
  }

  // Two mappings of one object

  /** The kernel's books are in order and every mapping has its object. */
  predicate KernelOk(s: State) {
    && (forall name :: name in s.kernel.names ==> s.kernel.names[name] in s.kernel.objects)
    && (forall o :: o in s.kernel.objects ==> o < s.kernel.next)
    && (forall a :: a in s.client.mapped ==> s.client.mapped[a] in s.kernel.objects)
    && (forall a :: a in s.server.mapped ==> s.server.mapped[a] in s.kernel.objects)
  }

  lemma StepKeepsKernel(s: State, op: Operation)
    requires KernelOk(s) && Legal(s, op)
    ensures KernelOk(Apply(s, op))
  {
  }

  /** The kernel and both registries. */
  predicate SystemOk(s: State) {
    KernelOk(s) && RegistriesOk(s)
  }

  /**
   Every key stays its record's address, ids stay distinct, and every mapping keeps its
   object, over every legal run.
   */
  lemma {:induction false} RunKeepsSystem(s: State, ops: seq<Operation>)
    requires SystemOk(s) && LegalRun(s, ops)
    ensures SystemOk(Run(s, ops))
    decreases |ops|
  {
    if ops != [] {
      StepKeepsKernel(s, ops[0]);
      StepKeepsRegistry(s, ops[0], ClientSide);
      StepKeepsRegistry(s, ops[0], ServerSide);
      RunKeepsSystem(Apply(s, ops[0]), ops[1..]);
    }
  }

  predicate SameObject(s: State, clientAddress: Raw, serverAddress: Raw) {
    && clientAddress in s.client.mapped && serverAddress in s.server.mapped
    && s.client.mapped[clientAddress] == s.server.mapped[serverAddress]
  }

  lemma StepKeepsSharing(s: State, op: Operation, ca: Raw, sa: Raw)
    requires Legal(s, op) && SameObject(s, ca, sa)
    ensures SameObject(Apply(s, op), ca, sa)
  {
  }

  /**
   After any later stores through either mapping, and any creating, loading and
   freeing on either side, the client and the server see the same bytes.
   */
  lemma {:induction false} MappingsStayEqual(s: State, ops: seq<Operation>, ca: Raw, sa: Raw)
    requires LegalRun(s, ops) && SameObject(s, ca, sa)
    ensures SameObject(Run(s, ops), ca, sa)
    ensures View(Run(s, ops), ClientSide, ca) == View(Run(s, ops), ServerSide, sa)
    decreases |ops|
  {
    if ops != [] {
      StepKeepsSharing(s, ops[0], ca, sa);
      MappingsStayEqual(Apply(s, ops[0]), ops[1..], ca, sa);
    }
  }

  /** A store through one mapping is seen at the same offset through the other. */
  lemma StoreIsSeen(s: State, ca: Raw, sa: Raw, offset: nat, byte: Byte)
    requires SameObject(s, ca, sa) && offset < |View(s, ClientSide, ca)|
    ensures View(Write(s, ClientSide, ca, offset, byte), ServerSide, sa)[offset] == byte
    ensures View(Write(s, ServerSide, sa, offset, byte), ClientSide, ca)[offset] == byte
  {
  }

  // What an operation does not touch

  /** The operation gives the object another size, through its name. */
  predicate Resizes(s: State, op: Operation, inode: nat) {
    && (op.CreateOp? || op.LoadOp?)
    && op.shmId in s.kernel.names && s.kernel.names[op.shmId] == inode
    && op.size >= 0 && op.size != |Content(s.kernel, inode)|
  }

  predicate StoresTo(s: State, op: Operation, inode: nat)
    requires Legal(s, op)
  {
    op.WriteOp? && s.Of(op.side).mapped[op.address] == inode
  }

  /** Creating, loading and freeing, and stores to other objects, leave the bytes of an object alone. */
  lemma ContentKept(s: State, op: Operation, inode: nat)
    requires KernelOk(s) && Legal(s, op) && inode in s.kernel.objects
    requires !Resizes(s, op, inode) && !StoresTo(s, op, inode)
    ensures inode in Apply(s, op).kernel.objects
    ensures Content(Apply(s, op).kernel, inode) == Content(s.kernel, inode)
  {
  }

  /** What a process sees at a mapped address stays, and the address stays mapped. */
  lemma ViewKept(s: State, op: Operation, side: Side, a: Raw)
    requires KernelOk(s) && Legal(s, op) && a in s.Of(side).mapped
    requires !Resizes(s, op, s.Of(side).mapped[a]) && !StoresTo(s, op, s.Of(side).mapped[a])
    ensures var s' := Apply(s, op);
            && a in s'.Of(side).mapped && s'.Of(side).mapped[a] == s.Of(side).mapped[a]
            && View(s', side, a) == View(s, side, a)
  {
    ContentKept(s, op, s.Of(side).mapped[a]);
  }

  /** A store changes one byte of one object: everywhere where that is mapped, and nowhere else. */
  lemma StoreIsLocal(s: State, writer: Side, address: Raw, offset: nat, byte: Byte, viewer: Side, a: Raw)
    requires address in s.Of(writer).mapped && offset < |View(s, writer, address)| && a in s.Of(viewer).mapped
    ensures var s' := Write(s, writer, address, offset, byte);
            && s'.Of(viewer) == s.Of(viewer)
            && View(s', viewer, a) ==
               if s.Of(viewer).mapped[a] == s.Of(writer).mapped[address] then View(s, viewer, a)[offset := byte]
               else View(s, viewer, a)
  {
  }

  /** Along the whole run, nothing is stored to the object and nothing resizes it. */
  predicate LeavesAlone(s: State, ops: seq<Operation>, inode: nat)
    requires LegalRun(s, ops)
    decreases |ops|
  {
    ops != [] ==>
      && !Resizes(s, ops[0], inode) && !StoresTo(s, ops[0], inode)
      && LeavesAlone(Apply(s, ops[0]), ops[1..], inode)
  }

  lemma {:induction false} RunKeepsView(s: State, ops: seq<Operation>, side: Side, a: Raw)
    requires KernelOk(s) && LegalRun(s, ops) && a in s.Of(side).mapped
    requires LeavesAlone(s, ops, s.Of(side).mapped[a])
    ensures a in Run(s, ops).Of(side).mapped
    ensures View(Run(s, ops), side, a) == View(s, side, a)
    decreases |ops|
  {
    if ops != [] {
      ViewKept(s, ops[0], side, a);
      StepKeepsKernel(s, ops[0]);
      RunKeepsView(Apply(s, ops[0]), ops[1..], side, a);
    }
  }

  // GetIntArrayElements

  /** The cast of a size_t to int. */
  function IntCast(n: nat): (size: int)
    ensures InRange(size, Four, true)
    ensures n < 0x8000_0000 ==> size == n
  {
    Interpret(n % 0x1_0000_0000, Four, true)
  }

  /** memcpy to the start of a mapping. */
  function CopyIn(s: State, side: Side, address: Raw, bytes: seq<Byte>): State
    requires address in s.Of(side).mapped && |bytes| <= |View(s, side, address)|
  {
    var inode := s.Of(side).mapped[address];
    s.(kernel := SetContent(s.kernel, inode, bytes + Content(s.kernel, inode)[|bytes|..]))
  }

  /** invokeGetIntArrayElements, once its arguments are read: `bytes` are the array's elements at `java`. */
  function ServeArray(s: State, java: Raw, bytes: seq<Byte>, shmId: string, address: Raw): Result<(State, ShmRecord)> {
    var (k, p, made) := Create(s.kernel, s.client, shmId, java, IntCast(|bytes|), address);
    var s1 := s.(kernel := k, client := p);
    if made.Err? then Err(made.failure)
    else if |bytes| > |View(s1, ClientSide, address)| then Err(UndefinedBehaviour)
    else Ok((CopyIn(s1, ClientSide, address, bytes), made.value))
  }

  /** The rest of the proxy's GetIntArrayElements, on the record from the reply. */
  function LoadArray(s: State, record: ShmRecord, address: Raw): Result<(State, ShmRecord)> {
    var (k, p, loaded) := Load(s.kernel, s.server, record.shmId, record.address, record.size, address);
    if loaded.Err? then Err(loaded.failure) else Ok((s.(kernel := k, server := p), loaded.value))
  }

  /** Byte k of an int in memory, on a little-endian machine. */
  function ByteOf(n: Int32, k: nat): Byte
    requires k < 4
  {
    var low := Encode(n, Four, true);
    if k == 0 then low % 0x100
    else if k == 1 then low / 0x100 % 0x100
    else if k == 2 then low / 0x100 / 0x100 % 0x100
    else low / 0x100 / 0x100 / 0x100
  }

  /** The elements of an int array as they lie in memory. */
  function Bytes(elements: seq<Int32>): (bytes: seq<Byte>)
    ensures |bytes| == 4 * |elements|
    ensures forall j :: 0 <= j < |bytes| ==> bytes[j] == ByteOf(elements[j / 4], j % 4)
  {
    seq(4 * |elements|, j requires 0 <= j < 4 * |elements| => ByteOf(elements[j / 4], j % 4))
  }

  /** The i-th jint of a block of bytes. */
  function Element(bytes: seq<Byte>, i: nat): int
    requires 4 * i + 4 <= |bytes|
  {
    Joined(bytes[4 * i], bytes[4 * i + 1], bytes[4 * i + 2], bytes[4 * i + 3])
  }

  function Joined(b0: Byte, b1: Byte, b2: Byte, b3: Byte): (n: int)
    ensures InRange(n, Four, true)
  {
    var n0: int, n1: int, n2: int, n3: int := b0, b1, b2, b3;
    Interpret(n0 + 0x100 * n1 + 0x1_0000 * n2 + 0x100_0000 * n3, Four, true)
  }

  /** Little-endian two's complement, in figures. */
  lemma BytesInFigures(n: Int32)
    ensures var b0: int, b1: int, b2: int, b3: int := ByteOf(n, 0), ByteOf(n, 1), ByteOf(n, 2), ByteOf(n, 3);
            b0 + 0x100 * b1 + 0x1_0000 * b2 + 0x100_0000 * b3 == n % 0x1_0000_0000
  {
    EncodeIsModulo(n, Four, true);
    SplitLow(Encode(n, Four, true));
  }

  /** The i-th element is in the bytes 4i to 4i + 3, the lowest first. */
  lemma ElementInFigures(bytes: seq<Byte>, i: nat)
    requires 4 * i + 4 <= |bytes|
    ensures var b0: int, b1: int := bytes[4 * i], bytes[4 * i + 1];
            var b2: int, b3: int := bytes[4 * i + 2], bytes[4 * i + 3];
            && -0x8000_0000 <= Element(bytes, i) < 0x8000_0000
            && Element(bytes, i) % 0x1_0000_0000 == b0 + 0x100 * b1 + 0x1_0000 * b2 + 0x100_0000 * b3
  {
    EncodeIsModulo(Element(bytes, i), Four, true);
  }

  lemma JoinsBytes(n: Int32)
    ensures Joined(ByteOf(n, 0), ByteOf(n, 1), ByteOf(n, 2), ByteOf(n, 3)) == n
  {
    var low := Encode(n, Four, true);
    SplitLow(low);
    assert Interpret(low, Four, true) == n;
  }

  lemma SplitLow(low: nat)
    ensures var q1 := low / 0x100;
            var q2 := q1 / 0x100;
            low == low % 0x100 + 0x100 * (q1 % 0x100) + 0x1_0000 * (q2 % 0x100) + 0x100_0000 * (q2 / 0x100)
  {
    var q1 := low / 0x100;
    var q2 := q1 / 0x100;
    DivMod(low, 0x100);
    DivMod(q1, 0x100);
    DivMod(q2, 0x100);
  }

  lemma ElementOfBytes(elements: seq<Int32>, i: nat)
    requires i < |elements|
    ensures Element(Bytes(elements), i) == elements[i]
  {
    JoinsBytes(elements[i]);
    assert 4 * i / 4 == i && (4 * i + 1) / 4 == i && (4 * i + 2) / 4 == i && (4 * i + 3) / 4 == i;
  }

  /**
   An array of length n is copied exactly when it has an element and its byte size
   is an int: an empty one cannot be mapped, a larger one is cast to a size that
   cannot be mapped or that memcpy overruns.
   */
  lemma ServeArrayIff(s: State, java: Raw, bytes: seq<Byte>, n: nat, shmId: string, address: Raw)
    requires |bytes| == 4 * n && n < 0x8000_0000
    ensures ServeArray(s, java, bytes, shmId, address).Ok? <==> 1 <= n && 4 * n <= 0x7fff_ffff
    // what is refused: an empty size, a negative one; a smaller one is overrun
    ensures n == 0 || 4 * n > 0x7fff_ffff ==>
              ServeArray(s, java, bytes, shmId, address) ==
              Err(if 0 < 4 * n % 0x1_0000_0000 < 0x8000_0000 then UndefinedBehaviour else MapFailed)
  {
    var size := IntCast(4 * n);
    CastShrinks(4 * n);
    var (k, p, made) := Create(s.kernel, s.client, shmId, java, size, address);
    if made.Ok? {
      assert |View(s.(kernel := k, client := p), ClientSide, address)| == size;
    }
  }

  /** The cast in figures. */
  lemma CastIsCongruent(n: nat)
    ensures -0x8000_0000 <= IntCast(n) < 0x8000_0000 && (IntCast(n) - n) % 0x1_0000_0000 == 0
  {
    var m := 0x1_0000_0000;
    var low := n % m;
    DivMod(n, m);
    Multiple(-(n / m), m);
    Multiple(-(n / m) - 1, m);
    if IntCast(n) == low {
      assert IntCast(n) - n == -(n / m) * m;
    } else {
      assert IntCast(n) - n == (-(n / m) - 1) * m;
    }
  }

  /** memcpy writes the front of a mapping and nothing else. */
  lemma CopyIsInFront(s: State, side: Side, address: Raw, bytes: seq<Byte>)
    requires address in s.Of(side).mapped && |bytes| <= |View(s, side, address)|
    ensures var s' := CopyIn(s, side, address, bytes);
            && s'.Of(side) == s.Of(side)
            && View(s', side, address)[..|bytes|] == bytes
            && View(s', side, address)[|bytes|..] == View(s, side, address)[|bytes|..]
  {
  }

  lemma CastShrinks(n: nat)
    ensures IntCast(n) <= n && (n >= 0x8000_0000 ==> IntCast(n) < n)
  {
  }

  /** The record that the server gets through the reply message is the client's. */
  lemma RecordArrives(record: ShmRecord, g: Garbage, t: Text)
    ensures MessageFromJson(MessageToJson(EnvReply(CPointer(record)), t), g, t) == Ok(EnvReply(CPointer(record)))
  {
    MessageRoundTrip(EnvReply(CPointer(record)), g, t);
  }

  /** What GetIntArrayElements has set up when it returns `sa` in the server. */
  predicate Chained(s: State, java: Raw, ca: Raw, sa: Raw) {
    && sa in s.server.registry && ca in s.client.registry
    && var there := s.client.registry[ca];
       var here := s.server.registry[sa];
       && here.remoteAddress == ca && there.remoteAddress == java
       && here.shmId == there.shmId && here.size == there.size
  }

  /**
   Between two processes in order: `ca` and `sa` map one object, and the chain leads
   from the server's loaded record to the Java elements.
   */
  predicate Shared(s: State, java: Raw, ca: Raw, sa: Raw) {
    SystemOk(s) && SameObject(s, ca, sa) && Chained(s, java, ca, sa) && sa !in s.server.created
  }

  /** The array that the server reads at `sa`. */
  predicate Reads(s: State, sa: Raw, elements: seq<Int32>) {
    && sa in s.server.mapped && |View(s, ServerSide, sa)| == 4 * |elements|
    && forall i :: 0 <= i < |elements| ==> Element(View(s, ServerSide, sa), i) == elements[i]
  }

  lemma ReadsBytes(s: State, sa: Raw, elements: seq<Int32>)
    requires sa in s.server.mapped && View(s, ServerSide, sa) == Bytes(elements)
    ensures Reads(s, sa, elements)
  {
    forall i | 0 <= i < |elements|
      ensures Element(Bytes(elements), i) == elements[i]
    {
      ElementOfBytes(elements, i);
    }
  }

  /** One GetIntArrayElements: the client's share, the reply message, and the proxy's share. */
  function ShareArray(s: State, java: Raw, bytes: seq<Byte>, shmId: string, ca: Raw, sa: Raw, g: Garbage, t: Text)
    : Result<State>
  {
    var served :- ServeArray(s, java, bytes, shmId, ca);
    var reply :- MessageFromJson(MessageToJson(EnvReply(CPointer(served.1)), t), g, t);
    if !reply.EnvReply? || !reply.result.CPointer? then Err(UndefinedBehaviour)
    else
      var loaded :- LoadArray(served.0, reply.result.shm, sa);
      Ok(loaded.0)
  }

  /** Addresses that mmap, and an id that createShmId, may give. */
  predicate Available(s: State, shmId: string, ca: Raw, sa: Raw) {
    && shmId !in s.client.shmIds
    && ca != 0 && ca !in s.client.mapped
    && sa != 0 && sa !in s.server.mapped
  }

  lemma ShareKeepsRegistries(s: State, java: Raw, bytes: seq<Byte>, shmId: string, ca: Raw, sa: Raw, g: Garbage,
                             t: Text)
    requires RegistriesOk(s) && Available(s, shmId, ca, sa)
    ensures var r := ShareArray(s, java, bytes, shmId, ca, sa, g, t);
            r.Ok? ==> RegistriesOk(r.value)
  {
    CreateKeepsRegistry(s.kernel, s.client, shmId, java, IntCast(|bytes|), ca);
    var served := ServeArray(s, java, bytes, shmId, ca);
    if served.Ok? {
      var (s1, record) := served.value;
      RecordArrives(record, g, t);
      LoadKeepsRegistry(s1.kernel, s1.server, record.shmId, record.address, record.size, sa);
    }
  }

  /** The reply message between the two sides changes nothing. */
  lemma ServeThenLoad(s: State, java: Raw, bytes: seq<Byte>, shmId: string, ca: Raw, sa: Raw, g: Garbage, t: Text)
    requires ServeArray(s, java, bytes, shmId, ca).Ok?
    ensures var (s1, record) := ServeArray(s, java, bytes, shmId, ca).value;
            var loaded := LoadArray(s1, record, sa);
            ShareArray(s, java, bytes, shmId, ca, sa, g, t) ==
            if loaded.Ok? then Ok(loaded.value.0) else Err(loaded.failure)
  {
    RecordArrives(ServeArray(s, java, bytes, shmId, ca).value.1, g, t);
  }

  /**
   The whole path of one call. It succeeds exactly for an array that has an element
   and whose byte size is an int; then the server reads the Java array's elements
   through its mapping, the client's and the server's mappings are one object, and the
   two registries lead from the server's address back to the Java elements.
   */
  lemma ArrayIsShared(s: State, java: Raw, elements: seq<Int32>, shmId: string, ca: Raw, sa: Raw, g: Garbage, t: Text)
    requires |elements| < 0x8000_0000
    requires SystemOk(s) && Available(s, shmId, ca, sa)
    ensures var r := ShareArray(s, java, Bytes(elements), shmId, ca, sa, g, t);
            && (r.Ok? <==> 1 <= |elements| && 4 * |elements| <= 0x7fff_ffff)
            && (r.Ok? ==> Shared(r.value, java, ca, sa) && Reads(r.value, sa, elements))
  {
    var bytes := Bytes(elements);
    ServeArrayIff(s, java, bytes, |elements|, shmId, ca);
    if 1 <= |elements| && 4 * |elements| <= 0x7fff_ffff {
      ShareKeepsRegistries(s, java, bytes, shmId, ca, sa, g, t);
      var s1, record := ServedState(s, java, bytes, |elements|, shmId, ca);
      ServeThenLoad(s, java, bytes, shmId, ca, sa, g, t);
      LoadedState(s1, record, bytes, sa);
      ReadsBytes(LoadArray(s1, record, sa).value.0, sa, elements);
    }
  }

  lemma ServedState(s: State, java: Raw, bytes: seq<Byte>, n: nat, shmId: string, ca: Raw)
    returns (s1: State, record: ShmRecord)
    requires |bytes| == 4 * n && 1 <= n && 4 * n <= 0x7fff_ffff
    requires KernelOk(s) && ca !in s.client.mapped
    ensures ServeArray(s, java, bytes, shmId, ca) == Ok((s1, record))
    ensures record == ShmRecord(shmId, |bytes|, ca, java)
    ensures KernelOk(s1) && s1.server == s.server && s1.client.registry == s.client.registry[ca := record]
    ensures shmId in s1.kernel.names && ca in s1.client.mapped && s1.client.mapped[ca] == s1.kernel.names[shmId]
    ensures View(s1, ClientSide, ca) == bytes
  {
    var (k, p, made) := Create(s.kernel, s.client, shmId, java, IntCast(|bytes|), ca);
    var mid := s.(kernel := k, client := p);
    assert |View(mid, ClientSide, ca)| == |bytes|;
    assert bytes + View(mid, ClientSide, ca)[|bytes|..] == bytes;
    s1 := CopyIn(mid, ClientSide, ca, bytes);
    record := made.value;
  }

  lemma LoadedState(s1: State, record: ShmRecord, bytes: seq<Byte>, sa: Raw)
    requires KernelOk(s1) && bytes != [] && sa !in s1.server.mapped
    requires record.shmId in s1.kernel.names && record.size == |bytes|
    requires record.address in s1.client.mapped && s1.client.mapped[record.address] == s1.kernel.names[record.shmId]
    requires View(s1, ClientSide, record.address) == bytes
    ensures var loaded := LoadArray(s1, record, sa);
            && loaded.Ok?
            && var s' := loaded.value.0;
               && SameObject(s', record.address, sa) && KernelOk(s') && s'.client == s1.client
               && s'.server.created == s1.server.created
               && s'.server.registry ==
                  s1.server.registry[sa := ShmRecord(record.shmId, record.size, sa, record.address)]
               && View(s', ServerSide, sa) == bytes && View(s', ClientSide, record.address) == bytes
  {
  }

  lemma StaysLoaded(s: State, op: Operation, sa: Raw)
    requires RegistryOk(s.server) && Legal(s, op) && sa in s.server.registry && sa !in s.server.created
    ensures sa !in Apply(s, op).server.created
    ensures Spares(op, ServerSide, sa)
  {
  }

  /** The chain holds through any run that does not free the client's record. */
  lemma {:induction false} ChainStays(s: State, ops: seq<Operation>, java: Raw, ca: Raw, sa: Raw)
    requires RegistriesOk(s) && LegalRun(s, ops) && Chained(s, java, ca, sa)
    requires sa !in s.server.created
    requires forall i :: 0 <= i < |ops| ==> Spares(ops[i], ClientSide, ca)
    ensures Chained(Run(s, ops), java, ca, sa) && sa !in Run(s, ops).server.created
    decreases |ops|
  {
    if ops != [] {
      StepKeepsRegistry(s, ops[0], ClientSide);
      StepKeepsRegistry(s, ops[0], ServerSide);
      RecordSurvives(s, ops[0], ClientSide, ca);
      RecordSurvives(s, ops[0], ServerSide, sa);
      StaysLoaded(s, ops[0], sa);
      ChainStays(Apply(s, ops[0]), ops[1..], java, ca, sa);
    }
  }

  /** Sharing an array leaves the arrays that the server has got before as they were, unless the id is one of theirs. */
  lemma EarlierArraysStay(s: State, java: Raw, bytes: seq<Byte>, shmId: string, ca: Raw, sa: Raw, g: Garbage, t: Text,
                          earlier: Raw, elements: seq<Int32>)
    requires KernelOk(s) && Available(s, shmId, ca, sa) && Reads(s, earlier, elements)
    requires shmId in s.kernel.names ==> s.kernel.names[shmId] != s.server.mapped[earlier]
    ensures var r := ShareArray(s, java, bytes, shmId, ca, sa, g, t);
            r.Ok? ==> Reads(r.value, earlier, elements)
  {
    var served := ServeArray(s, java, bytes, shmId, ca);
    if served.Ok? {
      var (s1, record) := served.value;
      RecordArrives(record, g, t);
      OthersKeptByServe(s, java, bytes, shmId, ca, s.server.mapped[earlier]);
      OthersKeptByLoad(s1, record, sa, s.server.mapped[earlier]);
      var loaded := LoadArray(s1, record, sa);
      if loaded.Ok? {
        assert View(loaded.value.0, ServerSide, earlier) == View(s, ServerSide, earlier);
      }
    }
  }

  lemma OthersKeptByServe(s: State, java: Raw, bytes: seq<Byte>, shmId: string, ca: Raw, inode: nat)
    requires KernelOk(s) && inode in s.kernel.objects
    requires shmId in s.kernel.names ==> s.kernel.names[shmId] != inode
    ensures var served := ServeArray(s, java, bytes, shmId, ca);
            served.Ok? ==>
              var (s1, record) := served.value;
              && s1.server == s.server && record.shmId == shmId
              && shmId in s1.kernel.names && s1.kernel.names[shmId] != inode
              && inode in s1.kernel.objects && Content(s1.kernel, inode) == Content(s.kernel, inode)
  {
  }

  lemma OthersKeptByLoad(s1: State, record: ShmRecord, sa: Raw, inode: nat)
    requires inode in s1.kernel.objects && record.shmId in s1.kernel.names && s1.kernel.names[record.shmId] != inode
    ensures var loaded := LoadArray(s1, record, sa);
            loaded.Ok? ==>
              && loaded.value.0.server.mapped == s1.server.mapped[sa := s1.kernel.names[record.shmId]]
              && Content(loaded.value.0.kernel, inode) == Content(s1.kernel, inode)
  {
  }

  /**
   From then on, whatever both processes create, load, free and store, short of freeing
   the client's record: both still see the same bytes, and the chain still leads from
   the server's address to the Java elements.
   */
  lemma SharingLasts(s: State, ops: seq<Operation>, java: Raw, ca: Raw, sa: Raw)
    requires Shared(s, java, ca, sa) && LegalRun(s, ops)
    requires forall i :: 0 <= i < |ops| ==> Spares(ops[i], ClientSide, ca)
    ensures var s' := Run(s, ops);
            Shared(s', java, ca, sa) && View(s', ClientSide, ca) == View(s', ServerSide, sa)
  {
    RunKeepsSystem(s, ops);
    MappingsStayEqual(s, ops, ca, sa);
    ChainStays(s, ops, java, ca, sa);
  }

  /** The server goes on reading the Java array until someone stores to it or resizes it. */
  lemma ReadsLast(s: State, ops: seq<Operation>, sa: Raw, elements: seq<Int32>)
    requires KernelOk(s) && Reads(s, sa, elements) && LegalRun(s, ops)
    requires LeavesAlone(s, ops, s.server.mapped[sa])
    ensures Reads(Run(s, ops), sa, elements)
  {
    RunKeepsView(s, ops, ServerSide, sa);
  }

  // The mutable objects

  /** The operating system's side of shared memory. */
  class OperatingSystem {
    var kernel: Kernel

    constructor (kernel: Kernel)
      ensures this.kernel == kernel
    {
      this.kernel := kernel;
    }
  }

  /** The static members of SharedMemory in one process. */
  class SharedMemory {
    const pid: nat
    var shmidSet: set<string>
    var sharedMemoryRepository: map<Raw, ShmRecord>
    /** The kernel's table of this process's mappings. */
    var mapped: map<Raw, nat>
    /** The addresses that createSharedMemory gave, for the specification only. */
    ghost var created: set<Raw>

    constructor (pid: nat)
      ensures Statics() == Process(pid, {}, map[], map[], {})
    {
      this.pid := pid;
      shmidSet := {};
      sharedMemoryRepository := map[];
      mapped := map[];
      created := {};
    }

    ghost function Statics(): Process
      reads this
    {
      Process(pid, shmidSet, sharedMemoryRepository, mapped, created)
    }

    /** The do-while loop on the results of rand(): the first unused id; None while no draw has given one. */
    method CreateShmId(draws: seq<nat>) returns (id: Option<string>)
      modifies this`shmidSet
      ensures var names := ShmNames(pid, draws);
              var n := FirstUnused(names, old(shmidSet));
              if n < |draws| then id == Some(names[n]) && shmidSet == old(shmidSet) + {id.value}
              else id == None && shmidSet == old(shmidSet)
    {
      ghost var names := ShmNames(pid, draws);
      var k := 0;
      assert names[0..] == names;
      while k < |draws|
        invariant 0 <= k <= |draws|
        invariant FirstUnused(names, shmidSet) == k + FirstUnused(names[k..], shmidSet)
        invariant shmidSet == old(shmidSet)
      {
        var newShmid := ShmName(pid, draws[k]);
        assert newShmid == names[k..][0];
        if newShmid !in shmidSet {
          shmidSet := shmidSet + {newShmid};
          return Some(newShmid);
        }
        assert names[k..][1..] == names[k + 1..];
        k := k + 1;
      }
      return None;
    }

    method CreateUnixSharedMemory(os: OperatingSystem, shmId: string, size: int, address: Raw) returns (r: Result<Raw>)
      modifies os, this`mapped
      ensures os.kernel == Create(old(os.kernel), old(Statics()), shmId, 0, size, address).0
      ensures r == if size <= 0 then Err(MapFailed) else Ok(address)
      ensures mapped == if size <= 0 then old(mapped)
                        else Create(old(os.kernel), old(Statics()), shmId, 0, size, address).1.mapped
    {
      var (k, inode) := OpenOrCreate(os.kernel, shmId);
      os.kernel := SetContent(k, inode, Resize(Content(k, inode), size));
      if size <= 0 {
        return Err(MapFailed);
      }
      mapped := mapped[address := inode];
      return Ok(address);
    }

    /** None while createShmId has not found an id. */
    method CreateSharedMemory(os: OperatingSystem, remote: Raw, size: int, draws: seq<nat>, address: Raw)
      returns (r: Option<Result<ShmRecord>>, ghost shmId: string)
      modifies os, this
      ensures r.Some? ==>
                && shmId !in old(shmidSet)
                && (os.kernel, Statics(), r.value) ==
                   Create(old(os.kernel), old(Statics()), shmId, remote, size, address)
      ensures r.None? ==> os.kernel == old(os.kernel) && Statics() == old(Statics())
    {
      shmId := "";
      var id := CreateShmId(draws);
      if id.None? {
        return None, shmId;
      }
      shmId := id.value;
      var mapping := CreateUnixSharedMemory(os, id.value, size, address);
      if mapping.Err? {
        return Some(Err(mapping.failure)), shmId;
      }
      var record := ShmRecord(id.value, size, mapping.value, remote);
      sharedMemoryRepository := sharedMemoryRepository[mapping.value := record];
      created := created + {mapping.value};
      return Some(Ok(record)), shmId;
    }

    method LoadSharedMemory(os: OperatingSystem, shmId: string, remote: Raw, size: int, address: Raw)
      returns (r: Result<ShmRecord>)
      modifies os, this
      ensures (os.kernel, Statics(), r) == Load(old(os.kernel), old(Statics()), shmId, remote, size, address)
    {
      if shmId !in os.kernel.names {
        return Err(MapFailed);
      }
      var inode := os.kernel.names[shmId];
      os.kernel := SetContent(os.kernel, inode, Resize(Content(os.kernel, inode), size));
      if size <= 0 {
        return Err(MapFailed);
      }
      mapped := mapped[address := inode];
      var record := ShmRecord(shmId, size, address, remote);
      sharedMemoryRepository := sharedMemoryRepository[address := record];
      return Ok(record);
    }

    /** invokeGetIntArrayElements, once its arguments are read: a new shared memory, and memcpy into it. */
    method InvokeGetIntArrayElements(os: OperatingSystem, java: Raw, bytes: seq<Byte>, draws: seq<nat>, address: Raw,
                                     ghost server: Process)
      returns (r: Option<Result<ShmRecord>>, ghost shmId: string)
      modifies os, this
      ensures r.Some? ==>
                && shmId !in old(shmidSet)
                && match ServeArray(State(old(os.kernel), old(Statics()), server), java, bytes, shmId, address)
                   case Ok(served) =>
                     && r.value == Ok(served.1)
                     && State(os.kernel, Statics(), server) == served.0
                   case Err(why) =>
                     var (k, p, _) := Create(old(os.kernel), old(Statics()), shmId, java, IntCast(|bytes|), address);
                     r.value == Err(why) && os.kernel == k && Statics() == p
      ensures r.None? ==> os.kernel == old(os.kernel) && Statics() == old(Statics())
    {
      var made;
      made, shmId := CreateSharedMemory(os, java, IntCast(|bytes|), draws, address);
      if made.None? || made.value.Err? {
        return made, shmId;
      }
      var inode := mapped[made.value.value.address];
      var content := Content(os.kernel, inode);
      if |bytes| > |content| {
        return Some(Err(UndefinedBehaviour)), shmId;
      }
      os.kernel := SetContent(os.kernel, inode, bytes + content[|bytes|..]);
      return made, shmId;
    }

    method FindSharedMemory(address: Raw) returns (r: Result<ShmRecord>)
      ensures r == Find(Statics(), address)
    {
      r := if address in sharedMemoryRepository then Ok(sharedMemoryRepository[address]) else Err(OutOfRange);
    }

    method FreeSharedMemory(os: OperatingSystem, record: ShmRecord)
      modifies os, this
      ensures Statics() == FreeRecord(old(Statics()), record)
      ensures os.kernel == Unlink(old(os.kernel), record.shmId)
    {
      sharedMemoryRepository := sharedMemoryRepository - {record.address};
      shmidSet := shmidSet - {record.shmId};
      created := created - {record.address};
      os.kernel := Unlink(os.kernel, record.shmId);
    }
  }
}
