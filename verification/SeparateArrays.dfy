/**
 Different arrays are in different memory: the ids of two processes never meet, and a
 live created record maps the one object of its own name (SharedMemory.cpp).
 */
module SeparateArrays {
  import opened Results
  import opened Cells
  import opened Numerals
  import opened Values
  import opened SharedArrays

  // Names tell processes apart

  lemma {:induction false} SplitAtColon(front: string, front': string, rest: string, rest': string)
    requires ':' !in front && ':' !in front'
    requires front + (":" + rest) == front' + (":" + rest')
    ensures front == front'
  {
    var text, text' := front + (":" + rest), front' + (":" + rest');
    assert text[|front|] == ':' && text'[|front'|] == ':';
    assert front != "" ==> text[0] == front[0];
    assert front' != "" ==> text'[0] == front'[0];
    if front != "" && front' != "" {
      assert text[1..] == front[1..] + (":" + rest) && text'[1..] == front'[1..] + (":" + rest');
      SplitAtColon(front[1..], front'[1..], rest, rest');
      assert front == [front[0]] + front[1..] && front' == [front'[0]] + front'[1..];
    }
  }

  lemma NoColonInNumeral(s: string)
    requires AllDigits(s, 10)
    ensures ':' !in s
  {
    forall i | 0 <= i < |s|
      ensures s[i] != ':'
    {
      assert DigitValue(s[i]) < 10;
    }
  }

  lemma SameNumeral(n: nat, n': nat)
    requires Print(n, 10) == Print(n', 10)
    ensures n == n'
  {
    assert Numerals.Value(Print(n, 10), 10) == n && Numerals.Value(Print(n', 10), 10) == n';
  }

  /** An id says which process has made it. */
  lemma NamesTellProcess(pid: nat, pid': nat, draw: nat, draw': nat)
    requires ShmName(pid, draw) == ShmName(pid', draw')
    ensures pid == pid'
  {
    var front, front' := Print(pid, 10), Print(pid', 10);
    var rest, rest' := Print(draw, 10), Print(draw', 10);
    NoColonInNumeral(front);
    NoColonInNumeral(front');
    FrontOfName(front, rest, front', rest');
    SameNumeral(pid, pid');
  }

  lemma FrontOfName(front: string, rest: string, front': string, rest': string)
    requires ':' !in front && ':' !in front' && front + "::" + rest == front' + "::" + rest'
    ensures front == front'
  {
    assert front + "::" + rest == front + (":" + (":" + rest));
    assert front' + "::" + rest' == front' + (":" + (":" + rest'));
    SplitAtColon(front, front', ":" + rest, ":" + rest');
  }

  /** Different draws give a process different ids. */
  lemma NamesTellDraw(pid: nat, draw: nat, draw': nat)
    requires ShmName(pid, draw) == ShmName(pid, draw')
    ensures draw == draw'
  {
    var front := Print(pid, 10) + "::";
    RestOfName(front, Print(draw, 10), Print(draw', 10));
    SameNumeral(draw, draw');
  }

  lemma RestOfName(front: string, rest: string, rest': string)
    requires front + rest == front + rest'
    ensures rest == rest'
  {
    assert rest == (front + rest)[|front|..] && rest' == (front + rest')[|front|..];
  }

  /** Which ids a process may make. */
  type Naming = (nat, string) -> bool

  ghost predicate TellsProcesses(mine: Naming) {
    forall pid: nat, pid': nat, id: string :: mine(pid, id) && mine(pid', id) ==> pid == pid'
  }

  ghost predicate IsNameOf(pid: nat, id: string) {
    exists draw: nat :: id == ShmName(pid, draw)
  }

  ghost function ShmNaming(): Naming {
    (pid: nat, id: string) => IsNameOf(pid, id)
  }

  lemma ShmNamesTellProcesses()
    ensures TellsProcesses(ShmNaming())
  {
    forall pid: nat, pid': nat, id: string | IsNameOf(pid, id) && IsNameOf(pid', id)
      ensures pid == pid'
    {
      var draw: nat :| id == ShmName(pid, draw);
      var draw': nat :| id == ShmName(pid', draw');
      NamesTellProcess(pid, pid', draw, draw');
    }
  }

  // The invariant

  /** No two names are of one object. */
  predicate OneName(k: Kernel) {
    forall n, n' :: n in k.names && n' in k.names && n != n' ==> k.names[n] != k.names[n']
  }

  /** Every live created record maps the object of its own name, which is one of its process. */
  ghost predicate OwnsItsMemory(k: Kernel, p: Process, mine: Naming) {
    forall a :: a in p.created ==> OwnsMemory(k, p, a, mine)
  }

  ghost predicate OwnsMemory(k: Kernel, p: Process, a: Raw, mine: Naming) {
    && a in p.registry && a in p.mapped
    && var id := p.registry[a].shmId;
       mine(p.pid, id) && id in k.names && k.names[id] == p.mapped[a]
  }

  ghost predicate Apart(s: State, mine: Naming) {
    && SystemOk(s) && OneName(s.kernel) && s.client.pid != s.server.pid
    && OwnsItsMemory(s.kernel, s.client, mine) && OwnsItsMemory(s.kernel, s.server, mine)
  }

  /** createShmId gives names of the process that calls it. */
  ghost predicate CreatesOwn(s: State, op: Operation, mine: Naming) {
    op.CreateOp? ==> mine(s.Of(op.side).pid, op.shmId)
  }

  // What each operation keeps

  /** Names that are only added to. */
  predicate KeepsNames(k: Kernel, k': Kernel) {
    forall n :: n in k.names ==> n in k'.names && k'.names[n] == k.names[n]
  }

  lemma NamesKept(k: Kernel, k': Kernel, p: Process, mine: Naming)
    requires OwnsItsMemory(k, p, mine) && KeepsNames(k, k')
    ensures OwnsItsMemory(k', p, mine)
  {
    forall a | a in p.created
      ensures OwnsMemory(k', p, a, mine)
    {
      assert OwnsMemory(k, p, a, mine);
    }
  }

  lemma CreateKeepsMemory(k: Kernel, p: Process, shmId: string, remote: Raw, size: int, address: Raw, mine: Naming)
    requires OwnsItsMemory(k, p, mine) && mine(p.pid, shmId) && address !in p.mapped
    ensures var (k', p', _) := Create(k, p, shmId, remote, size, address);
            KeepsNames(k, k') && OwnsItsMemory(k', p', mine) && p'.pid == p.pid
  {
    var (k', p', _) := Create(k, p, shmId, remote, size, address);
    forall a | a in p'.created
      ensures OwnsMemory(k', p', a, mine)
    {
      if a in p.created {
        assert OwnsMemory(k, p, a, mine);
      }
    }
  }

  lemma LoadKeepsMemory(k: Kernel, p: Process, shmId: string, remote: Raw, size: int, address: Raw, mine: Naming)
    requires OwnsItsMemory(k, p, mine) && address !in p.mapped
    ensures var (k', p', _) := Load(k, p, shmId, remote, size, address);
            KeepsNames(k, k') && OwnsItsMemory(k', p', mine) && p'.pid == p.pid
  {
    var (k', p', _) := Load(k, p, shmId, remote, size, address);
    forall a | a in p'.created
      ensures OwnsMemory(k', p', a, mine)
    {
      assert OwnsMemory(k, p, a, mine);
    }
  }

  lemma FreeKeepsMemory(k: Kernel, p: Process, record: ShmRecord, mine: Naming)
    requires RegistryOk(p) && OwnsItsMemory(k, p, mine)
    requires record.address in p.created && Find(p, record.address) == Ok(record)
    ensures OwnsItsMemory(Unlink(k, record.shmId), FreeRecord(p, record), mine)
  {
    forall a | a in FreeRecord(p, record).created
      ensures OwnsMemory(Unlink(k, record.shmId), FreeRecord(p, record), a, mine)
    {
      assert OwnsMemory(k, p, a, mine);
    }
  }

  /** The other process's frees unlink none of the own names. */
  lemma OtherFreeKeepsMemory(k: Kernel, p: Process, q: Process, record: ShmRecord, mine: Naming)
    requires TellsProcesses(mine) && p.pid != q.pid && OwnsItsMemory(k, p, mine) && OwnsItsMemory(k, q, mine)
    requires record.address in q.created && Find(q, record.address) == Ok(record)
    ensures OwnsItsMemory(Unlink(k, record.shmId), p, mine)
  {
    assert OwnsMemory(k, q, record.address, mine);
    forall a | a in p.created
      ensures OwnsMemory(Unlink(k, record.shmId), p, a, mine)
    {
      assert OwnsMemory(k, p, a, mine);
      assert mine(p.pid, p.registry[a].shmId) && mine(q.pid, record.shmId);
    }
  }

  lemma StepKeepsOneName(s: State, op: Operation)
    requires KernelOk(s) && OneName(s.kernel) && Legal(s, op)
    ensures OneName(Apply(s, op).kernel)
  {
  }

  function Opposite(side: Side): Side {
    if side == ClientSide then ServerSide else ClientSide
  }

  lemma StepKeepsMemory(s: State, op: Operation, mine: Naming)
    requires TellsProcesses(mine) && Apart(s, mine) && Legal(s, op) && CreatesOwn(s, op, mine)
    ensures var s' := Apply(s, op);
            && OwnsItsMemory(s'.kernel, s'.Of(op.side), mine)
            && OwnsItsMemory(s'.kernel, s'.Of(Opposite(op.side)), mine)
            && s'.client.pid == s.client.pid && s'.server.pid == s.server.pid
  {
    var p, q := s.Of(op.side), s.Of(Opposite(op.side));
    match op {
      case CreateOp(_, shmId, remote, size, address) =>
        CreateKeepsMemory(s.kernel, p, shmId, remote, size, address, mine);
        NamesKept(s.kernel, Create(s.kernel, p, shmId, remote, size, address).0, q, mine);
      case LoadOp(_, shmId, remote, size, address) =>
        LoadKeepsMemory(s.kernel, p, shmId, remote, size, address, mine);
        NamesKept(s.kernel, Load(s.kernel, p, shmId, remote, size, address).0, q, mine);
      case FreeOp(_, record) =>
        FreeKeepsMemory(s.kernel, p, record, mine);
        OtherFreeKeepsMemory(s.kernel, q, p, record, mine);
      case WriteOp(_, address, offset, byte) =>
        NamesKept(s.kernel, Apply(s, op).kernel, p, mine);
        NamesKept(s.kernel, Apply(s, op).kernel, q, mine);
    }
  }

  lemma StepKeepsApart(s: State, op: Operation, mine: Naming)
    requires TellsProcesses(mine) && Apart(s, mine) && Legal(s, op) && CreatesOwn(s, op, mine)
    ensures Apart(Apply(s, op), mine)
    ensures Apply(s, op).client.pid == s.client.pid && Apply(s, op).server.pid == s.server.pid
  {
    StepKeepsKernel(s, op);
    StepKeepsRegistry(s, op, ClientSide);
    StepKeepsRegistry(s, op, ServerSide);
    StepKeepsOneName(s, op);
    StepKeepsMemory(s, op, mine);
  }

  ghost predicate AllCreateOwn(s: State, ops: seq<Operation>, mine: Naming) {
    forall i :: 0 <= i < |ops| ==> CreatesOwn(s, ops[i], mine)
  }

  lemma {:induction false} RunKeepsApart(s: State, ops: seq<Operation>, mine: Naming)
    requires TellsProcesses(mine) && Apart(s, mine) && LegalRun(s, ops) && AllCreateOwn(s, ops, mine)
    ensures Apart(Run(s, ops), mine)
    decreases |ops|
  {
    if ops != [] {
      assert CreatesOwn(s, ops[0], mine);
      StepKeepsApart(s, ops[0], mine);
      forall i | 0 <= i < |ops| - 1
        ensures CreatesOwn(Apply(s, ops[0]), ops[1..][i], mine)
      {
        assert CreatesOwn(s, ops[i + 1], mine);
      }
      RunKeepsApart(Apply(s, ops[0]), ops[1..], mine);
    }
  }

  // Main result

  /** Two live created records, of one process or of both, map different objects. */
  lemma MemoryIsApart(s: State, side: Side, a: Raw, side': Side, b: Raw, mine: Naming)
    requires TellsProcesses(mine) && Apart(s, mine)
    requires a in s.Of(side).created && b in s.Of(side').created && (side != side' || a != b)
    ensures a in s.Of(side).mapped && b in s.Of(side').mapped && s.Of(side).mapped[a] != s.Of(side').mapped[b]
  {
    var p, q := s.Of(side), s.Of(side');
    assert OwnsMemory(s.kernel, p, a, mine) && OwnsMemory(s.kernel, q, b, mine);
    assert p.registry[a].shmId != q.registry[b].shmId;
  }

  /** A mapping, in either process, of the object that a created record maps. */
  predicate IsMappingOf(s: State, viewer: Side, address: Raw, side: Side, a: Raw) {
    && address in s.Of(viewer).mapped && a in s.Of(side).mapped
    && s.Of(viewer).mapped[address] == s.Of(side).mapped[a]
  }

  /**
   Over every legal run in which both processes create ids of their own, two live
   created arrays are different memory: a store to one of them, through any mapping of
   it, is never seen in the other one, through any mapping of that one.
   */
  lemma ArraysStayApart(s: State, ops: seq<Operation>, side: Side, a: Raw, side': Side, b: Raw,
                        writer: Side, wa: Raw, reader: Side, rb: Raw, offset: nat, byte: Byte)
    requires Apart(s, ShmNaming()) && LegalRun(s, ops) && AllCreateOwn(s, ops, ShmNaming())
    requires var s' := Run(s, ops);
             && a in s'.Of(side).created && b in s'.Of(side').created && (side != side' || a != b)
             && IsMappingOf(s', writer, wa, side, a) && IsMappingOf(s', reader, rb, side', b)
             && offset < |View(s', writer, wa)|
    ensures var s' := Run(s, ops);
            View(Write(s', writer, wa, offset, byte), reader, rb) == View(s', reader, rb)
  {
    ShmNamesTellProcesses();
    RunKeepsApart(s, ops, ShmNaming());
    MemoryIsApart(Run(s, ops), side, a, side', b, ShmNaming());
  }

  /** Two processes that have not created anything yet are apart. */
  lemma FreshProcessesAreApart(s: State, mine: Naming)
    requires KernelOk(s) && OneName(s.kernel) && s.client.pid != s.server.pid
    requires s.client == Process(s.client.pid, {}, map[], map[], {})
    requires s.server == Process(s.server.pid, {}, map[], map[], {})
    ensures Apart(s, mine)
  {
  }
}
