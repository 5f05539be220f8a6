/** The memory utilities: one recursive walk over a type description serves
    five operations, and each public operation compares the totals of two walks. */
module TypeUtilities {
  import opened Arithmetic
  import opened Wrappers
  import opened Introspection
  import opened MemoryRules
  import opened StringUtilities
  import opened Plans
  import opened Costs
  import opened Layout
  import opened Store
  import opened Semantics
  import opened Sizes

  // ------------------------------------------------- the public operations

  ghost function ConfiguredPlan(mm: MessageMembers, conf: Conf): Plan
    requires ValidIds(mm)
  {
    PlanOf(mm, Configured(conf))
  }

  ghost function ClearMessage(s: State, p: Ptr, n: nat): State {
    StoreCells(s, p, Fill(n, Byte(0)))
  }

  /** Create on the heap: the message is cleared, and the bytes the walk counts
      are compared with the dynamic size. */
  ghost function CreateMessage(mm: MessageMembers, p: Ptr, conf: Conf, s: State, fails: nat -> bool): (State, bool)
    requires ValidIds(mm)
  {
    var plan := ConfiguredPlan(mm, conf);
    var out := Run(Create, plan, p, ClearMessage(s, p, mm.sizeOf), fails);
    (out.s, out.used == Size(plan))
  }

  /** The static size: a walk with no buffer, from index 0. */
  ghost function MeasureStatic(mm: MessageMembers, conf: Conf, s: State, fails: nat -> bool): Outcome
    requires ValidIds(mm)
  {
    Run(CalculateSizePreallocated, ConfiguredPlan(mm, conf), NULL, s.(buffer := NULL, index := 0), fails)
  }

  /** Create in a buffer of `len` bytes. */
  ghost function CreateStatic(mm: MessageMembers, p: Ptr, conf: Conf, buffer: Ptr, len: nat,
                              s: State, fails: nat -> bool): (State, bool)
    requires ValidIds(mm)
  {
    var m := MeasureStatic(mm, conf, s, fails);
    if m.used > len then (m.s, false)
    else
      var s1 := StoreCells(m.s, buffer, Fill(m.used, Byte(0)));
      var s2 := ClearMessage(s1.(buffer := buffer, index := 0), p, mm.sizeOf);
      var out := Run(CreatePreallocated, ConfiguredPlan(mm, conf), p, s2, fails);
      (out.s, out.used == m.used && out.used == out.s.index)
  }

  /** Destroy: the walk, then the message is cleared. */
  ghost function DestroyMessage(mm: MessageMembers, p: Ptr, conf: Conf, s: State, fails: nat -> bool): (State, bool)
    requires ValidIds(mm)
  {
    var plan := ConfiguredPlan(mm, conf);
    var out := Run(Destroy, plan, p, s, fails);
    (ClearMessage(out.s, p, mm.sizeOf), out.used == Size(plan))
  }

  // ---------------------------------------------------------- the path stack

  /** Characters that the dotted paths of members `i..` add, at most. */
  function PathRoom(mm: MessageMembers, i: nat): nat
    requires i <= |mm.members|
    decreases mm, |mm.members| - i
  {
    if i == |mm.members| then 0
    else
      var m := mm.members[i];
      Max(|m.name| + 1 + (if m.kind.Message? then PathRoom(m.kind.members, 0) else 0), PathRoom(mm, i + 1))
  }

  function RoomBelow(kind: Kind): nat {
    if kind.Message? then PathRoom(kind.members, 0) else 0
  }

  lemma {:induction false} PathRoomOfMember(mm: MessageMembers, i: nat, j: nat)
    requires i <= j < |mm.members|
    ensures |mm.members[j].name| + 1 + RoomBelow(mm.members[j].kind) <= PathRoom(mm, i)
    decreases j - i
  {
    if i < j { PathRoomOfMember(mm, i + 1, j); }
  }

  /** The path buffer starts with `path` and has room for `more` characters and a terminator. */
  ghost predicate PathAt(conf: Conf, tree: RosString, path: string, more: nat)
    reads tree.data
  {
    |conf.rules| > 0 ==>
      && tree.data != null && tree.capacity == tree.data.Length
      && tree.size == |path| && tree.size + more < tree.capacity
      && tree.data[..tree.size] == path && NUL !in path
  }

  ghost predicate PathEnds(conf: Conf, tree: RosString)
    requires |conf.rules| > 0 ==> tree.data != null && tree.size < tree.data.Length
    reads tree.data
  {
    |conf.rules| > 0 ==> tree.data[tree.size] == NUL
  }

  /** The member's name and a dot go onto the path. */
  method PushName(conf: Conf, tree: RosString, ghost path: string, name: CString, ghost more: nat)
      returns (longer: RosString)
    requires PathAt(conf, tree, path, |name| + 1 + more)
    modifies tree.data
    ensures |conf.rules| == 0 ==> longer == tree
    ensures longer.data == tree.data
    ensures PathAt(conf, longer, path + name + ".", more) && PathEnds(conf, longer)
    ensures |conf.rules| > 0 ==> longer.capacity == tree.capacity && longer.size == tree.size + |name| + 1
  {
    longer := tree;
    if |conf.rules| > 0 {
      longer := AppendText(longer, name);
      assert longer.data[..longer.size] == path + name;
      longer := AppendText(longer, ".");
      assert longer.data[..longer.size] == path + name + ".";
    }
  }

  /** They come off again; the path is terminated at its old length. */
  method PopName(conf: Conf, tree: RosString, ghost path: string, name: CString, ghost more: nat)
      returns (shorter: RosString)
    requires PathAt(conf, tree, path + name + ".", more)
    modifies tree.data
    ensures |conf.rules| == 0 ==> shorter == tree
    ensures shorter.data == tree.data
    ensures PathAt(conf, shorter, path, |name| + 1 + more) && PathEnds(conf, shorter)
    ensures |conf.rules| > 0 ==> shorter.capacity == tree.capacity && shorter.size == tree.size - |name| - 1
  {
    shorter := tree;
    if |conf.rules| > 0 {
      assert tree.data[..|path|] == (path + name + ".")[..|path|] == path;
      shorter := RemoveTailChars(tree, |name| + 1);
      assert shorter.data[..|path|] == path;
    }
  }

  /** What was pushed leaves the path below it as it was. */
  lemma PathBelow(conf: Conf, tree: RosString, longer: RosString, path: string, name: string, more: nat, room: nat)
    requires PathAt(conf, longer, path + name + ".", more) && longer.data == tree.data
    requires |conf.rules| > 0 ==>
               tree.size == |path| && tree.capacity == longer.capacity && tree.size + room < tree.capacity
    ensures PathAt(conf, tree, path, room)
  {
    if |conf.rules| > 0 {
      var dotted := path + name + ".";
      assert tree.data[..|path|] == dotted[..|path|] == path;
      assert forall x | x in path :: x in dotted;
    }
  }

  // --------------------------------------------------------------- the walk

  /** What the walk does for member `i` alone. */
  ghost function VisitMember(op: Operation, mm: MessageMembers, i: nat, conf: Conf, path: string,
                             p: Ptr, s: State, fails: nat -> bool): Outcome
    requires i < |mm.members| && ValidIds(mm)
  {
    var m := mm.members[i];
    var dotted := path + m.name + ".";
    var capacity := Capacity(conf, m.kind, dotted);
    if m.HasHeader() then VisitHeader(op, m.kind, capacity, conf, dotted, p.Plus(m.offset), s, fails)
    else if m.kind.Message? then
      Run(op, PlanFrom(m.kind.members, 0, conf, dotted), p.Plus(m.offset), s, fails).(aborted := false)
    else Outcome(s, 0, false)
  }

  ghost function VisitHeader(op: Operation, kind: Kind, capacity: nat, conf: Conf, dotted: string,
                             at: Ptr, s: State, fails: nat -> bool): Outcome
    requires TypeId(kind) <= MESSAGE_ID && (kind.Message? ==> ValidIds(kind.members))
  {
    if kind.Message? then
      VisitSlot(op, at, capacity, kind.members.sizeOf, capacity, PlanFrom(kind.members, 0, conf, dotted), s, fails)
    else
      VisitSlot(op, at, capacity, UnitSize(kind), 0, Done, s, fails)
  }

  lemma RunMember(op: Operation, mm: MessageMembers, i: nat, conf: Conf, path: string, p: Ptr, s: State,
                  fails: nat -> bool)
    requires i < |mm.members| && ValidIds(mm)
    ensures var v := VisitMember(op, mm, i, conf, path, p, s, fails);
            Run(op, PlanFrom(mm, i, conf, path), p, s, fails) ==
            if v.aborted then v else Then(v.used, Run(op, PlanFrom(mm, i + 1, conf, path), p, v.s, fails))
  {
  }

  class Runtime {
    /** Which of the heap allocator's requests fail: any behaviour at all. */
    const fails: nat -> bool

    var mem: Memory
    var operationBuffer: Ptr
    var operationBufferIndex: nat
    var requests: nat

    // Records of a run.
    ghost var handed: seq<Region>
    ghost var released: seq<Block>
    ghost var fault: bool

    ghost function Now(): State
      reads this
    {
      State(mem, operationBuffer, operationBufferIndex, requests, handed, released, fault)
    }

    method StoreCells(p: Ptr, cells: seq<Cell>)
      modifies this
      ensures Now() == Semantics.StoreCells(old(Now()), p, cells)
    {
      if InBounds(mem, p, |cells|) {
        mem := Put(mem, p, cells);
      } else {
        fault := true;
      }
    }

    method LoadPtr(p: Ptr) returns (q: Ptr)
      modifies this
      ensures (Now(), q) == Semantics.LoadPtr(old(Now()), p)
    {
      q := NULL;
      match ReadPtr(mem, p)
      case Some(a) => q := a;
      case None => fault := true;
    }

    method Allocate(size: nat) returns (p: Ptr)
      modifies this
      ensures (Now(), p) == Semantics.Allocate(old(Now()), size, fails)
    {
      p := NULL;
      if !fails(requests) {
        p := Ptr(HeapBlock(requests), 0);
        mem := mem[p.block := Fill(size, Undefined)];
      }
      requests := requests + 1;
    }

    method Deallocate(p: Ptr)
      modifies this
      ensures Now() == Semantics.Deallocate(old(Now()), p)
    {
      if p == NULL {
      } else if p.block.HeapBlock? && p.off == 0 && p.block in mem {
        mem := mem - {p.block};
        released := released + [p.block];
      } else {
        fault := true;
      }
    }

    method GetStaticMemory(size: nat) returns (p: Ptr)
      modifies this
      ensures (Now(), p) == Reserve(old(Now()), size)
    {
      while operationBufferIndex % ALIGNMENT != 0
        invariant Align(operationBufferIndex) == Align(old(operationBufferIndex))
        invariant Now() == old(Now()).(index := operationBufferIndex)
        decreases Align(operationBufferIndex) - operationBufferIndex
      {
        operationBufferIndex := operationBufferIndex + 1;
      }
      p := if operationBuffer == NULL then NULL else operationBuffer.Plus(operationBufferIndex);
      handed := handed + [Region(operationBufferIndex, size)];
      operationBufferIndex := operationBufferIndex + size;
    }

    method WriteEmptyHeader(at: Ptr, capacity: nat)
      modifies this
      ensures Now() == FinishHeader(old(Now()), at, capacity)
    {
      StoreCells(at.Plus(WORD), Parts(Number(0)));
      StoreCells(at.Plus(2 * WORD), Parts(Number(capacity)));
    }

    /** The visit of a header before its elements. */
    method AcquireSlot(op: Operation, at: Ptr, capacity: nat, unit: nat) returns (used: nat, failed: bool)
      modifies this
      ensures Outcome(Now(), used, failed) == Acquire(op, at, capacity, unit, old(Now()), fails)
    {
      var size := capacity * unit;
      match op
      case Create =>
        var data := Allocate(size);
        StoreCells(at, Parts(Address(data)));
        if data == NULL {
          return 0, true;
        }
        StoreCells(data, Fill(size, Byte(0)));
        WriteEmptyHeader(at, capacity);
        return size, false;
      case CreatePreallocated =>
        var previous := operationBufferIndex;
        var data := GetStaticMemory(size);
        StoreCells(at, Parts(Address(data)));
        if data == NULL {
          return 0, true;
        }
        WriteEmptyHeader(at, capacity);
        return operationBufferIndex - previous, false;
      case CalculateSizePreallocated =>
        var previous := operationBufferIndex;
        var _ := GetStaticMemory(size);
        return operationBufferIndex - previous, false;
      case _ =>
        return size, false;
    }

    /** The visit of a header after its elements. */
    method ReleaseSlot(op: Operation, at: Ptr)
      modifies this
      ensures Now() == Semantics.Release(op, at, old(Now()))
    {
      if op.Destroy? {
        var data := LoadPtr(at);
        Deallocate(data);
        StoreCells(at.Plus(WORD), Parts(Number(0)));
        StoreCells(at.Plus(2 * WORD), Parts(Number(0)));
      }
    }

    /** The loop over the messages of one sequence. */
    method HandleElements(rec: MessageMembers, at: Ptr, count: nat, conf: Conf, tree: RosString,
                          ghost path: string, op: Operation) returns (used: nat)
      requires ValidIds(rec) && PathAt(conf, tree, path, PathRoom(rec, 0))
      modifies this, tree.data
      ensures Outcome(Now(), used, false) ==
              Elements(op, PlanFrom(rec, 0, conf, path), at, rec.sizeOf, count, old(Now()), fails)
      ensures PathAt(conf, tree, path, PathRoom(rec, 0))
      decreases rec, 2
    {
      used := 0;
      var i := 0;
      while i < count
        invariant 0 <= i <= count
        invariant Outcome(Now(), used, false) ==
                  Elements(op, PlanFrom(rec, 0, conf, path), at, rec.sizeOf, i, old(Now()), fails)
        invariant PathAt(conf, tree, path, PathRoom(rec, 0))
      {
        var data := NULL;
        if !IsSizing(op) {
          data := LoadPtr(at);
          data := data.Plus(i * rec.sizeOf);
        }
        var n := HandleMessageMemory(rec, data, conf, tree, path, op);
        used := used + n;
        i := i + 1;
      }
    }

    /** A member stored as a header. */
    method HandleSlot(kind: Kind, at: Ptr, capacity: nat, conf: Conf, tree: RosString,
                      ghost dotted: string, op: Operation) returns (used: nat, failed: bool)
      requires TypeId(kind) <= MESSAGE_ID && (kind.Message? ==> ValidIds(kind.members))
      requires PathAt(conf, tree, dotted, RoomBelow(kind))
      modifies this, tree.data
      ensures Outcome(Now(), used, failed) == VisitHeader(op, kind, capacity, conf, dotted, at, old(Now()), fails)
      ensures PathAt(conf, tree, dotted, RoomBelow(kind))
      decreases kind, 3
    {
      used, failed := AcquireSlot(op, at, capacity, UnitSize(kind));
      if failed {
        return;
      }
      if kind.Message? {
        var n := HandleElements(kind.members, at, capacity, conf, tree, dotted, op);
        used := used + n;
      }
      ReleaseSlot(op, at);
    }

    /** One member, its name on the path. */
    method HandleMember(mm: MessageMembers, i: nat, rosMsg: Ptr, conf: Conf, tree: RosString,
                        ghost path: string, op: Operation) returns (used: nat, failed: bool)
      requires i < |mm.members| && ValidIds(mm)
      requires PathAt(conf, tree, path + mm.members[i].name + ".", RoomBelow(mm.members[i].kind))
          && PathEnds(conf, tree)
      modifies this, tree.data
      ensures Outcome(Now(), used, failed) == VisitMember(op, mm, i, conf, path, rosMsg, old(Now()), fails)
      ensures PathAt(conf, tree, path + mm.members[i].name + ".", RoomBelow(mm.members[i].kind))
      decreases mm, 0
    {
      var m := mm.members[i];
      ghost var dotted := path + m.name + ".";
      used, failed := 0, false;
      if m.HasHeader() {
        var capacity := DefaultCapacity(conf, m.kind);
        if |conf.rules| > 0 {
          capacity := SelectCapacity(conf, m.kind, tree.data, tree.size);
        }
        used, failed := HandleSlot(m.kind, rosMsg.Plus(m.offset), capacity, conf, tree, dotted, op);
      } else if m.kind.Message? {
        used := HandleMessageMemory(m.kind.members, rosMsg.Plus(m.offset), conf, tree, dotted, op);
      }
    }

    /** One turn of the member loop.  When the member's request fails its name is
        left behind the path, and the path unterminated. */
    method NextMember(mm: MessageMembers, i: nat, rosMsg: Ptr, conf: Conf, tree: RosString,
                      ghost path: string, op: Operation) returns (used: nat, failed: bool, next: RosString)
      requires i < |mm.members| && ValidIds(mm) && PathAt(conf, tree, path, PathRoom(mm, 0))
      modifies this, tree.data
      ensures Outcome(Now(), used, failed) == VisitMember(op, mm, i, conf, path, rosMsg, old(Now()), fails)
      ensures PathAt(conf, tree, path, PathRoom(mm, 0))
      ensures !failed ==> next == tree && PathEnds(conf, tree)
      decreases mm, 1, 0
    {
      var m := mm.members[i];
      PathRoomOfMember(mm, 0, i);
      next := PushName(conf, tree, path, m.name, RoomBelow(m.kind));
      used, failed := HandleMember(mm, i, rosMsg, conf, next, path, op);
      PathBelow(conf, tree, next, path, m.name, RoomBelow(m.kind), PathRoom(mm, 0));
      if !failed {
        next := PopName(conf, next, path, m.name, RoomBelow(m.kind));
      }
    }

    /** The recursive walk: whatever the operation, it does to memory and counts
        exactly what the plan of the type says, and leaves the caller's path as
        it found it. */
    method HandleMessageMemory(mm: MessageMembers, rosMsg: Ptr, conf: Conf, nameTree: RosString,
                               ghost path: string, op: Operation) returns (used: nat)
      requires ValidIds(mm) && PathAt(conf, nameTree, path, PathRoom(mm, 0))
      modifies this, nameTree.data
      ensures var out := Run(op, PlanFrom(mm, 0, conf, path), rosMsg, old(Now()), fails);
              && Now() == out.s && used == out.used
              && (!out.aborted && old(PathEnds(conf, nameTree)) ==> PathEnds(conf, nameTree))
      ensures PathAt(conf, nameTree, path, PathRoom(mm, 0))
      decreases mm, 1, 1
    {
      used := 0;
      var tree := nameTree;
      var i := 0;
      while i < |mm.members|
        invariant 0 <= i <= |mm.members| && tree == nameTree
        invariant Then(used, Run(op, PlanFrom(mm, i, conf, path), rosMsg, Now(), fails))
               == Run(op, PlanFrom(mm, 0, conf, path), rosMsg, old(Now()), fails)
        invariant PathAt(conf, tree, path, PathRoom(mm, 0))
        invariant old(PathEnds(conf, nameTree)) ==> PathEnds(conf, tree)
      {
        RunMember(op, mm, i, conf, path, rosMsg, Now(), fails);
        var n, failed, next := NextMember(mm, i, rosMsg, conf, tree, path, op);
        if failed {
          return 0;
        }
        used, tree, i := used + n, next, i + 1;
      }
    }

    // ------------------------------------------------ the public operations

    /** The empty path, on a block with room for every dotted path of the type. */
    method StartPath(conf: Conf, mm: MessageMembers) returns (tree: RosString)
      ensures tree.data != null ==> fresh(tree.data)
      ensures PathAt(conf, tree, "", PathRoom(mm, 0)) && PathEnds(conf, tree)
    {
      tree := RosString(null, 0, 0);
      if |conf.rules| > 0 {
        var n := PathRoom(mm, 0) + 1;
        var block := new char[n](_ => NUL);
        tree := RosString(block, 0, n);
      }
    }

    method GetDynamicSize(mm: MessageMembers, conf: Conf) returns (size: nat)
      requires ValidIds(mm)
      modifies this
      ensures Now() == old(Now()) && size == Size(ConfiguredPlan(mm, conf)) == Bytes(mm, 0, conf, "")
    {
      var actual := Configured(conf);
      PlanCosts(mm, 0, conf, "");
      var tree := StartPath(actual, mm);
      size := HandleMessageMemory(mm, NULL, actual, tree, "", CalculateSize);
      DynamicSizeWalk(ConfiguredPlan(mm, conf), NULL, old(Now()), fails);
    }

    method GetStaticSize(mm: MessageMembers, conf: Conf) returns (size: nat)
      requires ValidIds(mm)
      modifies this
      ensures Outcome(Now(), size, false) == MeasureStatic(mm, conf, old(Now()), fails)
    {
      var actual := Configured(conf);
      var tree := StartPath(actual, mm);
      operationBuffer := NULL;
      operationBufferIndex := 0;
      StaticWalk(CalculateSizePreallocated, ConfiguredPlan(mm, conf), NULL, Now(), fails);
      size := HandleMessageMemory(mm, NULL, actual, tree, "", CalculateSizePreallocated);
    }

    method CreateMessageMemory(mm: MessageMembers, rosMsg: Ptr, conf: Conf) returns (ok: bool)
      requires ValidIds(mm)
      modifies this
      ensures (Now(), ok) == CreateMessage(mm, rosMsg, conf, old(Now()), fails)
    {
      var calculatedSize := GetDynamicSize(mm, conf);
      var actual := Configured(conf);
      var tree := StartPath(actual, mm);
      StoreCells(rosMsg, Fill(mm.sizeOf, Byte(0)));
      var usedSize := HandleMessageMemory(mm, rosMsg, actual, tree, "", Create);
      ok := usedSize == calculatedSize;
    }

    method CreateStaticMessageMemory(mm: MessageMembers, rosMsg: Ptr, conf: Conf, buffer: Ptr, bufferLen: nat)
      returns (ok: bool)
      requires ValidIds(mm)
      modifies this
      ensures (Now(), ok) == CreateStatic(mm, rosMsg, conf, buffer, bufferLen, old(Now()), fails)
    {
      var calculatedSize := GetStaticSize(mm, conf);
      if calculatedSize > bufferLen {
        return false;
      }
      StoreCells(buffer, Fill(calculatedSize, Byte(0)));
      operationBuffer := buffer;
      operationBufferIndex := 0;
      var actual := Configured(conf);
      var tree := StartPath(actual, mm);
      StoreCells(rosMsg, Fill(mm.sizeOf, Byte(0)));
      var usedSize := HandleMessageMemory(mm, rosMsg, actual, tree, "", CreatePreallocated);
      ok := usedSize == calculatedSize && usedSize == operationBufferIndex;
    }

    method DestroyMessageMemory(mm: MessageMembers, rosMsg: Ptr, conf: Conf) returns (ok: bool)
      requires ValidIds(mm)
      modifies this
      ensures (Now(), ok) == DestroyMessage(mm, rosMsg, conf, old(Now()), fails)
    {
      var calculatedSize := GetDynamicSize(mm, conf);
      var actual := Configured(conf);
      var tree := StartPath(actual, mm);
      var releasedSize := HandleMessageMemory(mm, rosMsg, actual, tree, "", Destroy);
      StoreCells(rosMsg, Fill(mm.sizeOf, Byte(0)));
      ok := calculatedSize == releasedSize;
    }
  }
}
