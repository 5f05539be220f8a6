/** Inputs on which the public operations do less than their interface suggests. */
module Witnesses {
  import opened Introspection
  import opened MemoryRules
  import opened Plans
  import opened Store
  import opened Semantics
  import opened Sizes
  import opened TypeUtilities
  import opened Recovery
  import opened Guarantees

  /** A message that is one string. */
  function Text(): MessageMembers {
    MessageMembers("demo", "Text", HEADER, [Member("s", StringKind, false, 0, 0)])
  }

  /** A message that holds one such message. */
  function Note(): MessageMembers {
    MessageMembers("demo", "Note", HEADER, [Member("b", Message(Text()), false, 0, 0)])
  }

  /** A message that holds a sequence of them. */
  function Notes(): MessageMembers {
    MessageMembers("demo", "Notes", HEADER, [Member("b", Message(Text()), true, 0, 0)])
  }

  const ZERO_RULE := Conf(0, 0, 0, [Rule("b.s", 0)])

  lemma TextPlan(conf: Conf, path: string)
    ensures ValidIds(Text()) && WellFormed(Text())
    ensures PlanFrom(Text(), 0, conf, path) == Slot(0, Capacity(conf, StringKind, path + "s" + "."), 1, 0, Done, Done)
  {
    var t := Text();
    assert |t.members| == 1 && PlanFrom(t, 1, conf, path) == Done;
    assert UnitSize(StringKind) == 1;
  }

  lemma ZeroRuleCapacity()
    ensures Capacity(Configured(ZERO_RULE), StringKind, "b." + "s" + ".") == 0
  {
    var rule: string := "b.s";
    assert Names(rule, "b." + "s" + ".") by {
      assert rule + "." == "b." + "s" + ".";
    }
  }

  /** The plan asks for no bytes, in one request. */
  lemma NotePlan()
    ensures ValidIds(Note()) && WellFormed(Note())
    ensures ConfiguredPlan(Note(), ZERO_RULE) == Inline(0, Slot(0, 0, 1, 0, Done, Done), Done)
  {
    var mm, conf := Note(), Configured(ZERO_RULE);
    TextPlan(conf, "b.");
    ZeroRuleCapacity();
    assert "" + mm.members[0].name + "." == "b.";
    assert PlanFrom(mm, 1, conf, "") == Done;
  }

  /** A nested message with one string of no capacity is not charged for its request. */
  lemma NotCharged(w: Plan)
    requires w.Inline? && w.inner.Slot? && w.inner.capacity == 0 && w.inner.count == 0 && w.inner.rest.Done?
    ensures !Charged(w)
  {
    assert Requests(w.inner) == 1 && Size(w.inner) == 0;
    assert !Charged(w.inner);
    assert !NestedCharged(w);
  }

  /** A rule of size 0 on the string of a nested message: its request may fail and create still returns true. */
  lemma ZeroRuleHidesFailure(p: Ptr, s: State)
    ensures ValidIds(Note()) && WellFormed(Note()) && !ReportsFailures(Note(), p, ZERO_RULE, s)
  {
    NotePlan();
    NotCharged(ConfiguredPlan(Note(), ZERO_RULE));
    CreateReportsFailures(Note(), p, ZERO_RULE, s);
  }

  /** A sequence of messages with a string: when the request for the sequence
      fails, destroying the message goes astray, and returns true. */
  lemma FailedSequenceGoesAstray(conf: Conf, p: Ptr, s: State, fails: nat -> bool)
    requires conf.rules == [] && CanCreate(Notes(), p, s) && NoBlock !in s.mem && fails(s.requests)
    ensures var (u, destroyed) := DestroyMessage(Notes(), p, conf, CreateMessage(Notes(), p, conf, s, fails).0, fails);
            u.fault && destroyed
  {
    var mm, actual := Notes(), Configured(conf);
    var plan := ConfiguredPlan(mm, conf);
    TextPlan(actual, "b.");
    assert "" + "b" + "." == "b.";
    assert PlanFrom(mm, 1, actual, "") == Done;
    var n := actual.maxRos2Sequence;
    assert plan.Slot? && plan.count == n && plan.inner.Slot?;
    assert !Flat(plan);
    var start := ClearMessage(s, p, mm.sizeOf);
    assert VisitSlot(Create, p.Plus(plan.off), plan.capacity, plan.unit, plan.count, plan.inner, start, fails).aborted;
    NothingGained(mm, p, conf, s, fails);
  }

  /** So that type does not recover from every failure. */
  lemma NotesMayNotRecover(conf: Conf, p: Ptr, s: State)
    requires conf.rules == [] && CanCreate(Notes(), p, s) && NoBlock !in s.mem
    ensures !AlwaysRecovers(Notes(), p, conf, s)
  {
    var fails: nat -> bool := r => r == s.requests;
    FailedSequenceGoesAstray(conf, p, s, fails);
    assert !Recovers(Notes(), p, conf, s, fails);
  }

  /** A caller's memory: a message and a buffer whose bytes nobody has set, and no heap block. */
  function CallersMemory(size: nat, len: nat): State {
    State(map[MessageBlock := Fill(size, Undefined), UserBuffer := Fill(len, Undefined)], NULL, 0, 0, [], [], false)
  }

  /** Every well-formed type has a message that can be created there, on the heap or in the buffer. */
  lemma EveryTypeCanBeCreated(mm: MessageMembers, len: nat)
    requires ValidIds(mm) && WellFormed(mm)
    ensures var s, p := CallersMemory(mm.sizeOf, len), Ptr(MessageBlock, 0);
            CanCreate(mm, p, s) && CanCreateStatic(mm, p, len, s) && NoBlock !in s.mem
  {
    var s := CallersMemory(mm.sizeOf, len);
    assert s.mem.Keys == {MessageBlock, UserBuffer};
  }
}
