/** Message-type descriptions, as the introspection type support hands them to
    the memory utilities.  ROS messages do not contain themselves, so the
    description of a type is a finite tree. */
module Introspection {

  /** The text of a C string: what precedes its terminator. */
  type CString = s: string | '\0' !in s

  type PositiveNat = n: nat | 0 < n witness 1

  /** Bytes in a pointer and in a `size_t`: any positive width. */
  const WORD: PositiveNat

  /** Bytes in a string or sequence header: `data`, `size`, `capacity`. */
  const HEADER: nat := 3 * WORD

  /** The type of a member.  `Basic(id)` stands for every type id other than
      that of a string (16) and that of a nested message (18). */
  datatype Kind = Basic(id: nat) | StringKind | Message(members: MessageMembers)

  datatype Member = Member(name: CString, kind: Kind, isArray: bool, arraySize: nat, offset: nat) {
    predicate IsSequence() {
      isArray && arraySize == 0
    }

    /** The member is stored as a header whose data lives elsewhere. */
    predicate HasHeader() {
      kind.StringKind? || IsSequence()
    }

    /** Bytes of the message that the memory walk may touch for this member.
        Of a fixed-size array only element 0 is visited. */
    function Extent(): nat {
      if HasHeader() then HEADER
      else if kind.Message? then kind.members.sizeOf
      else 0
    }
  }

  datatype MessageMembers =
    MessageMembers(msgNamespace: CString, msgName: CString, sizeOf: nat, members: seq<Member>)

  const STRING_ID: nat := 16
  const MESSAGE_ID: nat := 18

  const BASIC_TYPE_NAMES: seq<string> :=
    ["none", "float", "double", "long double", "char", "wchar", "bool", "octec", "uint8", "int8",
     "uint16", "int16", "uint32", "int32", "uint64", "int64", "string", "wstring", "ROS2 type"]

  const BASIC_TYPE_SIZES: seq<nat> :=
    [0, 4, 8, 8, 1, 1, 1, 1, 1, 1, 2, 2, 4, 4, 8, 8, 1, 1, 0]

  function TypeId(kind: Kind): nat {
    match kind
    case Basic(id) => id
    case StringKind => STRING_ID
    case Message(_) => MESSAGE_ID
  }

  /** The bytes one element of the member's data takes. */
  function UnitSize(kind: Kind): nat
    requires TypeId(kind) <= MESSAGE_ID
  {
    match kind
    case Message(rec) => rec.sizeOf
    case _ => BASIC_TYPE_SIZES[TypeId(kind)]
  }

  /** Type ids index the tables of names and sizes. */
  ghost predicate ValidIds(mm: MessageMembers) {
    forall i | 0 <= i < |mm.members| ::
      match mm.members[i].kind
      case Basic(id) => id < MESSAGE_ID && id != STRING_ID
      case StringKind => true
      case Message(rec) => ValidIds(rec)
  }

  predicate Apart(a: Member, b: Member) {
    a.offset + a.Extent() <= b.offset || b.offset + b.Extent() <= a.offset
  }

  /** A message layout: what the walk touches of each member lies inside the
      message, and members do not overlap; the same for nested messages. */
  ghost predicate WellFormed(mm: MessageMembers) {
    && (forall i | 0 <= i < |mm.members| :: mm.members[i].offset + mm.members[i].Extent() <= mm.sizeOf)
    && (forall i, j | 0 <= i < j < |mm.members| :: Apart(mm.members[i], mm.members[j]))
    && (forall i | 0 <= i < |mm.members| && mm.members[i].kind.Message? ::
          WellFormed(mm.members[i].kind.members))
  }
}
