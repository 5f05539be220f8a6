/** Growable strings: a header passed by value and a block of characters shared
    by its copies. */
module StringUtilities {
  import opened Wrappers
  import opened Introspection

  /** A string header.  `data` is NULL in a header of zeros. */
  datatype RosString = RosString(data: array?<char>, size: nat, capacity: nat)

  const NUL: char := '\0'

  /** A header together with the bytes of its block. */
  datatype Image = Image(bytes: seq<char>, size: nat, capacity: nat) {
    function Text(): string
      requires size <= |bytes|
    {
      bytes[..size]
    }

    /** What init, set, append and remove_tail leave behind: the capacity is that
        of the block, the text is terminated inside it and holds no terminator. */
    predicate Sound() {
      size < capacity == |bytes| && bytes[size] == NUL && NUL !in bytes[..size]
    }
  }

  ghost function ImageOf(str: RosString): Image
    requires str.data != null
    reads str.data
  {
    Image(str.data[..], str.size, str.capacity)
  }

  function InitImage(data: CString): Image {
    Image(data + [NUL], |data|, |data| + 1)
  }

  /** `text`, terminated, copied over the first bytes of the block.  A text longer
      than the capacity gets a block of its own size first; otherwise text and
      terminator must fit the block. */
  function StoreText(v: Image, text: string): Option<Image> {
    if |text| > v.capacity then Some(Image(text + [NUL], |text|, |text| + 1))
    else if |text| + 1 <= |v.bytes| then
      Some(Image(text + [NUL] + v.bytes[|text| + 1..], |text|, v.capacity))
    else None
  }

  function SetImage(v: Image, data: CString): Option<Image> {
    StoreText(v, data)
  }

  function AppendImage(v: Image, data: CString): Option<Image>
    requires v.size <= |v.bytes|
  {
    StoreText(v, v.Text() + data)
  }

  function RemoveTailImage(v: Image, n: nat): Option<Image> {
    if n <= v.size && v.size - n < |v.bytes| then Some(v.(bytes := v.bytes[v.size - n := NUL], size := v.size - n))
    else None
  }

  // ------------------------------------------------------ runs of operations

  datatype StringOp = Set(text: CString) | Append(text: CString) | RemoveTail(n: nat)

  function Apply(v: Image, op: StringOp): Option<Image>
    requires v.size <= |v.bytes|
  {
    match op
    case Set(text) => SetImage(v, text)
    case Append(text) => AppendImage(v, text)
    case RemoveTail(n) => RemoveTailImage(v, n)
  }

  /** The same operation on plain text. */
  function Meaning(text: string, op: StringOp): string {
    match op
    case Set(t) => t
    case Append(t) => text + t
    case RemoveTail(n) => if n <= |text| then text[..|text| - n] else text
  }

  /** The operations one after the other; `None` once one would write outside the block. */
  function Play(v: Image, ops: seq<StringOp>): Option<Image>
    requires v.Sound()
    decreases |ops|
  {
    if ops == [] then Some(v)
    else
      match Apply(v, ops[0])
      case None => None
      case Some(u) =>
        ApplyRefines(v, ops[0]);
        Play(u, ops[1..])
  }

  function MeaningOfAll(text: string, ops: seq<StringOp>): string
    decreases |ops|
  {
    if ops == [] then text else MeaningOfAll(Meaning(text, ops[0]), ops[1..])
  }

  /** The number that decides whether the next operation fits: its new size. */
  function NewSize(size: nat, op: StringOp): int {
    match op
    case Set(text) => |text|
    case Append(text) => size + |text|
    case RemoveTail(n) => size - n
  }

  function NewCapacity(size: nat, capacity: nat, op: StringOp): nat {
    if NewSize(size, op) > capacity then NewSize(size, op) + 1 else capacity
  }

  /** From the sizes alone: no removal of more than there is, and no new size
      that equals the capacity. */
  predicate Fits(size: nat, capacity: nat, ops: seq<StringOp>)
    decreases |ops|
  {
    ops == [] ||
    (0 <= NewSize(size, ops[0]) != capacity
     && Fits(NewSize(size, ops[0]), NewCapacity(size, capacity, ops[0]), ops[1..]))
  }

  /** One operation: it stays in the block exactly when the new size is a size
      and differs from the capacity, and then does what it does to plain text. */
  lemma ApplyRefines(v: Image, op: StringOp)
    requires v.Sound()
    ensures Apply(v, op).Some? <==> 0 <= NewSize(v.size, op) != v.capacity
    ensures Apply(v, op).Some? ==>
              var u := Apply(v, op).value;
              && u.Sound() && u.Text() == Meaning(v.Text(), op)
              && u.size == NewSize(v.size, op) && u.capacity == NewCapacity(v.size, v.capacity, op)
              && u.capacity == if u.size > v.capacity then u.size + 1 else v.capacity
  {
    if Apply(v, op).Some? {
      var u := Apply(v, op).value;
      var text := Meaning(v.Text(), op);
      match op
      case RemoveTail(n) => assert u.bytes[..u.size] == text;
      case Set(t) => assert u.bytes[..|text|] == text;
      case Append(t) => assert u.bytes[..|text|] == text;
    }
  }

  /** Any run of operations on a sound string stays inside its blocks exactly
      when `Fits` says so, and its text is then that of the run on plain text. */
  lemma {:induction false} PlayRefines(v: Image, ops: seq<StringOp>)
    requires v.Sound()
    ensures Play(v, ops).Some? <==> Fits(v.size, v.capacity, ops)
    ensures Play(v, ops).Some? ==>
              Play(v, ops).value.Sound() && Play(v, ops).value.Text() == MeaningOfAll(v.Text(), ops)
    decreases |ops|
  {
    if ops != [] {
      ApplyRefines(v, ops[0]);
      if Apply(v, ops[0]).Some? {
        PlayRefines(Apply(v, ops[0]).value, ops[1..]);
      }
    }
  }

  lemma InitSound(data: CString)
    ensures InitImage(data).Sound() && InitImage(data).Text() == data
  {
    assert InitImage(data).bytes[..|data|] == data;
  }

  /** Appending and then removing as many characters gives the same text, terminated. */
  lemma AppendThenRemove(v: Image, data: CString)
    requires v.Sound() && v.size + |data| != v.capacity
    ensures Play(v, [Append(data), RemoveTail(|data|)]).Some?
    ensures var u := Play(v, [Append(data), RemoveTail(|data|)]).value;
            u.Sound() && u.size == v.size && u.Text() == v.Text()
  {
    var ops := [Append(data), RemoveTail(|data|)];
    assert ops[1..] == [RemoveTail(|data|)] && ops[1..][1..] == [];
    ApplyRefines(v, ops[0]);
    var u := Apply(v, ops[0]).value;
    ApplyRefines(u, ops[1]);
    assert Play(u, ops[1..]) == Play(Apply(u, ops[1]).value, []);
    assert (v.Text() + data)[..|v.Text()|] == v.Text();
  }

  /** A path that starts from an empty string never fits: its first name and
      the dot after it end exactly at the capacity. */
  lemma FirstPathStepNeverFits(name: CString)
    ensures !Fits(InitImage("").size, InitImage("").capacity, [Append(name), Append(".")])
  {
    var ops := [Append(name), Append(".")];
    assert ops[1..] == [Append(".")];
  }

  /** Nor does the first tab of an indentation. */
  lemma FirstTabNeverFits()
    ensures !Fits(InitImage("").size, InitImage("").capacity, [Append("\t")])
  {
    var ops := [Append("\t")];
    assert NewSize(0, ops[0]) == 1;
  }

  // ---------------------------------------------------------------- methods

  method Init(data: CString) returns (ret: RosString)
    ensures ret.data != null && fresh(ret.data) && ImageOf(ret) == InitImage(data)
  {
    var size := |data|;
    var block := new char[size + 1](_ => NUL);
    forall i | 0 <= i < size { block[i] := data[i]; }
    ret := RosString(block, size, size + 1);
  }

  method SetText(str: RosString, data: CString) returns (ret: RosString)
    requires str.data != null && SetImage(ImageOf(str), data).Some?
    modifies str.data
    ensures ret.data != null && ImageOf(ret) == SetImage(old(ImageOf(str)), data).value
    ensures |data| <= str.capacity ==> ret.data == str.data
    ensures |data| > str.capacity ==> fresh(ret.data) && unchanged(str.data)
  {
    var block, capacity := str.data, str.capacity;
    if |data| > capacity {
      block := new char[|data| + 1];
      capacity := |data| + 1;
    }
    forall i | 0 <= i < |data| + 1 { block[i] := (data + [NUL])[i]; }
    ret := RosString(block, |data|, capacity);
  }

  method AppendText(str: RosString, data: CString) returns (ret: RosString)
    requires str.data != null && str.size <= str.data.Length && AppendImage(ImageOf(str), data).Some?
    modifies str.data
    ensures ret.data != null && ImageOf(ret) == AppendImage(old(ImageOf(str)), data).value
    ensures str.size + |data| <= str.capacity ==> ret.data == str.data
    ensures str.size + |data| > str.capacity ==> fresh(ret.data) && unchanged(str.data)
  {
    var n := str.size + |data|;
    var block, capacity := str.data, str.capacity;
    if n > capacity {
      block := new char[n + 1];
      forall i | 0 <= i < str.size { block[i] := str.data[i]; }
      capacity := n + 1;
    }
    forall i | 0 <= i < |data| + 1 { block[str.size + i] := (data + [NUL])[i]; }
    ret := RosString(block, n, capacity);
    assert block[..] == old(str.data[..str.size]) + data + [NUL] + block[n + 1..];
  }

  method RemoveTailChars(str: RosString, n: nat) returns (ret: RosString)
    requires str.data != null && RemoveTailImage(ImageOf(str), n).Some?
    modifies str.data
    ensures ret.data == str.data && ImageOf(ret) == RemoveTailImage(old(ImageOf(str)), n).value
  {
    ret := RosString(str.data, str.size - n, str.capacity);
    ret.data[ret.size] := NUL;
  }
}
