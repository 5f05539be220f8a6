/** Memory as blocks of byte cells.  A stored word occupies `WORD` cells that
    remember which byte of which word they are, so that a later write over any
    of them destroys the word. */
module Store {
  import opened Wrappers
  import opened Introspection

  /** The message itself, the user's buffer, or the block that answered the
      allocator's request with that number. */
  datatype Block = NoBlock | MessageBlock | UserBuffer | HeapBlock(request: nat)

  datatype Ptr = Ptr(block: Block, off: nat) {
    function Plus(n: nat): Ptr {
      Ptr(block, off + n)
    }
  }

  const NULL: Ptr := Ptr(NoBlock, 0)

  datatype Word = Address(ptr: Ptr) | Number(n: nat)

  datatype Cell = Undefined | Byte(value: nat) | Part(word: Word, k: nat)

  type Memory = map<Block, seq<Cell>>

  predicate InBounds(m: Memory, p: Ptr, n: nat) {
    p.block in m && p.off + n <= |m[p.block]|
  }

  function Parts(w: Word): (s: seq<Cell>)
    ensures |s| == WORD
  {
    seq(WORD, k requires 0 <= k < WORD => Part(w, k))
  }

  function Fill(n: nat, c: Cell): (s: seq<Cell>)
    ensures |s| == n
  {
    seq(n, _ => c)
  }

  /** `cells` written at `p`: those bytes change, no other byte and no block size does. */
  function Put(m: Memory, p: Ptr, cells: seq<Cell>): (r: Memory)
    requires InBounds(m, p, |cells|)
    ensures r.Keys == m.Keys
    ensures forall b | b in m :: |r[b]| == |m[b]|
    ensures forall b | b in m && b != p.block :: r[b] == m[b]
    ensures forall o | 0 <= o < |m[p.block]| ::
              r[p.block][o] == if p.off <= o < p.off + |cells| then cells[o - p.off] else m[p.block][o]
  {
    var s := m[p.block];
    m[p.block := s[..p.off] + cells + s[p.off + |cells|..]]
  }

  /** The bytes at `p` are those of the word `w`. */
  ghost predicate Holds(m: Memory, p: Ptr, w: Word) {
    && InBounds(m, p, WORD)
    && forall o | p.off <= o < p.off + WORD :: m[p.block][o] == Part(w, o - p.off)
  }

  /** The bytes at `p` are those of the pointer `q`.  Zero bytes are those of NULL. */
  ghost predicate Points(m: Memory, p: Ptr, q: Ptr) {
    || Holds(m, p, Address(q))
    || (q == NULL && InBounds(m, p, WORD) && forall o | p.off <= o < p.off + WORD :: m[p.block][o] == Byte(0))
  }

  /** The pointer stored at `p`, if the bytes there are those of a pointer. */
  function ReadPtr(m: Memory, p: Ptr): (r: Option<Ptr>)
    ensures forall q {:trigger Points(m, p, q)} {:trigger Holds(m, p, Address(q))} :: Points(m, p, q) <==> r == Some(q)
  {
    if !InBounds(m, p, WORD) then None
    else
      var bytes, first := m[p.block][p.off..p.off + WORD], m[p.block][p.off];
      assert forall o | p.off <= o < p.off + WORD :: m[p.block][o] == bytes[o - p.off];
      assert forall q | Holds(m, p, Address(q)) :: bytes == Parts(Address(q));
      assert forall q | Points(m, p, q) && !Holds(m, p, Address(q)) :: bytes == Fill(WORD, Byte(0));
      if first.Part? && first.word.Address? && bytes == Parts(first.word) then Some(first.word.ptr)
      else if bytes == Fill(WORD, Byte(0)) then Some(NULL)
      else None
  }
}
