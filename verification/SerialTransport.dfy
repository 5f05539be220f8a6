/** Reading from the serial device: byte by byte, giving up when the wait for a
    byte has lasted longer than the timeout. */
module SerialTransport {

  import opened Arithmetic

  type Octet = b: nat | b < 256

  /** One poll of the device: a byte, or none, after which the wait ends with
      the system having counted `now` ticks (the counter shows them modulo 2^32). */
  datatype Poll = Got(byte: Octet) | Nothing(now: nat)

  /** Ticks since `start` as the 32-bit counter shows them. */
  function Elapsed(now: nat, start: nat): nat {
    (now % U32 - start % U32) % U32
  }

  /** The comparison made after a wait: unsigned, so that a negative timeout is a huge one. */
  predicate GivesUp(now: nat, start: nat, timeout: int) {
    Elapsed(now, start) > timeout % U32
  }

  /** What one call takes from the device: the bytes, the polls it made up to
      `pos`, and whether it returned or is still waiting where the polls end. */
  datatype Taken = Taken(bytes: seq<Octet>, pos: nat, returned: bool)

  function Prepend(b: seq<Octet>, t: Taken): Taken {
    t.(bytes := b + t.bytes)
  }

  function Take(polls: seq<Poll>, pos: nat, len: nat, start: nat, timeout: int): (t: Taken)
    requires pos <= |polls|
    ensures pos <= t.pos <= |polls|
    decreases |polls| - pos
  {
    if len == 0 then Taken([], pos, true)
    else if pos == |polls| then Taken([], pos, false)
    else
      match polls[pos]
      case Got(b) => Prepend([b], Take(polls, pos + 1, len - 1, start, timeout))
      case Nothing(now) =>
        if GivesUp(now, start, timeout) then Taken([], pos + 1, true)
        else Take(polls, pos + 1, len, start, timeout)
  }

  /** The bytes the device delivered during some polls. */
  function Stream(polls: seq<Poll>): seq<Octet> {
    if polls == [] then []
    else (if polls[0].Got? then [polls[0].byte] else []) + Stream(polls[1..])
  }

  lemma {:induction false} StreamJoins(a: seq<Poll>, b: seq<Poll>)
    ensures Stream(a + b) == Stream(a) + Stream(b)
    decreases |a|
  {
    if a == [] {
      assert a + b == b;
    } else {
      StreamJoins(a[1..], b);
      assert (a + b)[0] == a[0] && (a + b)[1..] == a[1..] + b;
    }
  }

  /** One call takes exactly the bytes delivered during its polls.  It is short
      only because a wait outlasted the timeout, and it never gives up before. */
  lemma {:induction false} TakeConserves(polls: seq<Poll>, pos: nat, len: nat, start: nat, timeout: int)
    requires pos <= |polls|
    ensures var t := Take(polls, pos, len, start, timeout);
            && t.bytes == Stream(polls[pos..t.pos])
            && |t.bytes| <= len
            && (t.returned && |t.bytes| < len <==>
                  pos < t.pos && polls[t.pos - 1].Nothing? && GivesUp(polls[t.pos - 1].now, start, timeout))
            && (forall i | pos <= i < t.pos - 1 && polls[i].Nothing? :: !GivesUp(polls[i].now, start, timeout))
            && (!t.returned ==> t.pos == |polls|)
            && (|t.bytes| == len ==> t.returned)
    decreases |polls| - pos
  {
    var t := Take(polls, pos, len, start, timeout);
    if len != 0 && pos < |polls| {
      match polls[pos]
      case Got(b) =>
        TakeConserves(polls, pos + 1, len - 1, start, timeout);
        assert polls[pos..t.pos][1..] == polls[pos + 1..t.pos];
      case Nothing(now) =>
        if GivesUp(now, start, timeout) {
          assert polls[pos..t.pos] == [polls[pos]];
          assert Stream([polls[pos]]) == Stream([polls[pos]][1..]);
        } else {
          TakeConserves(polls, pos + 1, len, start, timeout);
          assert polls[pos..t.pos][1..] == polls[pos + 1..t.pos];
        }
    }
  }

  /** Giving up means that more than `timeout` ticks really passed, across any
      wrap of the counter; below a full wrap it means exactly that. */
  lemma GivesUpLate(now: nat, start: nat, timeout: int)
    requires start <= now && 0 <= timeout < U32 / 2
    ensures GivesUp(now, start, timeout) ==> now - start > timeout
    ensures now - start < U32 ==> (GivesUp(now, start, timeout) <==> now - start > timeout)
  {
    var k, j := now / U32, start / U32;
    assert now == k * U32 + now % U32 && start == j * U32 + start % U32;
    assert now - start == (k - j) * U32 + (now % U32 - start % U32);
    assert Elapsed(now, start) == (now - start) % U32;
    assert (now - start) % U32 <= now - start;
  }

  /** A negative timeout is one of nearly a full wrap; -1 is never reached. */
  lemma NegativeTimeout(now: nat, start: nat, timeout: int)
    requires -(U32 as int) / 2 <= timeout < 0
    ensures GivesUp(now, start, timeout) <==> Elapsed(now, start) > U32 + timeout
    ensures timeout == -1 ==> !GivesUp(now, start, timeout)
  {
    assert timeout % U32 == U32 + timeout;
  }

  // ------------------------------------------------------------------- runs

  datatype Call = Call(len: nat, start: nat, timeout: int)

  /** A run of calls, each on the polls after those of the call before it; it
      ends early with a call that is still waiting. */
  function TakeAll(polls: seq<Poll>, pos: nat, calls: seq<Call>): (t: Taken)
    requires pos <= |polls|
    ensures pos <= t.pos <= |polls|
    decreases |calls|
  {
    if calls == [] then Taken([], pos, true)
    else
      var t := Take(polls, pos, calls[0].len, calls[0].start, calls[0].timeout);
      if !t.returned then t else Prepend(t.bytes, TakeAll(polls, t.pos, calls[1..]))
  }

  /** Over any run of calls the bytes obtained, in order, are the bytes the device
      delivered: none lost, repeated or out of place. */
  lemma {:induction false} RunConserves(polls: seq<Poll>, pos: nat, calls: seq<Call>)
    requires pos <= |polls|
    ensures var t := TakeAll(polls, pos, calls); t.bytes == Stream(polls[pos..t.pos])
    decreases |calls|
  {
    if calls != [] {
      var t := Take(polls, pos, calls[0].len, calls[0].start, calls[0].timeout);
      TakeConserves(polls, pos, calls[0].len, calls[0].start, calls[0].timeout);
      if t.returned {
        RunConserves(polls, t.pos, calls[1..]);
        var end := TakeAll(polls, t.pos, calls[1..]).pos;
        assert polls[pos..t.pos] + polls[t.pos..end] == polls[pos..end];
        StreamJoins(polls[pos..t.pos], polls[t.pos..end]);
      }
    }
  }

  // ----------------------------------------------------------------- method

  class Port {
    /** How the device answers, poll by poll: any behaviour over a finite time. */
    const polls: seq<Poll>
    var pos: nat
    var semInitialized: bool

    /** `returned` is false when the polls end while the call is still waiting. */
    method Read(buf: array<Octet>, len: nat, timeout: int, start: nat) returns (count: nat, returned: bool)
      requires pos <= |polls| && len <= buf.Length && len < U32 / 2
      modifies `pos, `semInitialized, buf
      ensures var t := Take(polls, old(pos), len, start, timeout);
              && pos == t.pos && returned == t.returned && count == |t.bytes|
              && count <= buf.Length && buf[..count] == t.bytes
      ensures buf[count..] == old(buf[count..])
      ensures semInitialized == (old(semInitialized) || 0 < len)
    {
      var i := 0;
      ghost var target := Take(polls, pos, len, start, timeout);
      while i < len
        invariant 0 <= i <= len && pos <= |polls|
        invariant Prepend(buf[..i], Take(polls, pos, len - i, start, timeout)) == target
        invariant buf[i..] == old(buf[i..])
        invariant semInitialized == (old(semInitialized) || 0 < i)
      {
        if !semInitialized {
          semInitialized := true;
        }
        var waiting := true;
        while waiting
          invariant pos <= |polls| && semInitialized
          invariant waiting ==> Prepend(buf[..i], Take(polls, pos, len - i, start, timeout)) == target
          invariant waiting ==> buf[i..] == old(buf[i..])
          invariant !waiting ==> Prepend(buf[..i + 1], Take(polls, pos, len - i - 1, start, timeout)) == target
          invariant buf[i + 1..] == old(buf[i + 1..])
          decreases |polls| - pos, waiting
        {
          if pos == |polls| {
            return i, false;
          }
          match polls[pos]
          case Got(b) =>
            buf[i] := b;
            waiting := false;
            pos := pos + 1;
          case Nothing(now) =>
            pos := pos + 1;
            if GivesUp(now, start, timeout) {
              return i, true;
            }
        }
        i := i + 1;
      }
      count, returned := len, true;
    }
  }
}
