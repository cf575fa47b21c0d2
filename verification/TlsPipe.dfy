/** The bounded chunk pipe that feeds one dissector, and the byte budget all
    pipes share. Values first, then the objects that hold them. */
module TlsPipe {
  import opened Basics
  import opened TlsRecords

  const PIPE_SLOTS := 64

  /** ch is the chunk channel, buf what is left of the chunk being read and
      bufCharge that chunk's full charge against the budget. */
  datatype Pipe = Pipe(ch: seq<seq<Byte>>, buf: seq<Byte>, bufCharge: nat, done: bool, lagged: bool)

  const EMPTY_PIPE := Pipe([], [], 0, false, false)

  function Bytes(chunks: seq<seq<Byte>>): seq<Byte> {
    if chunks == [] then [] else chunks[0] + Bytes(chunks[1..])
  }

  /** Bytes accepted and not yet read. */
  function Pending(p: Pipe): seq<Byte> { p.buf + Bytes(p.ch) }

  /** What the pipe owes the budget. */
  function Charge(p: Pipe): nat { p.bufCharge + |Bytes(p.ch)| }

  /** An overflowing pipe is cut off for good: no interior chunk is dropped. */
  function CutOff(p: Pipe): Pipe { p.(lagged := true, done := true) }

  /** A held chunk is charged in full until its last byte is copied out. */
  ghost predicate Valid(p: Pipe) {
    && |p.buf| <= p.bufCharge && (p.buf == [] ==> p.bufCharge == 0)
    && |p.ch| <= PIPE_SLOTS
    && (p.lagged ==> p.done)
  }

  lemma {:induction false} BytesSnoc(chunks: seq<seq<Byte>>, b: seq<Byte>)
    ensures Bytes(chunks + [b]) == Bytes(chunks) + b
  {
    if chunks == [] {
      assert Bytes([b]) == b + Bytes([]);
    } else {
      assert (chunks + [b])[1..] == chunks[1..] + [b];
      BytesSnoc(chunks[1..], b);
    }
  }

  /** A push, with the budget before and after. */
  function Push(p: Pipe, b: seq<Byte>, used: int, limit: int): (Pipe, int) {
    if p.done || p.lagged then (p, used)
    else if used + |b| > limit then (CutOff(p), used)
    else if |p.ch| < PIPE_SLOTS then (p.(ch := p.ch + [b]), used + |b|)
    else (CutOff(p), used)
  }

  datatype ReadResult = Copied(bytes: seq<Byte>) | Eof | WouldBlock

  function CopyOut(p: Pipe, room: nat): (Pipe, seq<Byte>, nat) {
    if room < |p.buf| then (p.(buf := p.buf[room..]), p.buf[..room], 0)
    else (p.(buf := [], bufCharge := 0), p.buf, p.bufCharge)
  }

  /** The next chunk becomes the held one. */
  function WithNext(p: Pipe): Pipe
    requires p.ch != []
  {
    p.(ch := p.ch[1..], buf := p.ch[0], bufCharge := |p.ch[0]|)
  }

  /** A read with nobody else at the pipe: a held chunk first, then the channel,
      and end of stream only once both are dry. The last component is what goes
      back to the budget. */
  function ReadOnce(p: Pipe, room: nat): (Pipe, ReadResult, nat)
    decreases |p.ch|
  {
    if p.buf != [] then
      var (p', out, released) := CopyOut(p, room);
      (p', Copied(out), released)
    else if p.ch != [] then ReadOnce(WithNext(p), room)
    else if p.lagged || p.done then (p, Eof, 0)
    else (p, WouldBlock, 0)
  }

  /** A read hands over exactly the front of what is pending, gives back exactly
      what the pipe stops owing, reports the end exactly when the pipe is closed
      and nothing is left, and waits exactly when it is open and nothing is left. */
  lemma {:induction false} ReadDelivers(p: Pipe, room: nat)
    requires Valid(p)
    ensures var (p', r, released) := ReadOnce(p, room);
            && Valid(p') && Charge(p') == Charge(p) - released
            && p'.done == p.done && p'.lagged == p.lagged
            && (r.Copied? <==> Pending(p) != [])
            && (r.Copied? ==> Pending(p) == r.bytes + Pending(p') && |r.bytes| <= room && (room > 0 ==> r.bytes != []))
            && (p.buf != [] ==> r == Copied(if room < |p.buf| then p.buf[..room] else p.buf))
            && (r.Eof? <==> Pending(p) == [] && p.done)
    decreases |p.ch|
  {
    if p.buf != [] {
      CopyDelivers(p, room);
    } else if p.ch != [] {
      NextChunk(p);
      ReadDelivers(WithNext(p), room);
    }
  }

  lemma CopyDelivers(p: Pipe, room: nat)
    requires Valid(p) && p.buf != []
    ensures var (p', out, released) := CopyOut(p, room);
            && Valid(p') && Charge(p') == Charge(p) - released && p'.done == p.done && p'.lagged == p.lagged
            && Pending(p) == out + Pending(p') && |out| <= room && (room > 0 ==> out != [])
  {
    var (p', out, released) := CopyOut(p, room);
    assert p.buf == out + p'.buf;
    assert out + p'.buf + Bytes(p.ch) == out + (p'.buf + Bytes(p.ch));
  }

  lemma NextChunk(p: Pipe)
    requires Valid(p) && p.buf == [] && p.ch != []
    ensures Valid(WithNext(p)) && Charge(WithNext(p)) == Charge(p) && Pending(WithNext(p)) == Pending(p)
  {
    assert Pending(p) == Bytes(p.ch) == p.ch[0] + Bytes(p.ch[1..]);
  }

  /** A pushed chunk is accepted whole at the end of what is pending exactly when
      the pipe is open, the budget has room and one of the 64 slots is free;
      otherwise the pipe is cut off and keeps what it had. The budget moves by
      what the pipe owes. */
  lemma PushAccounts(p: Pipe, b: seq<Byte>, used: int, limit: int)
    requires Valid(p) && used <= limit
    ensures var (p', used') := Push(p, b, used, limit);
            && Valid(p') && used' - used == Charge(p') - Charge(p) && used' <= limit
            && (if !p.done && used + |b| <= limit && |p.ch| < 64 then
                  Pending(p') == Pending(p) + b && !p'.done && used' == used + |b|
                else
                  Pending(p') == Pending(p) && p'.done && p'.lagged == (p.lagged || !p.done) && used' == used)
  {
    BytesSnoc(p.ch, b);
    assert Pending(p.(ch := p.ch + [b])) == Pending(p) + b;
  }

  // ----- The objects ---------------------------------------------------------

  class TlsByteBudget {
    var used: int
    var drops: nat
    const limit: int

    constructor (bound: int)
      ensures used == 0 && drops == 0 && limit == if bound <= 0 then 64 * 1024 * 1024 else bound
    {
      used, drops := 0, 0;
      limit := if bound <= 0 then 64 * 1024 * 1024 else bound;
    }

    method Reserve(n: nat) returns (ok: bool)
      modifies this
      ensures ok == (old(used) + n <= limit)
      ensures used == if ok then old(used) + n else old(used)
      ensures drops == if ok then old(drops) else old(drops) + 1
    {
      if used + n > limit {
        drops := drops + 1;
        return false;
      }
      used := used + n;
      return true;
    }

    method Release(n: nat)
      modifies this
      ensures used == old(used) - n && drops == old(drops)
    {
      used := used - n;
    }
  }

  class ChanPipe {
    var ch: seq<seq<Byte>>
    var buf: seq<Byte>
    var bufCharge: nat
    var done: bool
    var lagged: bool
    const budget: TlsByteBudget?

    ghost function View(): Pipe
      reads this
    {
      Pipe(ch, buf, bufCharge, done, lagged)
    }

    /** A pipe may come without a budget; then only its slots bound it. */
    constructor (shared: TlsByteBudget?)
      ensures View() == EMPTY_PIPE && budget == shared
    {
      ch, buf, bufCharge, done, lagged := [], [], 0, false, false;
      budget := shared;
    }

    method PushChunk(b: seq<Byte>)
      modifies this, budget
      ensures budget != null ==> (View(), budget.used) == Push(old(View()), b, old(budget.used), budget.limit)
      ensures budget != null ==> budget.drops == old(budget.drops) + if !old(done) && !old(lagged) && old(budget.used) + |b| > budget.limit then 1 else 0
      ensures budget == null ==> View() == Push(old(View()), b, 0, |b|).0
    {
      if done {
        return;
      }
      if lagged {
        return;
      }
      if budget != null {
        var ok := budget.Reserve(|b|);
        if !ok {
          lagged, done := true, true;
          return;
        }
      }
      if |ch| < PIPE_SLOTS {
        ch := ch + [b];
      } else {
        if budget != null {
          budget.Release(|b|);
        }
        lagged, done := true, true;
      }
    }

    method ReadChunk(room: nat) returns (r: ReadResult)
      modifies this, budget
      ensures (View(), r) == (ReadOnce(old(View()), room).0, ReadOnce(old(View()), room).1)
      ensures budget != null ==> old(budget.used) - budget.used == ReadOnce(old(View()), room).2 && budget.drops == old(budget.drops)
    {
      while true
        invariant budget != null ==> budget.used == old(budget.used) && budget.drops == old(budget.drops)
        invariant ReadOnce(View(), room) == ReadOnce(old(View()), room)
        decreases |ch|
      {
        if buf != [] {
          if room < |buf| {
            r := Copied(buf[..room]);
            buf := buf[room..];
          } else {
            r := Copied(buf);
            if budget != null {
              budget.Release(bufCharge);
            }
            buf, bufCharge := [], 0;
          }
          return;
        }
        if ch != [] {
          ch, buf, bufCharge := ch[1..], ch[0], |ch[0]|;
        } else {
          return if lagged || done then Eof else WouldBlock;
        }
      }
    }

    method Close()
      modifies this
      ensures View() == old(View()).(done := true)
    {
      done := true;
    }

    /** Called by the reader's owner once its parser has returned. */
    method Discard()
      modifies this, budget
      ensures View() == Pipe([], [], 0, true, old(lagged))
      ensures budget != null ==> budget.used == old(budget.used) - Charge(old(View())) && budget.drops == old(budget.drops)
    {
      done := true;
      if budget != null && bufCharge > 0 {
        budget.Release(bufCharge);
      }
      buf, bufCharge := [], 0;
      while ch != []
        invariant View() == Pipe(ch, [], 0, true, old(lagged))
        invariant budget != null ==> budget.used == old(budget.used) - Charge(old(View())) + |Bytes(ch)| && budget.drops == old(budget.drops)
        decreases |ch|
      {
        if budget != null {
          budget.Release(|ch[0]|);
        }
        ch := ch[1..];
      }
    }
  }
}
