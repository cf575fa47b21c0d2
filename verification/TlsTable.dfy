/** The stream table, its pipes and their readers as interleaved atomic steps:
    one consumer goroutine, one reader goroutine per pipe, one shared budget. */
module TlsTable {
  import opened Basics
  import opened TlsRecords
  import opened TlsPipe

  // ----- State ---------------------------------------------------------------

  /** Where a pipe's reader stands. Idle is between two reads (or at the top of
      the read loop), Done(full) has just been told the end of the stream, full
      telling whether through the closed branch. Draining holds the pipe's lock. */
  datatype Reader =
    | Idle | Poll | Hand(chunk: seq<Byte>) | CheckLag | Blocked | SawClosed
    | AtEof(full: bool) | Draining | Gone

  /** One pipe with its reader. start, pushed and got are history: where in the
      connection's stream the pipe begins, what it accepted, what its dissector
      has read. */
  datatype Slot = Slot(key: ConnKey, dir: Direction, pipe: Pipe, reader: Reader,
                       start: nat, pushed: seq<Byte>, got: seq<Byte>)

  /** Where the consumer goroutine stands. Reserved holds the lock of pipe i. */
  datatype Consumer = Waiting | Feeding(i: nat, b: seq<Byte>) | Reserved(i: nat, b: seq<Byte>) | Closing(left: seq<nat>)

  datatype Table = Table(slots: seq<Slot>, streams: map<ConnKey, (nat, nat)>, used: int, limit: int,
                         streamLimit: nat, consumer: Consumer, recv: seq<Record>)

  function HandBytes(r: Reader): seq<Byte> { if r.Hand? then r.chunk else [] }

  function SlotCharge(s: Slot): nat { Charge(s.pipe) + |HandBytes(s.reader)| }

  function Total(slots: seq<Slot>): nat {
    if slots == [] then 0 else Total(slots[..|slots| - 1]) + SlotCharge(slots[|slots| - 1])
  }

  function ReservedBytes(c: Consumer): nat { if c.Reserved? then |c.b| else 0 }

  predicate LockedByConsumer(t: Table, i: nat) { t.consumer.Reserved? && t.consumer.i == i }

  // ----- Reader steps --------------------------------------------------------

  /** Steps of the reader that take the pipe's lock. */
  ghost predicate LockedStep(s: Slot, s': Slot, released: nat) {
    || CopyStep(s, s', released)
    || (s.reader.Idle? && s.pipe.buf == [] && s' == s.(reader := Poll) && released == 0)
    || (s.reader.Hand? && released == 0 &&
        s' == s.(reader := Idle, pipe := s.pipe.(buf := s.reader.chunk, bufCharge := |s.reader.chunk|)))
    || ((s.reader.Idle? || s.reader.AtEof?) && released == s.pipe.bufCharge &&
        s' == s.(reader := Draining, pipe := s.pipe.(buf := [], bufCharge := 0, done := true)))
  }

  ghost predicate CopyStep(s: Slot, s': Slot, released: nat) {
    && s.reader.Idle? && s.pipe.buf != []
    && exists room: nat ::
         var (p', out, back) := CopyOut(s.pipe, room);
         released == back && s' == s.(pipe := p', got := s.got + out)
  }

  function Receive(s: Slot): Slot
    requires s.pipe.ch != []
  {
    s.(reader := Hand(s.pipe.ch[0]), pipe := s.pipe.(ch := s.pipe.ch[1..]))
  }

  /** Steps that touch only the channel, the closed signal or the lag flag, and
      the drain loop, which already holds the lock. */
  ghost predicate FreeStep(s: Slot, s': Slot, released: nat) {
    || (s.reader.Poll? && released == 0 && s' == if s.pipe.ch != [] then Receive(s) else s.(reader := CheckLag))
    || (s.reader.CheckLag? && released == 0 && s' == s.(reader := if s.pipe.lagged then AtEof(false) else Blocked))
    || (s.reader.Blocked? && released == 0 && s.pipe.ch != [] && s' == Receive(s))
    || (s.reader.Blocked? && released == 0 && s.pipe.done && s' == s.(reader := SawClosed))
    || (s.reader.SawClosed? && released == 0 && s' == if s.pipe.ch != [] then Receive(s) else s.(reader := AtEof(true)))
    || (s.reader.AtEof? && released == 0 && s' == s.(reader := Idle))
    || (s.reader.Draining? && s.pipe.ch != [] && released == |s.pipe.ch[0]| && s' == s.(pipe := s.pipe.(ch := s.pipe.ch[1..])))
    || (s.reader.Draining? && s.pipe.ch == [] && released == 0 && s' == s.(reader := Gone))
  }

  /** What holds of every pipe by itself. */
  ghost predicate SlotOk(s: Slot) {
    && Valid(s.pipe)
    && (forall j :: 0 <= j < |s.pipe.ch| ==> s.pipe.ch[j] != [])
    && (s.reader.Hand? ==> s.reader.chunk != [])
    && (!s.reader.Idle? ==> s.pipe.buf == [])
    && (s.reader.SawClosed? ==> s.pipe.done)
    && (s.reader == AtEof(true) ==> s.pipe.done && s.pipe.ch == [])
    && (s.reader.Draining? || s.reader.Gone? ==> s.pipe.done)
    && (s.reader.Gone? ==> s.pipe.ch == [])
    && (if s.reader.Draining? || s.reader.Gone? then s.got <= s.pushed
        else s.pushed == s.got + s.pipe.buf + HandBytes(s.reader) + Bytes(s.pipe.ch))
  }

  /** A reader step changes nothing the writer relies on. */
  ghost predicate ReaderFrame(s: Slot, s': Slot) {
    && s'.key == s.key && s'.dir == s.dir && s'.start == s.start && s'.pushed == s.pushed
    && (s.pipe.done ==> s'.pipe.done) && (s'.pipe.lagged == s.pipe.lagged)
  }

  lemma TakeChunk(pushed: seq<Byte>, got: seq<Byte>, ch: seq<seq<Byte>>)
    requires ch != [] && pushed == got + [] + [] + Bytes(ch)
    ensures pushed == got + [] + ch[0] + Bytes(ch[1..]) && |Bytes(ch)| == |ch[0]| + |Bytes(ch[1..])|
  {
    var c, rest := ch[0], Bytes(ch[1..]);
    assert Bytes(ch) == c + rest;
    assert got + [] + [] == got && got + [] == got;
    assert got + (c + rest) == got + c + rest;
  }

  lemma ReceiveOk(s: Slot)
    requires SlotOk(s) && s.pipe.ch != [] && s.pipe.buf == [] && HandBytes(s.reader) == []
    requires !s.reader.Draining? && !s.reader.Gone?
    ensures SlotOk(Receive(s)) && SlotCharge(Receive(s)) == SlotCharge(s)
  {
    var s' := Receive(s);
    TakeChunk(s.pushed, s.got, s.pipe.ch);
    assert s.pipe.ch[0] != [];
    assert forall j :: 0 <= j < |s'.pipe.ch| ==> s'.pipe.ch[j] == s.pipe.ch[j + 1];
  }

  lemma LockedStepOk(s: Slot, s': Slot, released: nat)
    requires SlotOk(s) && LockedStep(s, s', released)
    ensures SlotOk(s') && ReaderFrame(s, s') && SlotCharge(s') == SlotCharge(s) - released
  {
    if s.reader.Idle? && s.pipe.buf != [] && s'.reader.Idle? {
      assert s.pipe.buf + HandBytes(s.reader) == s.pipe.buf;
    } else if s.reader.Hand? {
      assert s'.got + s'.pipe.buf + HandBytes(s'.reader) == s.got + s.pipe.buf + HandBytes(s.reader);
    }
  }

  lemma FreeStepOk(s: Slot, s': Slot, released: nat)
    requires SlotOk(s) && FreeStep(s, s', released)
    ensures SlotOk(s') && ReaderFrame(s, s') && SlotCharge(s') == SlotCharge(s) - released
  {
    if s.pipe.ch != [] && (s.reader.Poll? || s.reader.Blocked? || s.reader.SawClosed?) {
      ReceiveOk(s);
    } else if s.reader.Draining? && s.pipe.ch != [] {
      assert Bytes(s.pipe.ch) == s.pipe.ch[0] + Bytes(s.pipe.ch[1..]);
    }
  }

  // ----- Consumer steps ------------------------------------------------------

  function NewSlot(t: Table, key: ConnKey, dir: Direction): Slot {
    Slot(key, dir, EMPTY_PIPE, Idle, |Stream(t.recv, key, dir)|, [], [])
  }

  /** A stream is created with both of its directions. */
  function Open(t: Table, key: ConnKey): Table {
    t.(slots := t.slots + [NewSlot(t, key, Write), NewSlot(t, key, Read)],
       streams := t.streams[key := (|t.slots|, |t.slots| + 1)])
  }

  function PipeOf(t: Table, key: ConnKey, dir: Direction): nat
    requires key in t.streams
  {
    if dir == Write then t.streams[key].0 else t.streams[key].1
  }

  function Feed(t: Table, rec: Record): Table
    requires rec.key in t.streams
  {
    t.(recv := t.recv + [rec],
       consumer := if rec.data == [] then Waiting else Feeding(PipeOf(t, rec.key, rec.dir), rec.data))
  }

  /** The consumer receives one record; paused is what it then reads of the
      hub's pause switch. */
  function Take(t: Table, rec: Record, paused: bool): Table {
    if rec.lagged then
      if rec.key in t.streams then
        t.(recv := t.recv + [rec], streams := t.streams - {rec.key},
           consumer := Closing([t.streams[rec.key].0, t.streams[rec.key].1]))
      else t.(recv := t.recv + [rec])
    else if paused then t.(recv := t.recv + [rec])
    else if rec.key in t.streams then Feed(t, rec)
    else if |t.streams| >= t.streamLimit then t.(recv := t.recv + [rec])
    else Feed(Open(t, rec.key), rec)
  }

  function WithSlot(t: Table, i: nat, s: Slot): Table
    requires i < |t.slots|
  {
    t.(slots := t.slots[i := s])
  }

  /** First half of a push, up to the budget reservation. */
  function PushReserve(t: Table): Table
    requires t.consumer.Feeding? && t.consumer.i < |t.slots|
  {
    var i, b := t.consumer.i, t.consumer.b;
    var s := t.slots[i];
    if s.pipe.done || s.pipe.lagged then t.(consumer := Waiting)
    else if t.used + |b| > t.limit then WithSlot(t, i, s.(pipe := CutOff(s.pipe))).(consumer := Waiting)
    else t.(used := t.used + |b|, consumer := Reserved(i, b))
  }

  /** Second half: the channel takes the chunk, or the reservation goes back. */
  function PushSend(t: Table): Table
    requires t.consumer.Reserved? && t.consumer.i < |t.slots|
  {
    var i, b := t.consumer.i, t.consumer.b;
    var s := t.slots[i];
    if |s.pipe.ch| < PIPE_SLOTS then
      WithSlot(t, i, s.(pipe := s.pipe.(ch := s.pipe.ch + [b]), pushed := s.pushed + b)).(consumer := Waiting)
    else
      WithSlot(t, i, s.(pipe := CutOff(s.pipe))).(used := t.used - |b|, consumer := Waiting)
  }

  function CloseOne(t: Table): Table
    requires t.consumer.Closing? && t.consumer.left != [] && t.consumer.left[0] < |t.slots|
  {
    var i, left := t.consumer.left[0], t.consumer.left[1..];
    WithSlot(t, i, t.slots[i].(pipe := t.slots[i].pipe.(done := true)))
    .(consumer := if left == [] then Waiting else Closing(left))
  }

  /** Idle streams, or all of them at shutdown, leave the table; their pipes are
      then closed one by one. */
  ghost predicate SweepStep(t: Table, t': Table) {
    && t.consumer.Waiting?
    && exists keys: set<ConnKey>, left: seq<nat> ::
         Sweepable(t, keys, left) && t' == t.(streams := t.streams - keys, consumer := Closing(left))
  }

  ghost predicate Sweepable(t: Table, keys: set<ConnKey>, left: seq<nat>) {
    && left != [] && (forall j :: 0 <= j < |left| ==> left[j] < |t.slots|)
    && (forall k :: k in t.streams && k in keys ==> t.streams[k].0 in left && t.streams[k].1 in left)
  }

  ghost predicate ReaderMove(t: Table, t': Table, i: nat) {
    && i < |t.slots|
    && exists s', released: nat ::
         && ((LockedStep(t.slots[i], s', released) && !LockedByConsumer(t, i)) || FreeStep(t.slots[i], s', released))
         && t' == WithSlot(t, i, s').(used := t.used - released)
  }

  /** Every step but the receipt of a record. A push and a close wait for a pipe
      whose owner is draining it. */
  ghost predicate Internal(t: Table, t': Table) {
    || (t.consumer.Feeding? && t.consumer.i < |t.slots| && !t.slots[t.consumer.i].reader.Draining? && t' == PushReserve(t))
    || (t.consumer.Reserved? && t.consumer.i < |t.slots| && t' == PushSend(t))
    || (t.consumer.Closing? && t.consumer.left != [] && t.consumer.left[0] < |t.slots| &&
        !t.slots[t.consumer.left[0]].reader.Draining? && t' == CloseOne(t))
    || SweepStep(t, t')
    || exists i :: ReaderMove(t, t', i)
  }

  // ----- Undisturbed calls ---------------------------------------------------

  /** The two halves of a push with nobody in between. */
  function PushWhole(t: Table): Table
    requires t.consumer.Feeding? && t.consumer.i < |t.slots|
  {
    if PushReserve(t).consumer.Reserved? then PushSend(PushReserve(t)) else PushReserve(t)
  }

  /** Taken together they are the push of a pipe by itself. */
  lemma PushHalvesMeet(t: Table)
    requires t.consumer.Feeding? && t.consumer.i < |t.slots|
    ensures var i, t' := t.consumer.i, PushWhole(t);
            && t'.consumer.Waiting? && |t'.slots| == |t.slots|
            && (t'.slots[i].pipe, t'.used) == Push(t.slots[i].pipe, t.consumer.b, t.used, t.limit)
            && (forall j :: 0 <= j < |t.slots| && j != i ==> t'.slots[j] == t.slots[j])
  {
  }

  /** A reader's step with nobody else at the pipe, and what it releases. */
  ghost predicate ReaderAlone(s: Slot, s': Slot, released: nat) {
    LockedStep(s, s', released) || FreeStep(s, s', released)
  }

  /** The reader's path to what one turn of a read by itself does: a held chunk is
      copied out, a queued chunk becomes the held one, or the end is reported. */
  lemma ReadTurns(s: Slot, room: nat)
    requires s.reader.Idle? && Valid(s.pipe)
    ensures s.pipe.buf != [] ==>
      var (p', out, released) := CopyOut(s.pipe, room);
      ReaderAlone(s, s.(pipe := p', got := s.got + out), released)
    ensures s.pipe.buf == [] ==> ReaderAlone(s, s.(reader := Poll), 0)
    ensures s.pipe.buf == [] && s.pipe.ch != [] ==>
      var polled, hand := s.(reader := Poll), Receive(s);
      && ReaderAlone(polled, hand, 0)
      && ReaderAlone(hand, s.(pipe := s.pipe.(ch := s.pipe.ch[1..], buf := s.pipe.ch[0], bufCharge := |s.pipe.ch[0]|)), 0)
    ensures s.pipe.buf == [] && s.pipe.ch != [] ==>
      ReaderAlone(s.(reader := Blocked), Receive(s), 0) && ReaderAlone(s.(reader := SawClosed), Receive(s), 0)
    ensures s.pipe.buf == [] && s.pipe.ch == [] && s.pipe.lagged ==>
      && ReaderAlone(s.(reader := Poll), s.(reader := CheckLag), 0)
      && ReaderAlone(s.(reader := CheckLag), s.(reader := AtEof(false)), 0)
    ensures s.pipe.buf == [] && s.pipe.ch == [] && !s.pipe.lagged && s.pipe.done ==>
      && ReaderAlone(s.(reader := CheckLag), s.(reader := Blocked), 0)
      && ReaderAlone(s.(reader := Blocked), s.(reader := SawClosed), 0)
      && ReaderAlone(s.(reader := SawClosed), s.(reader := AtEof(true)), 0)
  {
    if s.pipe.buf != [] {
      var (p', out, released) := CopyOut(s.pipe, room);
      assert CopyStep(s, s.(pipe := p', got := s.got + out), released);
    }
  }

  // ----- Invariant -----------------------------------------------------------

  predicate Attached(t: Table, i: nat)
    requires i < |t.slots|
  {
    t.slots[i].key in t.streams && PipeOf(t, t.slots[i].key, t.slots[i].dir) == i
  }

  function InFlight(t: Table, i: nat): seq<Byte> {
    if (t.consumer.Feeding? || t.consumer.Reserved?) && t.consumer.i == i then t.consumer.b else []
  }

  /** What a pipe accepted is a slice of its direction's stream. */
  ghost predicate Contiguous(t: Table, i: nat)
    requires i < |t.slots|
  {
    var s := t.slots[i];
    var full := Stream(t.recv, s.key, s.dir);
    s.start + |s.pushed| <= |full| && full[s.start..s.start + |s.pushed|] == s.pushed
  }

  /** What a pipe accepted is a slice of its direction's stream, and an attached
      pipe that is still open has accepted everything from its start on. */
  ghost predicate SliceOk(t: Table, i: nat)
    requires i < |t.slots|
  {
    var s := t.slots[i];
    var full := Stream(t.recv, s.key, s.dir);
    && Contiguous(t, i)
    && (Attached(t, i) && !s.pipe.done ==> full[s.start..] == s.pushed + InFlight(t, i))
  }

  /** A pipe nobody feeds any more is closed or about to be. */
  ghost predicate OrphanOk(t: Table, i: nat)
    requires i < |t.slots|
  {
    Attached(t, i) || t.slots[i].pipe.done || (t.consumer.Closing? && i in t.consumer.left)
  }

  ghost predicate SlotsInv(t: Table) {
    forall i :: 0 <= i < |t.slots| ==> SlotOkAt(t, i)
  }

  ghost predicate SlotOkAt(t: Table, i: nat)
    requires i < |t.slots|
  {
    SlotOk(t.slots[i])
  }

  ghost predicate BudgetInv(t: Table) {
    t.used == Total(t.slots) + ReservedBytes(t.consumer) && t.used <= t.limit
  }

  ghost predicate StreamsInv(t: Table) {
    forall k :: k in t.streams ==> StreamOk(t, k)
  }

  ghost predicate StreamOk(t: Table, k: ConnKey)
    requires k in t.streams
  {
    var (w, r) := t.streams[k];
    && w < |t.slots| && t.slots[w].key == k && t.slots[w].dir == Write
    && r < |t.slots| && t.slots[r].key == k && t.slots[r].dir == Read
  }

  ghost predicate ConsumerInv(t: Table) {
    match t.consumer
    case Waiting => true
    case Feeding(i, b) => i < |t.slots| && b != [] && Attached(t, i)
    case Reserved(i, b) => i < |t.slots| && b != [] && Attached(t, i) && !t.slots[i].pipe.done && !t.slots[i].reader.Draining?
    case Closing(left) => left != [] && forall j :: 0 <= j < |left| ==> left[j] < |t.slots|
  }

  ghost predicate FlowInv(t: Table) {
    forall i :: 0 <= i < |t.slots| ==> SliceOk(t, i) && OrphanOk(t, i)
  }

  ghost predicate TombInv(t: Table) {
    forall k :: k in t.streams ==> NotTombstoned(t, k)
  }

  ghost predicate NotTombstoned(t: Table, k: ConnKey) {
    !Tombstoned(t.recv, k)
  }

  ghost predicate Inv(t: Table) {
    SlotsInv(t) && BudgetInv(t) && StreamsInv(t) && ConsumerInv(t) && FlowInv(t) && TombInv(t)
  }

  ghost predicate Init(t: Table) {
    t.slots == [] && t.streams == map[] && t.used == 0 && t.limit >= 0 && t.consumer.Waiting? && t.recv == []
  }

  lemma InitInv(t: Table)
    requires Init(t)
    ensures Inv(t)
  {
  }

  lemma {:induction false} TotalUpdate(slots: seq<Slot>, i: nat, s: Slot)
    requires i < |slots|
    ensures Total(slots[i := s]) == Total(slots) - SlotCharge(slots[i]) + SlotCharge(s)
  {
    var n := |slots| - 1;
    if i == n {
      assert slots[i := s][..n] == slots[..n];
    } else {
      assert slots[i := s][..n] == slots[..n][i := s];
      TotalUpdate(slots[..n], i, s);
    }
  }

  lemma TotalSnoc(slots: seq<Slot>, s: Slot)
    ensures Total(slots + [s]) == Total(slots) + SlotCharge(s)
  {
    assert (slots + [s])[..|slots|] == slots;
  }

  // ----- Steps that change one pipe ------------------------------------------

  /** t' differs from t at most in pipe i, the budget and the consumer's
      position; pipe i keeps its identity and stays closed if it was. */
  ghost predicate OnlySlot(t: Table, t': Table, i: nat) {
    && i < |t.slots| == |t'.slots|
    && t'.streams == t.streams && t'.recv == t.recv && t'.limit == t.limit
    && (forall j :: 0 <= j < |t.slots| && j != i ==> t'.slots[j] == t.slots[j])
    && t'.slots[i].key == t.slots[i].key && t'.slots[i].dir == t.slots[i].dir && t'.slots[i].start == t.slots[i].start
    && (t.slots[i].pipe.done ==> t'.slots[i].pipe.done)
  }

  lemma OnlySlotAttached(t: Table, t': Table, i: nat, j: nat)
    requires OnlySlot(t, t', i) && j < |t.slots|
    ensures Attached(t', j) == Attached(t, j)
  {
  }

  lemma OnlySlotFlow(t: Table, t': Table, i: nat, j: nat)
    requires OnlySlot(t, t', i) && j < |t.slots|
    requires SliceOk(t, j) && OrphanOk(t, j)
    requires if j == i then SliceOk(t', i) else InFlight(t', j) == InFlight(t, j)
    requires t.consumer.Closing? && j in t.consumer.left ==>
               t'.slots[j].pipe.done || (t'.consumer.Closing? && j in t'.consumer.left)
    ensures SliceOk(t', j) && OrphanOk(t', j)
  {
    OnlySlotAttached(t, t', i, j);
  }

  lemma OnlySlotStreams(t: Table, t': Table, i: nat)
    requires OnlySlot(t, t', i) && StreamsInv(t)
    ensures StreamsInv(t')
  {
    forall k | k in t'.streams ensures StreamOk(t', k) {
      assert StreamOk(t, k);
      var w, r := t.streams[k].0, t.streams[k].1;
      assert t'.slots[w].key == t.slots[w].key && t'.slots[w].dir == t.slots[w].dir;
      assert t'.slots[r].key == t.slots[r].key && t'.slots[r].dir == t.slots[r].dir;
    }
  }

  lemma OnlySlotBudget(t: Table, t': Table, i: nat)
    requires OnlySlot(t, t', i) && BudgetInv(t) && t'.used <= t'.limit
    requires t'.used - t.used == SlotCharge(t'.slots[i]) - SlotCharge(t.slots[i])
                                 + ReservedBytes(t'.consumer) - ReservedBytes(t.consumer)
    ensures BudgetInv(t')
  {
    assert t'.slots == t.slots[i := t'.slots[i]];
    TotalUpdate(t.slots, i, t'.slots[i]);
  }

  lemma OnlySlotInv(t: Table, t': Table, i: nat)
    requires Inv(t) && OnlySlot(t, t', i)
    requires SlotOk(t'.slots[i]) && SliceOk(t', i) && ConsumerInv(t') && BudgetInv(t')
    requires forall j :: 0 <= j < |t.slots| && j != i ==> InFlight(t', j) == InFlight(t, j)
    requires forall j :: 0 <= j < |t.slots| && t.consumer.Closing? && j in t.consumer.left ==>
               t'.slots[j].pipe.done || (t'.consumer.Closing? && j in t'.consumer.left)
    ensures Inv(t')
  {
    OnlySlotStreams(t, t', i);
    forall j | 0 <= j < |t'.slots| ensures SliceOk(t', j) && OrphanOk(t', j) {
      assert SliceOk(t, j) && OrphanOk(t, j);
      OnlySlotFlow(t, t', i, j);
    }
    forall j | 0 <= j < |t'.slots| ensures SlotOkAt(t', j) {
      assert SlotOkAt(t, j);
    }
    forall k | k in t'.streams ensures NotTombstoned(t', k) { assert NotTombstoned(t, k); }
  }

  /** The reader's own steps leave the consumer's position meaningful: it cannot
      start draining, or have a pipe closed, behind a reservation. */
  lemma ReaderConsumer(t: Table, t': Table, i: nat, released: nat)
    requires ConsumerInv(t) && OnlySlot(t, t', i) && t'.consumer == t.consumer
    requires (LockedStep(t.slots[i], t'.slots[i], released) && !LockedByConsumer(t, i))
             || FreeStep(t.slots[i], t'.slots[i], released)
    ensures ConsumerInv(t')
  {
    if t.consumer.Feeding? || t.consumer.Reserved? {
      OnlySlotAttached(t, t', i, t.consumer.i);
    }
  }

  lemma ReaderMoveInv(t: Table, t': Table, i: nat)
    requires Inv(t) && ReaderMove(t, t', i)
    ensures Inv(t')
  {
    var s := t.slots[i];
    var s', released: nat :|
      && ((LockedStep(s, s', released) && !LockedByConsumer(t, i)) || FreeStep(s, s', released))
      && t' == WithSlot(t, i, s').(used := t.used - released);
    ReaderStepInv(t, t', i, s', released);
  }

  lemma ReaderStepOk(s: Slot, s': Slot, released: nat)
    requires SlotOk(s) && (LockedStep(s, s', released) || FreeStep(s, s', released))
    ensures SlotOk(s') && ReaderFrame(s, s') && SlotCharge(s') == SlotCharge(s) - released
  {
    if LockedStep(s, s', released) { LockedStepOk(s, s', released); } else { FreeStepOk(s, s', released); }
  }

  lemma ReaderOnlySlot(t: Table, t': Table, i: nat, s': Slot, released: nat)
    requires i < |t.slots| && ReaderFrame(t.slots[i], s') && t' == WithSlot(t, i, s').(used := t.used - released)
    ensures OnlySlot(t, t', i) && t'.consumer == t.consumer && t'.slots[i] == s'
  {
  }

  lemma ReaderStepInv(t: Table, t': Table, i: nat, s': Slot, released: nat)
    requires Inv(t) && i < |t.slots| && t' == WithSlot(t, i, s').(used := t.used - released)
    requires (LockedStep(t.slots[i], s', released) && !LockedByConsumer(t, i)) || FreeStep(t.slots[i], s', released)
    ensures Inv(t')
  {
    assert SlotOkAt(t, i);
    ReaderStepOk(t.slots[i], s', released);
    ReaderOnlySlot(t, t', i, s', released);
    ReaderConsumer(t, t', i, released);
    ReaderSliceInv(t, t', i, released);
  }

  lemma ReaderSliceInv(t: Table, t': Table, i: nat, released: nat)
    requires Inv(t) && OnlySlot(t, t', i) && t'.consumer == t.consumer && t'.used == t.used - released
    requires ReaderFrame(t.slots[i], t'.slots[i]) && SlotOk(t'.slots[i]) && ConsumerInv(t')
    requires SlotCharge(t'.slots[i]) == SlotCharge(t.slots[i]) - released
    ensures Inv(t')
  {
    OnlySlotBudget(t, t', i);
    assert SliceOk(t, i);
    ReaderSlice(t, t', i);
    OnlySlotInv(t, t', i);
  }

  lemma ReaderSlice(t: Table, t': Table, i: nat)
    requires OnlySlot(t, t', i) && t'.consumer == t.consumer && ReaderFrame(t.slots[i], t'.slots[i]) && SliceOk(t, i)
    ensures SliceOk(t', i)
  {
    OnlySlotAttached(t, t', i, i);
  }

  /** Cutting a pipe off is always possible. */
  lemma CutOffOk(s: Slot)
    requires SlotOk(s)
    ensures var s' := s.(pipe := CutOff(s.pipe)); SlotOk(s') && SlotCharge(s') == SlotCharge(s)
  {
  }

  /** The consumer moves on from pipe i without having fed it: fine if the pipe
      is closed. */
  lemma GiveUpInv(t: Table, t': Table, i: nat)
    requires Inv(t) && OnlySlot(t, t', i) && InFlight(t, i) != [] && t'.consumer.Waiting? && !t.consumer.Closing?
    requires SlotOk(t'.slots[i]) && t'.slots[i].pushed == t.slots[i].pushed && t'.slots[i].pipe.done
    requires BudgetInv(t')
    ensures Inv(t')
  {
    assert SliceOk(t, i);
    OnlySlotInv(t, t', i);
  }

  lemma PushReserveInv(t: Table)
    requires Inv(t) && t.consumer.Feeding? && !t.slots[t.consumer.i].reader.Draining?
    ensures Inv(PushReserve(t))
  {
    PushReserveBudget(t, PushReserve(t), t.consumer.i);
    if PushReserve(t).consumer.Waiting? {
      RefusedInv(t);
    } else {
      ReservedInv(t);
    }
  }

  lemma RefusedInv(t: Table)
    requires Inv(t) && t.consumer.Feeding? && PushReserve(t).consumer.Waiting? && BudgetInv(PushReserve(t))
    ensures Inv(PushReserve(t))
  {
    var i := t.consumer.i;
    assert SlotOkAt(t, i);
    CutOffOk(t.slots[i]);
    GiveUpInv(t, PushReserve(t), i);
  }

  lemma ReservedInv(t: Table)
    requires Inv(t) && t.consumer.Feeding? && PushReserve(t).consumer.Reserved? && BudgetInv(PushReserve(t))
    requires !t.slots[t.consumer.i].reader.Draining?
    ensures Inv(PushReserve(t))
  {
    var i, t' := t.consumer.i, PushReserve(t);
    assert SlotOkAt(t, i) && SliceOk(t, i);
    OnlySlotAttached(t, t', i, i);
    OnlySlotInv(t, t', i);
  }

  lemma PushReserveBudget(t: Table, t': Table, i: nat)
    requires BudgetInv(t) && t.consumer.Feeding? && i == t.consumer.i < |t.slots| && t' == PushReserve(t)
    ensures BudgetInv(t')
  {
    OnlySlotBudget(t, t', i);
  }

  lemma PushedSlot(s: Slot, b: seq<Byte>)
    requires SlotOk(s) && !s.reader.Draining? && !s.pipe.done && b != [] && |s.pipe.ch| < PIPE_SLOTS
    ensures var s' := s.(pipe := s.pipe.(ch := s.pipe.ch + [b]), pushed := s.pushed + b);
            SlotOk(s') && SlotCharge(s') == SlotCharge(s) + |b|
  {
    BytesSnoc(s.pipe.ch, b);
    assert s.got + s.pipe.buf + HandBytes(s.reader) + (Bytes(s.pipe.ch) + b)
        == (s.got + s.pipe.buf + HandBytes(s.reader) + Bytes(s.pipe.ch)) + b;
  }

  lemma PushSendInv(t: Table)
    requires Inv(t) && t.consumer.Reserved?
    ensures Inv(PushSend(t))
  {
    var i, b, t' := t.consumer.i, t.consumer.b, PushSend(t);
    var s := t.slots[i];
    assert SlotOkAt(t, i) && SliceOk(t, i);
    if |s.pipe.ch| < PIPE_SLOTS {
      PushedSlot(s, b);
      OnlySlotBudget(t, t', i);
      PushedSlice(t, t', i);
      OnlySlotInv(t, t', i);
    } else {
      CutOffOk(s);
      OnlySlotBudget(t, t', i);
      GiveUpInv(t, t', i);
    }
  }

  lemma PushedSlice(t: Table, t': Table, i: nat)
    requires OnlySlot(t, t', i) && SliceOk(t, i) && Attached(t, i) && !t.slots[i].pipe.done
    requires t'.slots[i].pushed == t.slots[i].pushed + InFlight(t, i) && InFlight(t', i) == []
    ensures SliceOk(t', i)
  {
    var s, s' := t.slots[i], t'.slots[i];
    var full := Stream(t.recv, s.key, s.dir);
    assert |full[s.start..]| == |s'.pushed|;
    assert full[s.start..s.start + |s'.pushed|] == full[s.start..];
    assert s'.pushed + [] == s'.pushed;
  }

  lemma CloseOneInv(t: Table)
    requires Inv(t) && t.consumer.Closing? && t.consumer.left[0] < |t.slots|
    requires !t.slots[t.consumer.left[0]].reader.Draining?
    ensures Inv(CloseOne(t))
  {
    var i, rest, t' := t.consumer.left[0], t.consumer.left[1..], CloseOne(t);
    assert SlotOkAt(t, i) && SliceOk(t, i);
    assert t.consumer.left == [i] + rest;
    OnlySlotAttached(t, t', i, i);
    OnlySlotBudget(t, t', i);
    OnlySlotInv(t, t', i);
  }

  // ----- Steps that change the table -----------------------------------------

  /** The pipes stay as they are; only the table and the received records change. */
  lemma SameSlotsInv(t: Table, t': Table)
    requires Inv(t) && t'.slots == t.slots && t'.used == t.used && t'.limit == t.limit
    requires !t.consumer.Reserved? && !t'.consumer.Reserved?
    requires ConsumerInv(t') && TombInv(t')
    requires forall k :: k in t'.streams ==> k in t.streams && t'.streams[k] == t.streams[k]
    requires FlowInv(t')
    ensures Inv(t')
  {
    forall k | k in t'.streams ensures StreamOk(t', k) { assert StreamOk(t, k); }
    forall i | 0 <= i < |t'.slots| ensures SlotOkAt(t', i) { assert SlotOkAt(t, i); }
  }

  lemma SweepFlow(t: Table, keys: set<ConnKey>, left: seq<nat>, i: nat)
    requires t.consumer.Waiting? && Sweepable(t, keys, left) && i < |t.slots|
    requires SliceOk(t, i) && OrphanOk(t, i)
    ensures var t' := t.(streams := t.streams - keys, consumer := Closing(left));
            SliceOk(t', i) && OrphanOk(t', i)
  {
    var t' := t.(streams := t.streams - keys, consumer := Closing(left));
    assert Attached(t', i) ==> Attached(t, i);
  }

  lemma SweepInv(t: Table, t': Table)
    requires Inv(t) && SweepStep(t, t')
    ensures Inv(t')
  {
    var keys: set<ConnKey>, left: seq<nat> :|
      Sweepable(t, keys, left) && t' == t.(streams := t.streams - keys, consumer := Closing(left));
    forall i | 0 <= i < |t'.slots| ensures SliceOk(t', i) && OrphanOk(t', i) {
      assert SliceOk(t, i) && OrphanOk(t, i);
      SweepFlow(t, keys, left, i);
    }
    forall k | k in t'.streams ensures NotTombstoned(t', k) { assert NotTombstoned(t, k); }
    SameSlotsInv(t, t');
  }

  lemma StreamGrows(recs: seq<Record>, rec: Record, key: ConnKey, dir: Direction, start: nat, pushed: seq<Byte>)
    requires start + |pushed| <= |Stream(recs, key, dir)| && Stream(recs, key, dir)[start..start + |pushed|] == pushed
    ensures var full := Stream(recs + [rec], key, dir);
            start + |pushed| <= |full| && full[start..start + |pushed|] == pushed
  {
    StreamSnoc(recs, rec, key, dir);
  }

  lemma TombstonedSnoc(recs: seq<Record>, rec: Record, key: ConnKey)
    ensures Tombstoned(recs + [rec], key) <==> Tombstoned(recs, key) || (rec.lagged && rec.key == key)
  {
    if Tombstoned(recs, key) {
      var r :| r in recs && r.key == key && r.lagged;
      assert r in recs + [rec];
    }
    assert rec in recs + [rec];
  }

  /** The record carries bytes that pipe s would have to accept next. */
  predicate Owed(s: Slot, rec: Record) { s.key == rec.key && s.dir == rec.dir && !rec.lagged && rec.data != [] }

  lemma SkipFlow(t: Table, rec: Record, i: nat)
    requires t.consumer.Waiting? && i < |t.slots| && SliceOk(t, i) && OrphanOk(t, i)
    requires Attached(t, i) && Owed(t.slots[i], rec) ==> t.slots[i].pipe.done
    ensures var t' := t.(recv := t.recv + [rec]); SliceOk(t', i) && OrphanOk(t', i)
  {
    var s, t' := t.slots[i], t.(recv := t.recv + [rec]);
    StreamSnoc(t.recv, rec, s.key, s.dir);
    StreamGrows(t.recv, rec, s.key, s.dir, s.start, s.pushed);
    assert Attached(t', i) == Attached(t, i);
    assert Stream(t.recv, s.key, s.dir) + [] == Stream(t.recv, s.key, s.dir);
  }

  /** Skipping the record makes an open pipe miss bytes. */
  predicate Starves(t: Table, rec: Record) {
    && !rec.lagged && rec.data != [] && rec.key in t.streams
    && PipeOf(t, rec.key, rec.dir) < |t.slots| && !t.slots[PipeOf(t, rec.key, rec.dir)].pipe.done
  }

  /** A record that no open pipe is waiting for changes nothing but recv. */
  lemma SkipInv(t: Table, rec: Record)
    requires Inv(t) && t.consumer.Waiting? && !Starves(t, rec)
    requires rec.lagged ==> rec.key !in t.streams
    ensures Inv(t.(recv := t.recv + [rec]))
  {
    var t' := t.(recv := t.recv + [rec]);
    forall i | 0 <= i < |t.slots| ensures SliceOk(t', i) && OrphanOk(t', i) {
      assert SliceOk(t, i) && OrphanOk(t, i);
      SkipFlow(t, rec, i);
    }
    forall k | k in t.streams ensures NotTombstoned(t', k) {
      assert NotTombstoned(t, k);
      TombstonedSnoc(t.recv, rec, k);
    }
    SameSlotsInv(t, t');
  }

  lemma TombstoneFlow(t: Table, rec: Record, left: seq<nat>, i: nat)
    requires t.consumer.Waiting? && rec.lagged && rec.key in t.streams
    requires left == [t.streams[rec.key].0, t.streams[rec.key].1] && Sweepable(t, {rec.key}, left) && i < |t.slots|
    requires SliceOk(t, i) && OrphanOk(t, i)
    ensures SliceOk(Take(t, rec, false), i) && OrphanOk(Take(t, rec, false), i)
  {
    var s, t' := t.slots[i], Take(t, rec, false);
    var t1 := t.(streams := t.streams - {rec.key}, consumer := Closing(left));
    SweepFlow(t, {rec.key}, left, i);
    StreamSnoc(t.recv, rec, s.key, s.dir);
    assert Attached(t', i) == Attached(t1, i);
  }

  lemma TombstoneInv(t: Table, rec: Record)
    requires Inv(t) && t.consumer.Waiting? && rec.lagged && rec.key in t.streams
    ensures Inv(Take(t, rec, false))
  {
    var left := [t.streams[rec.key].0, t.streams[rec.key].1];
    var t' := Take(t, rec, false);
    assert StreamOk(t, rec.key);
    assert Sweepable(t, {rec.key}, left);
    forall i | 0 <= i < |t.slots| ensures SliceOk(t', i) && OrphanOk(t', i) {
      assert SliceOk(t, i) && OrphanOk(t, i);
      TombstoneFlow(t, rec, left, i);
    }
    forall k | k in t'.streams ensures NotTombstoned(t', k) {
      assert NotTombstoned(t, k);
      TombstonedSnoc(t.recv, rec, k);
    }
    SameSlotsInv(t, t');
  }

  lemma OpenInv(t: Table, key: ConnKey)
    requires Inv(t) && t.consumer.Waiting? && key !in t.streams && !Tombstoned(t.recv, key)
    ensures Inv(Open(t, key))
  {
    var t' := Open(t, key);
    OpenSlots(t, key);
    OpenStreams(t, key);
    forall i | 0 <= i < |t'.slots| ensures SliceOk(t', i) && OrphanOk(t', i) {
      assert i < |t.slots| ==> SliceOk(t, i) && OrphanOk(t, i);
      OpenFlow(t, key, i);
    }
    forall k | k in t'.streams ensures NotTombstoned(t', k) {
      if k != key { assert NotTombstoned(t, k); }
    }
  }

  lemma NewSlotOk(t: Table, key: ConnKey, dir: Direction)
    ensures SlotOk(NewSlot(t, key, dir)) && SlotCharge(NewSlot(t, key, dir)) == 0
  {
  }

  lemma OpenSlots(t: Table, key: ConnKey)
    requires SlotsInv(t)
    ensures SlotsInv(Open(t, key)) && Total(Open(t, key).slots) == Total(t.slots)
  {
    var t' := Open(t, key);
    var a, b := NewSlot(t, key, Write), NewSlot(t, key, Read);
    assert t'.slots == t.slots + [a] + [b];
    NewSlotOk(t, key, Write);
    NewSlotOk(t, key, Read);
    TotalSnoc(t.slots, a);
    TotalSnoc(t.slots + [a], b);
    forall i | 0 <= i < |t'.slots| ensures SlotOkAt(t', i) {
      if i < |t.slots| {
        assert t'.slots[i] == t.slots[i] && SlotOkAt(t, i);
      } else {
        NewSlotOk(t, key, if i == |t.slots| then Write else Read);
      }
    }
  }

  lemma OpenStreams(t: Table, key: ConnKey)
    requires StreamsInv(t) && key !in t.streams
    ensures StreamsInv(Open(t, key))
  {
    var t' := Open(t, key);
    forall k | k in t'.streams ensures StreamOk(t', k) {
      if k != key { assert StreamOk(t, k); }
    }
  }

  lemma OpenFlow(t: Table, key: ConnKey, i: nat)
    requires t.consumer.Waiting? && key !in t.streams && StreamsInv(t)
    requires if i < |t.slots| then SliceOk(t, i) && OrphanOk(t, i) else i < |t.slots| + 2
    ensures SliceOk(Open(t, key), i) && OrphanOk(Open(t, key), i)
  {
    var t' := Open(t, key);
    if i < |t.slots| {
      assert t'.slots[i] == t.slots[i];
      if t.slots[i].key in t.streams { assert StreamOk(t, t.slots[i].key); }
      assert Attached(t', i) == Attached(t, i);
    } else {
      assert t'.slots[i] == NewSlot(t, key, t'.slots[i].dir);
      assert Attached(t', i);
    }
  }

  lemma Fed(full: seq<Byte>, start: nat, pushed: seq<Byte>, data: seq<Byte>)
    requires start <= |full| && full[start..] == pushed + []
    ensures (full + data)[start..] == pushed + data
  {
    assert (full + data)[start..] == full[start..] + data;
  }

  lemma FeedFlow(t: Table, rec: Record, i: nat)
    requires t.consumer.Waiting? && rec.key in t.streams && !rec.lagged && i < |t.slots| && StreamsInv(t)
    requires SliceOk(t, i) && OrphanOk(t, i)
    ensures SliceOk(Feed(t, rec), i) && OrphanOk(Feed(t, rec), i)
  {
    var s, t' := t.slots[i], Feed(t, rec);
    StreamSnoc(t.recv, rec, s.key, s.dir);
    StreamGrows(t.recv, rec, s.key, s.dir, s.start, s.pushed);
    assert Attached(t', i) == Attached(t, i);
    assert StreamOk(t, rec.key);
    if Attached(t, i) && !s.pipe.done {
      assert InFlight(t', i) == if s.key == rec.key && s.dir == rec.dir then rec.data else [];
      Fed(Stream(t.recv, s.key, s.dir), s.start, s.pushed, rec.data);
    }
  }

  lemma FeedInv(t: Table, rec: Record)
    requires Inv(t) && t.consumer.Waiting? && rec.key in t.streams && !rec.lagged
    ensures Inv(Feed(t, rec))
  {
    var t' := Feed(t, rec);
    forall i | 0 <= i < |t.slots| ensures SliceOk(t', i) && OrphanOk(t', i) {
      assert SliceOk(t, i) && OrphanOk(t, i);
      FeedFlow(t, rec, i);
    }
    forall k | k in t.streams ensures NotTombstoned(t', k) {
      assert NotTombstoned(t, k);
      TombstonedSnoc(t.recv, rec, k);
    }
    assert StreamOk(t, rec.key);
    assert Attached(t', PipeOf(t, rec.key, rec.dir));
    SameSlotsInv(t, t');
  }

  /** The pause switch, if on, does not make an open pipe miss bytes. */
  predicate Harmless(t: Table, rec: Record, paused: bool) { !(paused && Starves(t, rec)) }

  lemma TakeInv(t: Table, rec: Record, paused: bool)
    requires Inv(t) && t.consumer.Waiting? && Harmless(t, rec, paused)
    requires !rec.lagged ==> !Tombstoned(t.recv, rec.key)
    ensures Inv(Take(t, rec, paused))
  {
    if rec.lagged && rec.key in t.streams {
      TombstoneInv(t, rec);
    } else if rec.lagged || paused {
      SkipInv(t, rec);
    } else if rec.key in t.streams {
      FeedInv(t, rec);
    } else if |t.streams| >= t.streamLimit {
      SkipInv(t, rec);
    } else {
      OpenInv(t, rec.key);
      FeedInv(Open(t, rec.key), rec);
    }
  }

  // ----- What a received record does -----------------------------------------

  /** A record of an unknown connection opens its stream exactly while there is
      room in the table: two empty pipes that begin where each direction's stream
      now stands, and the data on its way to the one of its direction. */
  lemma NewConnectionOpens(t: Table, rec: Record)
    requires t.consumer.Waiting? && !rec.lagged && rec.key !in t.streams
    ensures var t' := Take(t, rec, false);
            if |t.streams| < t.streamLimit then
              var n := |t.slots|;
              var mine := if rec.dir == Write then n else n + 1;
              && |t'.slots| == n + 2 && t'.slots[..n] == t.slots
              && (forall i :: n <= i < n + 2 ==>
                    && t'.slots[i].key == rec.key && t'.slots[i].dir == (if i == n then Write else Read)
                    && t'.slots[i].pipe == Pipe([], [], 0, false, false) && t'.slots[i].reader.Idle?
                    && t'.slots[i].start == |Stream(t.recv, rec.key, t'.slots[i].dir)|
                    && t'.slots[i].pushed == [] && t'.slots[i].got == [])
              && t'.streams == t.streams[rec.key := (n, n + 1)]
              && t'.consumer == (if rec.data == [] then Waiting else Feeding(mine, rec.data))
              && t' == t.(slots := t'.slots, streams := t'.streams, consumer := t'.consumer, recv := t.recv + [rec])
            else t' == t.(recv := t.recv + [rec])
  {
    var t', n := Take(t, rec, false), |t.slots|;
    if |t.streams| < t.streamLimit { assert t'.slots[..n] == t.slots; }
  }

  /** A record of a connection with a stream goes to the pipe of its direction; a
      paused worker drops data records whole; a tombstone ends the stream, paused
      or not, and leaves both of its pipes to be closed. */
  lemma KnownConnectionFed(t: Table, rec: Record, paused: bool)
    requires Inv(t) && t.consumer.Waiting?
    ensures var t' := Take(t, rec, paused);
            && t'.recv == t.recv + [rec] && t'.slots[..|t.slots|] == t.slots && t'.used == t.used
            && (!rec.lagged && paused ==> t' == t.(recv := t.recv + [rec]))
            && (!rec.lagged && !paused && rec.key in t.streams ==>
                  && t'.slots == t.slots && t'.streams == t.streams
                  && (rec.data == [] ==> t'.consumer.Waiting?)
                  && (rec.data != [] ==>
                        && t'.consumer.Feeding? && t'.consumer.b == rec.data && t'.consumer.i < |t.slots|
                        && t.slots[t'.consumer.i].key == rec.key && t.slots[t'.consumer.i].dir == rec.dir
                        && Attached(t, t'.consumer.i)))
            && (rec.lagged ==>
                  && t'.slots == t.slots
                  && (forall k :: k in t'.streams <==> k in t.streams && k != rec.key)
                  && (forall k :: k in t'.streams ==> t'.streams[k] == t.streams[k])
                  && (rec.key !in t.streams ==> t'.consumer.Waiting?)
                  && (rec.key in t.streams ==>
                        t'.consumer.Closing? && multiset(t'.consumer.left) == multiset{t.streams[rec.key].0, t.streams[rec.key].1}))
  {
    if rec.key in t.streams {
      assert StreamOk(t, rec.key);
    } else if !rec.lagged && !paused {
      NewConnectionOpens(t, rec);
    }
    assert t.slots[..|t.slots|] == t.slots;
  }

  /** What the undisturbed push of b does to a pipe: taken as a whole while the
      pipe is open, the bytes fit the budget and a slot is free; a pipe that is
      open but cannot take them is cut off for good. */
  ghost predicate Fed1(s: Slot, s': Slot, b: seq<Byte>, fits: bool) {
    && s' == s.(pipe := s'.pipe, pushed := s'.pushed)
    && (if s.pipe.done || s.pipe.lagged then s' == s
        else if fits && |s.pipe.ch| < 64 then
          s'.pushed == s.pushed + b && s'.pipe == s.pipe.(ch := s.pipe.ch + [b])
        else s'.pushed == s.pushed && s'.pipe == s.pipe.(done := true, lagged := true))
  }

  /** The consumer left alone with a data record: the pipe of its direction takes
      the bytes or is cut off, every other pipe stays as it was. */
  lemma RecordArrives(t: Table, rec: Record)
    requires Inv(t) && t.consumer.Waiting? && !rec.lagged && rec.data != []
    requires rec.key in t.streams || |t.streams| < t.streamLimit
    ensures var t1 := Take(t, rec, false);
            && t1.consumer.Feeding? && t1.consumer.i < |t1.slots|
            && var t', i := PushWhole(t1), t1.consumer.i;
            && t'.consumer.Waiting? && |t'.slots| == |t1.slots| && rec.key in t'.streams
            && t'.slots[i].key == rec.key && t'.slots[i].dir == rec.dir
            && Fed1(t1.slots[i], t'.slots[i], rec.data, t.used + |rec.data| <= t.limit)
            && (forall j :: 0 <= j < |t1.slots| && j != i ==> t'.slots[j] == t1.slots[j])
            && t'.used == t.used + (if t'.slots[i].pushed == t1.slots[i].pushed then 0 else |rec.data|)
  {
    KnownConnectionFed(t, rec, false);
    if rec.key !in t.streams { NewConnectionOpens(t, rec); }
    var t1 := Take(t, rec, false);
    assert t1.used == t.used && t1.limit == t.limit;
    PushArrives(t1);
  }

  lemma PushArrives(t: Table)
    requires t.consumer.Feeding? && t.consumer.i < |t.slots| && t.consumer.b != []
    ensures var t', i, b := PushWhole(t), t.consumer.i, t.consumer.b;
            && t'.consumer.Waiting? && |t'.slots| == |t.slots| && t'.streams == t.streams
            && Fed1(t.slots[i], t'.slots[i], b, t.used + |b| <= t.limit)
            && (forall j :: 0 <= j < |t.slots| && j != i ==> t'.slots[j] == t.slots[j])
            && t'.used == t.used + (if t'.slots[i].pushed == t.slots[i].pushed then 0 else |b|)
  {
    var i, b := t.consumer.i, t.consumer.b;
    assert |t.slots[i].pushed + b| > |t.slots[i].pushed|;
  }

  // ----- What a skipped record does ------------------------------------------

  lemma StarvedBreaks(t: Table, rec: Record)
    requires Inv(t) && t.consumer.Waiting? && Starves(t, rec)
    ensures !SliceOk(Take(t, rec, true), PipeOf(t, rec.key, rec.dir))
  {
    var i, t' := PipeOf(t, rec.key, rec.dir), Take(t, rec, true);
    StarvedPipe(t, rec);
    var s := t.slots[i];
    StreamSnoc(t.recv, rec, s.key, s.dir);
    assert Attached(t', i);
    assert |Stream(t'.recv, s.key, s.dir)[s.start..]| > |s.pushed|;
    assert InFlight(t', i) == [];
  }

  /** A starved pipe had accepted everything so far and could accept more. */
  lemma StarvedPipe(t: Table, rec: Record)
    requires Inv(t) && t.consumer.Waiting? && Starves(t, rec)
    ensures var i := PipeOf(t, rec.key, rec.dir);
            var s := t.slots[i];
            && Attached(t, i) && s.key == rec.key && s.dir == rec.dir && !s.pipe.lagged && !s.reader.Draining?
            && s.start <= |Stream(t.recv, s.key, s.dir)| && Stream(t.recv, s.key, s.dir)[s.start..] == s.pushed
  {
    var i := PipeOf(t, rec.key, rec.dir);
    assert StreamOk(t, rec.key) && SlotOkAt(t, i) && SliceOk(t, i);
    assert t.slots[i].pushed + [] == t.slots[i].pushed;
  }

  /** Receiving a record keeps the invariant exactly when pause makes no open pipe
      miss bytes. */
  lemma TakeInvIff(t: Table, rec: Record, paused: bool)
    requires Inv(t) && t.consumer.Waiting?
    requires !rec.lagged ==> !Tombstoned(t.recv, rec.key)
    ensures Inv(Take(t, rec, paused)) <==> Harmless(t, rec, paused)
  {
    if Harmless(t, rec, paused) { TakeInv(t, rec, paused); } else { StarvedBreaks(t, rec); }
  }

  function Following(rec: Record, data: seq<Byte>): Record { Record(rec.key, rec.dir, data, false) }

  /** The record is skipped, and the next one of its direction is accepted. */
  ghost function SkippedThenFed(t: Table, rec: Record, data: seq<Byte>): (t': Table)
    requires Inv(t) && t.consumer.Waiting? && Starves(t, rec) && data != []
    ensures t' == t.(recv := t.recv + [rec] + [Following(rec, data)], consumer := Feeding(PipeOf(t, rec.key, rec.dir), data))
  {
    Take(Take(t, rec, true), Following(rec, data), false)
  }

  lemma FedIsAccepted(t: Table, rec: Record, data: seq<Byte>)
    requires Inv(t) && t.consumer.Waiting? && Starves(t, rec) && data != [] && t.used + |data| <= t.limit
    requires |t.slots[PipeOf(t, rec.key, rec.dir)].pipe.ch| < PIPE_SLOTS
    ensures var i, t2 := PipeOf(t, rec.key, rec.dir), SkippedThenFed(t, rec, data);
            var t3 := PushReserve(t2);
            && t3.consumer == Reserved(i, data) && Internal(t2, t3) && Internal(t3, PushSend(t3))
            && PushSend(t3).recv == t2.recv
            && PushSend(t3).slots[i] == t.slots[i].(pipe := t.slots[i].pipe.(ch := t.slots[i].pipe.ch + [data]),
                                                    pushed := t.slots[i].pushed + data)
  {
    StarvedPipe(t, rec);
  }

  lemma HoleInStream(full: seq<Byte>, start: nat, pushed: seq<Byte>, lost: seq<Byte>, data: seq<Byte>)
    requires start <= |full| && full[start..] == pushed
    ensures var all, part := full + lost + data, pushed + data;
            start + |part| <= |all| && (all[start..start + |part|] == part <==> data <= lost + data)
  {
    var all, part, n := full + lost + data, pushed + data, |full|;
    assert all[start..] == pushed + (lost + data);
    assert all[start..start + |part|] == pushed + (lost + data)[..|data|];
    assert (pushed + (lost + data)[..|data|])[|pushed|..] == (lost + data)[..|data|];
    assert part[|pushed|..] == data;
  }

  lemma ContiguousIff(t: Table, i: nat, recv: seq<Record>, pushed: seq<Byte>, rec: Record, data: seq<Byte>)
    requires i < |t.slots| && t.slots[i].key == rec.key && t.slots[i].dir == rec.dir && !rec.lagged
    requires t.recv == recv + [rec] + [Following(rec, data)] && t.slots[i].pushed == pushed + data
    requires var full := Stream(recv, rec.key, rec.dir); t.slots[i].start <= |full| && full[t.slots[i].start..] == pushed
    ensures Contiguous(t, i) <==> data <= rec.data + data
  {
    StreamSnoc(recv, rec, rec.key, rec.dir);
    StreamSnoc(recv + [rec], Following(rec, data), rec.key, rec.dir);
    HoleInStream(Stream(recv, rec.key, rec.dir), t.slots[i].start, pushed, rec.data, data);
  }

  /** Wherever a skip starves a pipe, the next chunk the pipe accepts leaves it
      with bytes that are no slice of the stream, unless that chunk happens to
      continue as the lost bytes began. */
  lemma SkipLeavesHole(t: Table, rec: Record, data: seq<Byte>)
    requires Inv(t) && t.consumer.Waiting? && Starves(t, rec) && data != [] && t.used + |data| <= t.limit
    requires |t.slots[PipeOf(t, rec.key, rec.dir)].pipe.ch| < PIPE_SLOTS
    ensures var i, t2 := PipeOf(t, rec.key, rec.dir), SkippedThenFed(t, rec, data);
            var t3 := PushReserve(t2);
            && t3.consumer == Reserved(i, data) && Internal(t2, t3) && Internal(t3, PushSend(t3))
            && (Contiguous(PushSend(t3), i) <==> data <= rec.data + data)
  {
    var i := PipeOf(t, rec.key, rec.dir);
    StarvedPipe(t, rec);
    FedIsAccepted(t, rec, data);
    var t4 := PushSend(PushReserve(SkippedThenFed(t, rec, data)));
    ContiguousIff(t4, i, t.recv, t.slots[i].pushed, rec, data);
  }

  lemma InternalInv(t: Table, t': Table)
    requires Inv(t) && Internal(t, t')
    ensures Inv(t')
  {
    if exists i :: ReaderMove(t, t', i) {
      var i :| ReaderMove(t, t', i);
      ReaderMoveInv(t, t', i);
    } else if SweepStep(t, t') {
      SweepInv(t, t');
    } else if t.consumer.Feeding? {
      PushReserveInv(t);
    } else if t.consumer.Reserved? {
      PushSendInv(t);
    } else {
      CloseOneInv(t);
    }
  }

  /** A reader that is polling or testing the lag flag is handed nothing. */
  lemma DecidingMoves(t: Table, t': Table, i: nat)
    requires Internal(t, t') && i < |t.slots| && (t.slots[i].reader.Poll? || t.slots[i].reader.CheckLag?)
    ensures i < |t'.slots| && t'.slots[i].got == t.slots[i].got
  {
    if exists j :: ReaderMove(t, t', j) {
      var j :| ReaderMove(t, t', j);
      if j == i {
        var s', released: nat :|
          && ((LockedStep(t.slots[i], s', released) && !LockedByConsumer(t, i)) || FreeStep(t.slots[i], s', released))
          && t' == WithSlot(t, i, s').(used := t.used - released);
      }
    }
  }

  /** A discarded pipe is never used again. */
  lemma InternalKeepsGone(t: Table, t': Table, i: nat)
    requires Internal(t, t') && i < |t.slots| && t.slots[i].reader.Gone?
    ensures i < |t'.slots| && t'.slots[i].reader.Gone?
  {
    if exists j :: ReaderMove(t, t', j) {
      var j :| ReaderMove(t, t', j);
      if j == i {
        var s', released: nat :| LockedStep(t.slots[i], s', released) || FreeStep(t.slots[i], s', released);
      }
    }
  }
}
