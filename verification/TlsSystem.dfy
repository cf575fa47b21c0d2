/** The whole TLS path: ring, loss ledger, record channel, stream table, pipes,
    readers and budget, under every interleaving. */
module TlsSystem {
  import opened Basics
  import opened TlsRecords
  import opened TlsPipe
  import L = LossLedger
  import T = TlsTable

  datatype System = System(src: L.Source, tab: T.Table)

  ghost predicate Init(s: System) { L.Init(s.src) && T.Init(s.tab) }

  /** The consumer takes the oldest record off the channel. */
  ghost predicate Receive(s: System, s': System, paused: bool) {
    && s.src.out != [] && s.tab.consumer.Waiting?
    && s' == System(L.TakeOne(s.src), T.Take(s.tab, s.src.out[0], paused))
  }

  ghost predicate Drain(s: System, s': System) {
    && s'.tab == s.tab
    && (|| (s.src.drainer.Ready? && exists ev :: s'.src == L.ReadRing(s.src, ev))
        || (s.src.drainer.MustLose? && s'.src == L.DeclareLoss(s.src)))
  }

  /** One step of the system in which the pause switch makes no open pipe miss
      bytes. */
  ghost predicate Next(s: System, s': System) {
    || Drain(s, s')
    || (exists paused :: s.src.out != [] && T.Harmless(s.tab, s.src.out[0], paused) && Receive(s, s', paused))
    || (s'.src == s.src && T.Internal(s.tab, s'.tab))
  }

  ghost predicate Run(b: seq<System>) {
    && |b| > 0 && Init(b[0])
    && forall i :: 0 <= i < |b| - 1 ==> StepAt(b, i)
  }

  ghost predicate StepAt(b: seq<System>, i: nat)
    requires i + 1 < |b|
  {
    Next(b[i], b[i + 1])
  }

  ghost predicate Inv(s: System) {
    && L.Inv(s.src) && T.Inv(s.tab)
    && s.src.sent == s.tab.recv + s.src.out
  }

  /** Data still comes through only for connections without a tombstone. */
  lemma NoDataAfterTombstone(src: L.Source, recv: seq<Record>)
    requires L.Inv(src) && src.sent == recv + src.out && src.out != []
    ensures !Tombstoned(recv, src.out[0].key)
  {
    var rec, n := src.out[0], |recv|;
    assert src.sent[n] == rec;
    forall r | r in recv && r.lagged ensures r.key != rec.key {
      var i :| 0 <= i < n && recv[i] == r;
      assert src.sent[i] == r;
      L.NothingAfterTombstone(src, i, n);
    }
  }

  lemma ReceiveInv(s: System, s': System, paused: bool)
    requires Inv(s) && Receive(s, s', paused) && T.Harmless(s.tab, s.src.out[0], paused)
    ensures Inv(s')
  {
    var rec := s.src.out[0];
    L.TakeOneInv(s.src);
    NoDataAfterTombstone(s.src, s.tab.recv);
    T.TakeInv(s.tab, rec, paused);
    ReceiveQueue(s, s', paused);
  }

  /** Receiving a record keeps the system's invariant exactly when pause makes no
      open pipe miss bytes. */
  lemma ReceiveInvIff(s: System, s': System, paused: bool)
    requires Inv(s) && Receive(s, s', paused)
    ensures Inv(s') <==> T.Harmless(s.tab, s.src.out[0], paused)
  {
    if T.Harmless(s.tab, s.src.out[0], paused) {
      ReceiveInv(s, s', paused);
    } else {
      NoDataAfterTombstone(s.src, s.tab.recv);
      T.TakeInvIff(s.tab, s.src.out[0], paused);
    }
  }

  lemma ReceiveQueue(s: System, s': System, paused: bool)
    requires s.src.sent == s.tab.recv + s.src.out && Receive(s, s', paused)
    ensures s'.src.sent == s'.tab.recv + s'.src.out
  {
    var rec := s.src.out[0];
    assert s'.tab.recv == s.tab.recv + [rec];
    assert s.src.out == [rec] + s'.src.out;
  }

  lemma SendsAppend(s: L.Source, ev: Record)
    ensures var s' := L.ReadRing(s, ev);
            exists more :: s'.sent == s.sent + more && s'.out == s.out + more
    ensures s.drainer.MustLose? ==>
            var s' := L.DeclareLoss(s);
            exists more :: s'.sent == s.sent + more && s'.out == s.out + more
  {
    assert s.sent + [] == s.sent && s.out + [] == s.out;
  }

  lemma DrainInv(s: System, s': System)
    requires Inv(s) && Drain(s, s')
    ensures Inv(s')
  {
    if s.src.drainer.Ready? {
      var ev :| s'.src == L.ReadRing(s.src, ev);
      SendsAppend(s.src, ev);
      L.ReadRingInv(s.src, ev);
    } else {
      SendsAppend(s.src, s.src.drainer.ev);
      L.DeclareLossInv(s.src);
    }
    var more :| s'.src.sent == s.src.sent + more && s'.src.out == s.src.out + more;
    assert s.tab.recv + s.src.out + more == s.tab.recv + (s.src.out + more);
  }

  lemma InternalKeepsRecv(t: T.Table, t': T.Table)
    requires T.Internal(t, t')
    ensures t'.recv == t.recv
  {
  }

  lemma NextInv(s: System, s': System)
    requires Inv(s) && Next(s, s')
    ensures Inv(s')
  {
    if Drain(s, s') {
      DrainInv(s, s');
    } else if s'.src == s.src && T.Internal(s.tab, s'.tab) {
      T.InternalInv(s.tab, s'.tab);
      InternalKeepsRecv(s.tab, s'.tab);
    } else {
      var paused :| s.src.out != [] && T.Harmless(s.tab, s.src.out[0], paused) && Receive(s, s', paused);
      ReceiveInv(s, s', paused);
    }
  }

  lemma InitInv(s: System)
    requires Init(s)
    ensures Inv(s)
  {
    T.InitInv(s.tab);
  }

  lemma {:induction false} RunInv(b: seq<System>, n: nat)
    requires Run(b) && n < |b|
    ensures Inv(b[n])
  {
    if n == 0 {
      InitInv(b[0]);
    } else {
      RunInv(b, n - 1);
      assert StepAt(b, n - 1);
      assert Next(b[n - 1], b[n - 1 + 1]);
      NextInv(b[n - 1], b[n]);
    }
  }

  // ----- Main results --------------------------------------------------------

  lemma SliceOfPrefix(received: seq<Byte>, full: seq<Byte>, start: nat, pushed: seq<Byte>, got: seq<Byte>)
    requires received <= full && got <= pushed
    requires start + |pushed| <= |received| && received[start..start + |pushed|] == pushed
    ensures start + |got| <= |full| && full[start..start + |got|] == got
  {
    var g := |got|;
    assert full[start..start + g] == received[start..start + g];
    assert received[start..start + g] == pushed[..g];
  }

  lemma ReceivedIsTruePrefix(s: System, key: ConnKey, dir: Direction)
    requires Inv(s)
    ensures Stream(s.tab.recv, key, dir) <= L.TrueStream(s.src.hist, key, dir)
  {
    StreamConcat(s.tab.recv, s.src.out, key, dir);
    L.SentIsTruePrefix(s.src, key, dir);
  }

  /** In every run, what any one dissector has read is a contiguous slice of its
      direction's true stream: never a byte from beyond a loss, never a hole. */
  lemma DissectorReadsSlice(b: seq<System>, n: nat, i: nat)
    requires Run(b) && n < |b| && i < |b[n].tab.slots|
    ensures var slot := b[n].tab.slots[i];
            var full := L.TrueStream(b[n].src.hist, slot.key, slot.dir);
            slot.start + |slot.got| <= |full| && full[slot.start..slot.start + |slot.got|] == slot.got
  {
    RunInv(b, n);
    var slot := b[n].tab.slots[i];
    assert T.SlotOkAt(b[n].tab, i) && T.SliceOk(b[n].tab, i);
    ReceivedIsTruePrefix(b[n], slot.key, slot.dir);
    SliceOfPrefix(Stream(b[n].tab.recv, slot.key, slot.dir), L.TrueStream(b[n].src.hist, slot.key, slot.dir),
                  slot.start, slot.pushed, slot.got);
  }

  /** In every run the budget in use is exactly what the pipes hold, what readers
      have in hand and what the writer has reserved; it stays within the limit
      and a discarded pipe holds nothing. */
  lemma BudgetExact(b: seq<System>, n: nat)
    requires Run(b) && n < |b|
    ensures var t := b[n].tab;
            && t.used == T.Total(t.slots) + T.ReservedBytes(t.consumer)
            && 0 <= t.used <= t.limit
            && forall i :: 0 <= i < |t.slots| && t.slots[i].reader.Gone? ==> T.SlotCharge(t.slots[i]) == 0
  {
    RunInv(b, n);
    var t := b[n].tab;
    forall i | 0 <= i < |t.slots| && t.slots[i].reader.Gone? ensures T.SlotCharge(t.slots[i]) == 0 {
      assert T.SlotOkAt(t, i);
    }
  }

  /** Discarding is for ever. */
  lemma GoneStaysGone(s: System, s': System, i: nat)
    requires Next(s, s') && i < |s.tab.slots| && s.tab.slots[i].reader.Gone?
    ensures i < |s'.tab.slots| && s'.tab.slots[i].reader.Gone?
  {
    if s'.src == s.src && T.Internal(s.tab, s'.tab) {
      T.InternalKeepsGone(s.tab, s'.tab, i);
    }
  }

  predicate GoneIn(s: System, i: nat) { i < |s.tab.slots| && s.tab.slots[i].reader.Gone? }

  lemma {:induction false} Persists(holds: seq<bool>, n: nat, m: nat)
    requires n <= m < |holds| && holds[n]
    requires forall k :: 0 < k < |holds| && holds[k - 1] ==> holds[k]
    ensures holds[m]
  {
    if n < m { Persists(holds, n, m - 1); }
  }

  lemma GoneNext(b: seq<System>, k: nat, i: nat)
    requires Run(b) && 0 < k < |b| && GoneIn(b[k - 1], i)
    ensures GoneIn(b[k], i)
  {
    var j := k - 1;
    assert StepAt(b, j);
    GoneStaysGone(b[j], b[k], i);
  }

  lemma StaysGone(b: seq<System>, n: nat, m: nat, i: nat)
    requires Run(b) && n <= m < |b| && GoneIn(b[n], i)
    ensures GoneIn(b[m], i)
  {
    var holds := seq(|b|, k requires 0 <= k < |b| => GoneIn(b[k], i));
    forall k | 0 < k < |holds| && holds[k - 1] ensures holds[k] { GoneNext(b, k, i); }
    Persists(holds, n, m);
  }

  /** In every run, a discarded pipe is never used again and never owes anything. */
  lemma GoneForEver(b: seq<System>, n: nat, m: nat, i: nat)
    requires Run(b) && n <= m < |b| && GoneIn(b[n], i)
    ensures GoneIn(b[m], i) && T.SlotCharge(b[m].tab.slots[i]) == 0
  {
    StaysGone(b, n, m, i);
    BudgetExact(b, m);
  }

  /** The ledger stays bounded, and each connection's records on the channel are
      its data up to the first loss, then at most one tombstone, then nothing. */
  lemma ChannelShape(b: seq<System>, n: nat, key: ConnKey)
    requires Run(b) && n < |b|
    ensures var src := b[n].src;
            && |src.lagged| <= L.MAX_LAGGED_CONNS
            && L.Shape(L.MarkOf(src, key), L.Settled(src, key), Of(key, src.sent))
  {
    RunInv(b, n);
    assert L.KeyInv(b[n].src, key);
  }

  /** End of stream through the closed branch comes only after everything the
      pipe accepted was delivered, and nothing more will be accepted. */
  lemma ClosedBranchDeliversAll(b: seq<System>, n: nat, i: nat)
    requires Run(b) && n < |b| && i < |b[n].tab.slots|
    ensures var slot := b[n].tab.slots[i];
            slot.reader == T.AtEof(true) ==> slot.got == slot.pushed && slot.pipe.done
  {
    RunInv(b, n);
    assert T.SlotOkAt(b[n].tab, i);
  }

  predicate Deciding(r: T.Reader) { r.Poll? || r.CheckLag? }

  predicate SlotIn(s: System, i: nat) { i < |s.tab.slots| }

  /** Between its poll and its lag test a reader is handed nothing, whatever the
      others do. */
  lemma DecidingKeepsGot(s: System, s': System, i: nat)
    requires Next(s, s') && SlotIn(s, i) && Deciding(s.tab.slots[i].reader)
    ensures SlotIn(s', i) && s'.tab.slots[i].got == s.tab.slots[i].got
  {
    if s'.src == s.src && T.Internal(s.tab, s'.tab) {
      T.DecidingMoves(s.tab, s'.tab, i);
    }
  }

  /** got of a pipe at each step from m on. */
  lemma DecidingAt(b: seq<System>, k: nat, i: nat)
    requires Run(b) && 0 < k < |b| && SlotIn(b[k - 1], i) && Deciding(b[k - 1].tab.slots[i].reader)
    ensures SlotIn(b[k], i) && b[k].tab.slots[i].got == b[k - 1].tab.slots[i].got
  {
    var j := k - 1;
    assert StepAt(b, j);
    DecidingKeepsGot(b[j], b[k], i);
  }

  predicate DecidingThrough(b: seq<System>, m: nat, n: nat, i: nat)
    requires m <= n < |b|
  {
    forall k :: m <= k < n ==> SlotIn(b[k], i) && Deciding(b[k].tab.slots[i].reader)
  }

  lemma {:induction false} GotStands(b: seq<System>, m: nat, n: nat, i: nat)
    requires Run(b) && m <= n < |b| && SlotIn(b[m], i) && DecidingThrough(b, m, n, i)
    ensures SlotIn(b[n], i) && b[n].tab.slots[i].got == b[m].tab.slots[i].got
    decreases n
  {
    if m < n {
      GotStands(b, m, n - 1, i);
      DecidingAt(b, n, i);
    }
  }

  /** The lag branch, exactly. A reader that polled an empty channel at step m and
      is told the end at step n by the lag test has read everything its pipe
      accepted if and only if nothing was accepted between the two. */
  lemma LagEndIsWholeIff(b: seq<System>, m: nat, n: nat, i: nat)
    requires Run(b) && m <= n < |b| && SlotIn(b[m], i) && DecidingThrough(b, m, n, i)
    requires b[m].tab.slots[i].reader.Poll? && b[m].tab.slots[i].pipe.ch == []
    ensures SlotIn(b[n], i)
    ensures var first, last := b[m].tab.slots[i], b[n].tab.slots[i];
            last.got == last.pushed <==> last.pushed == first.pushed
  {
    GotStands(b, m, n, i);
    RunInv(b, m);
    assert T.SlotOkAt(b[m].tab, i);
    DryPoll(b[m].tab.slots[i]);
  }

  lemma DryPoll(slot: T.Slot)
    requires T.SlotOk(slot) && slot.reader.Poll? && slot.pipe.ch == []
    ensures slot.got == slot.pushed
  {
  }

  /** Once the consumer has dealt with a connection's tombstone, the connection
      has no stream and each of its pipes is closed, so each reader will be told
      the end. */
  lemma TombstoneCloses(b: seq<System>, n: nat, key: ConnKey, i: nat)
    requires Run(b) && n < |b| && i < |b[n].tab.slots|
    requires Tombstoned(b[n].tab.recv, key) && b[n].tab.slots[i].key == key && b[n].tab.consumer.Waiting?
    ensures key !in b[n].tab.streams && b[n].tab.slots[i].pipe.done
  {
    RunInv(b, n);
    assert T.OrphanOk(b[n].tab, i);
    assert key in b[n].tab.streams ==> T.NotTombstoned(b[n].tab, key);
  }

  /** The consumer takes the two oldest records, paused for the first. */
  function AfterSkip(s: System): System
    requires |s.src.out| >= 2
  {
    var skipped := System(L.TakeOne(s.src), T.Take(s.tab, s.src.out[0], true));
    System(L.TakeOne(skipped.src), T.Take(skipped.tab, s.src.out[1], false))
  }

  /** And wherever a run has on its channel a record whose skip starves a pipe and
      then one of the same direction that begins with another byte, skipping the
      first and accepting the second leaves the pipe with bytes that are no slice. */
  lemma PausedSkipLeavesHole(b: seq<System>, n: nat, data: seq<Byte>)
    requires Run(b) && n < |b| && b[n].tab.consumer.Waiting? && |b[n].src.out| >= 2
    requires var rec := b[n].src.out[0];
             && T.Starves(b[n].tab, rec) && b[n].src.out[1] == T.Following(rec, data)
             && data != [] && data[0] != rec.data[0] && b[n].tab.used + |data| <= b[n].tab.limit
             && |b[n].tab.slots[T.PipeOf(b[n].tab, rec.key, rec.dir)].pipe.ch| < PIPE_SLOTS
    ensures exists mid :: Receive(b[n], mid, true) && Receive(mid, AfterSkip(b[n]), false)
    ensures var t2 := AfterSkip(b[n]).tab;
            var i := T.PipeOf(b[n].tab, b[n].src.out[0].key, b[n].src.out[0].dir);
            && t2.consumer.Feeding? && t2.consumer.i == i < |t2.slots|
            && var t3 := T.PushReserve(t2);
            && T.Internal(t2, t3) && t3.consumer.Reserved? && t3.consumer.i == i < |t3.slots|
            && T.Internal(t3, T.PushSend(t3)) && !T.Contiguous(T.PushSend(t3), i)
  {
    RunInv(b, n);
    var s, rec := b[n], b[n].src.out[0];
    var mid := System(L.TakeOne(s.src), T.Take(s.tab, rec, true));
    assert mid.src.out[0] == s.src.out[1];
    assert Receive(s, mid, true) && Receive(mid, AfterSkip(s), false);
    T.SkipLeavesHole(s.tab, rec, data);
    assert AfterSkip(s).tab == T.SkippedThenFed(s.tab, rec, data);
    assert (rec.data + data)[0] == rec.data[0];
  }

  // ----- What the other end-of-stream branch does not promise -----------------

  /** Reachable in n steps of the table, clean or not. */
  ghost predicate Reachable(t: T.Table, n: nat)
    decreases n
  {
    if n == 0 then T.Init(t) else exists t0 :: Reachable(t0, n - 1) && TableStep(t0, t)
  }

  lemma Extend(t0: T.Table, t: T.Table, n: nat)
    requires Reachable(t0, n) && TableStep(t0, t)
    ensures Reachable(t, n + 1)
  {
  }

  ghost predicate TableStep(t: T.Table, t': T.Table) {
    T.Internal(t, t') || (t.consumer.Waiting? && exists rec, paused :: t' == T.Take(t, rec, paused))
  }

  function Data(x: Byte): Record { Record(ConnKey(1, 1), Write, [x], false) }

  function Fresh(limit: int): T.Table { T.Table([], map[], 0, limit, 16, T.Waiting, []) }

  /** Pipe 0 belongs to the one connection of the example and holds one chunk per
      byte of queued. */
  ghost predicate Holds(t: T.Table, queued: seq<seq<Byte>>, reader: T.Reader) {
    && |t.slots| == 2 && t.streams == map[ConnKey(1, 1) := (0, 1)] && t.streamLimit == 16
    && t.slots[0] == T.Slot(ConnKey(1, 1), Write, Pipe(queued, [], 0, false, false), reader, 0, Bytes(queued), [])
  }

  lemma FirstTake(limit: int, x: Byte)
    ensures var t := T.Take(Fresh(limit), Data(x), false);
            Holds(t, [], T.Idle) && t.consumer == T.Feeding(0, [x]) && t.used == 0 && t.limit == limit && t.recv == [Data(x)]
    ensures limit >= 0 ==> Reachable(T.Take(Fresh(limit), Data(x), false), 1)
  {
    if limit >= 0 {
      assert TableStep(Fresh(limit), T.Take(Fresh(limit), Data(x), false));
      Extend(Fresh(limit), T.Take(Fresh(limit), Data(x), false), 0);
    }
  }

  lemma AcceptedReserve(t: T.Table, n: nat, queued: seq<seq<Byte>>, reader: T.Reader, x: Byte) returns (t': T.Table)
    requires Holds(t, queued, reader) && !reader.Draining? && Reachable(t, n)
    requires t.consumer == T.Feeding(0, [x]) && t.used + 1 <= t.limit
    ensures t' == t.(used := t.used + 1, consumer := T.Reserved(0, [x])) && Reachable(t', n + 1)
  {
    ReserveAccepts(t, queued, reader, x);
    t' := T.PushReserve(t);
    assert TableStep(t, t');
    Extend(t, t', n);
  }

  lemma ReserveAccepts(t: T.Table, queued: seq<seq<Byte>>, reader: T.Reader, x: Byte)
    requires Holds(t, queued, reader) && !reader.Draining? && t.consumer == T.Feeding(0, [x]) && t.used + 1 <= t.limit
    ensures T.PushReserve(t) == t.(used := t.used + 1, consumer := T.Reserved(0, [x])) && T.Internal(t, T.PushReserve(t))
  {
  }

  lemma SendAccepts(t: T.Table, queued: seq<seq<Byte>>, reader: T.Reader, x: Byte)
    requires Holds(t, queued, reader) && |queued| < PIPE_SLOTS && t.consumer == T.Reserved(0, [x])
    ensures var t' := T.PushSend(t);
            && T.Internal(t, t') && t'.consumer.Waiting? && Holds(t', queued + [[x]], reader)
            && t'.used == t.used && t'.limit == t.limit && t'.recv == t.recv
  {
    BytesSnoc(queued, [x]);
  }

  lemma AcceptedSend(t: T.Table, n: nat, queued: seq<seq<Byte>>, reader: T.Reader, x: Byte) returns (t': T.Table)
    requires Holds(t, queued, reader) && |queued| < PIPE_SLOTS && t.consumer == T.Reserved(0, [x]) && Reachable(t, n)
    ensures t'.consumer.Waiting? && Reachable(t', n + 1)
    ensures Holds(t', queued + [[x]], reader) && t'.used == t.used && t'.limit == t.limit && t'.recv == t.recv
  {
    SendAccepts(t, queued, reader, x);
    t' := T.PushSend(t);
    assert TableStep(t, t');
    Extend(t, t', n);
  }

  lemma NextTake(t: T.Table, n: nat, queued: seq<seq<Byte>>, reader: T.Reader, x: Byte, paused: bool) returns (t': T.Table)
    requires Holds(t, queued, reader) && t.consumer.Waiting? && Reachable(t, n)
    ensures t' == T.Take(t, Data(x), paused) && Reachable(t', n + 1)
    ensures Holds(t', queued, reader) && t'.used == t.used && t'.limit == t.limit && t'.recv == t.recv + [Data(x)]
    ensures t'.consumer == if paused then T.Waiting else T.Feeding(0, [x])
  {
    TakeHolds(t, queued, reader, x, paused);
    t' := T.Take(t, Data(x), paused);
    assert TableStep(t, t');
    Extend(t, t', n);
  }

  /** The reader of pipe 0 makes one step that moves nothing. */
  function ReaderAt(t: T.Table, r: T.Reader): T.Table
    requires |t.slots| > 0
  {
    T.WithSlot(t, 0, t.slots[0].(reader := r))
  }

  lemma ReaderMoves(t: T.Table, r: T.Reader)
    requires |t.slots| > 0
    requires var s := t.slots[0];
             || (T.LockedStep(s, s.(reader := r), 0) && !T.LockedByConsumer(t, 0))
             || T.FreeStep(s, s.(reader := r), 0)
    ensures T.Internal(t, ReaderAt(t, r))
  {
    var t' := ReaderAt(t, r);
    assert t' == t'.(used := t.used - 0);
    assert T.ReaderMove(t, t', 0);
  }

  // ----- A run of the whole system -------------------------------------------

  function Last(b: seq<System>): System
    requires b != []
  {
    b[|b| - 1]
  }

  lemma ExtendRun(b: seq<System>, s: System) returns (b': seq<System>)
    requires Run(b) && Next(Last(b), s)
    ensures Run(b') && Last(b') == s
  {
    b' := b + [s];
    forall i | 0 <= i < |b'| - 1 ensures StepAt(b', i) {
      if i < |b| - 1 { assert StepAt(b, i) && b'[i] == b[i] && b'[i + 1] == b[i + 1]; }
    }
  }

  /** A step inside the table. */
  lemma Inside(b: seq<System>, t: T.Table) returns (b': seq<System>)
    requires Run(b) && T.Internal(Last(b).tab, t)
    ensures Run(b') && Last(b') == System(Last(b).src, t)
  {
    b' := ExtendRun(b, System(Last(b).src, t));
  }

  /** Nothing lost and nothing on the channel. */
  predicate Calm(src: L.Source) { src.drainer.Ready? && src.out == [] && src.lagged == map[] && src.cap == 1 }

  /** A record comes off the ring, through the channel and to the consumer. */
  lemma Fetch(b: seq<System>, rec: Record) returns (b': seq<System>)
    requires Run(b) && Calm(Last(b).src) && Last(b).tab.consumer.Waiting? && !rec.lagged
    ensures Run(b') && Calm(Last(b').src) && Last(b').tab == T.Take(Last(b).tab, rec, false)
  {
    var s := Last(b);
    var src1 := L.ReadRing(s.src, rec);
    assert src1.out == [rec] && src1.drainer.Ready?;
    assert Drain(s, System(src1, s.tab));
    b' := ExtendRun(b, System(src1, s.tab));
    var s2 := System(L.TakeOne(src1), T.Take(s.tab, rec, false));
    assert T.Harmless(s.tab, rec, false) && Receive(System(src1, s.tab), s2, false);
    b' := ExtendRun(b', s2);
  }

  /** The reader has polled an empty pipe, and a chunk arrives. */
  lemma PolledThenPushed() returns (b: seq<System>)
    ensures Run(b) && Calm(Last(b).src)
    ensures var t := Last(b).tab; Holds(t, [[7]], T.CheckLag) && t.consumer.Waiting? && t.used == t.limit == 1
  {
    b := [System(L.Source([], 1, map[], L.Ready, [], []), Fresh(1))];
    b := Fetch(b, Data(7));
    FirstTake(1, 7);
    var t1 := Last(b).tab;
    ReaderMoves(t1, T.Poll);
    var t2 := ReaderAt(t1, T.Poll);
    b := Inside(b, t2);
    ReaderMoves(t2, T.CheckLag);
    var t3 := ReaderAt(t2, T.CheckLag);
    b := Inside(b, t3);
    ReserveAccepts(t3, [], T.CheckLag, 7);
    b := Inside(b, T.PushReserve(t3));
    SendAccepts(T.PushReserve(t3), [], T.CheckLag, 7);
    b := Inside(b, T.PushSend(T.PushReserve(t3)));
    assert [] + [[7]] == [[7]];
  }

  lemma TakeHolds(t: T.Table, queued: seq<seq<Byte>>, reader: T.Reader, x: Byte, paused: bool)
    requires Holds(t, queued, reader) && t.consumer.Waiting?
    ensures var t' := T.Take(t, Data(x), paused);
            && Holds(t', queued, reader) && t'.used == t.used && t'.limit == t.limit && t'.recv == t.recv + [Data(x)]
            && t'.consumer == if paused then T.Waiting else T.Feeding(0, [x])
  {
  }

  /** A run of the whole system: a pipe that overflows between a reader's poll and its
      lag test reports the end while an accepted chunk is still queued, so only a
      prefix is delivered. */
  lemma LagBranchMayTruncate() returns (b: seq<System>)
    ensures Run(b) && |Last(b).tab.slots| > 0
    ensures var slot := Last(b).tab.slots[0]; slot.reader == T.AtEof(false) && slot.got == [] && slot.pushed == [7]
  {
    b := PolledThenPushed();
    var t5 := Last(b).tab;
    b := Fetch(b, Data(8));
    TakeHolds(t5, [[7]], T.CheckLag, 8, false);
    var t6 := Last(b).tab;
    var t7 := T.PushReserve(t6);
    assert T.Internal(t6, t7);
    b := Inside(b, t7);
    ReaderMoves(t7, T.AtEof(false));
    b := Inside(b, ReaderAt(t7, T.AtEof(false)));
    assert Bytes([[7]]) == [7];
  }

  ghost predicate SliceAt(full: seq<Byte>, part: seq<Byte>, k: nat) {
    k + |part| <= |full| && full[k..k + |part|] == part
  }

  lemma PausedInBetween() returns (t: T.Table)
    ensures Reachable(t, 5) && Holds(t, [[1]], T.Idle) && t.consumer == T.Feeding(0, [3])
    ensures t.used == 1 && t.limit == 100 && t.recv == [Data(1)] + [Data(2)] + [Data(3)]
  {
    FirstTake(100, 1);
    t := T.Take(Fresh(100), Data(1), false);
    t := AcceptedReserve(t, 1, [], T.Idle, 1);
    t := AcceptedSend(t, 2, [], T.Idle, 1);
    assert [] + [[1]] == [[1]];
    t := NextTake(t, 3, [[1]], T.Idle, 2, true);
    t := NextTake(t, 4, [[1]], T.Idle, 3, false);
  }

  /** A record skipped by the pause switch while its stream is open leaves a hole
      that the pipe does not notice: what it accepted is no slice any more. */
  lemma PauseLeavesHole() returns (t: T.Table)
    ensures Reachable(t, 7) && |t.slots| > 0
    ensures !exists k: nat :: SliceAt(Stream(t.recv, ConnKey(1, 1), Write), t.slots[0].pushed, k)
  {
    var t5 := PausedInBetween();
    var t6 := AcceptedReserve(t5, 5, [[1]], T.Idle, 3);
    t := AcceptedSend(t6, 6, [[1]], T.Idle, 3);
    BytesSnoc([[1]], [3]);
    assert t.slots[0].pushed == [1, 3] by { assert Bytes([[1]]) == [1]; }
    ThreeBytes(t.recv);
  }

  lemma ThreeBytes(recv: seq<Record>)
    requires recv == [Data(1)] + [Data(2)] + [Data(3)]
    ensures Stream(recv, ConnKey(1, 1), Write) == [1, 2, 3]
    ensures !exists k: nat :: SliceAt([1, 2, 3], [1, 3], k)
  {
    OneMore([], 1, []);
    OneMore([Data(1)], 2, [1]);
    OneMore([Data(1)] + [Data(2)], 3, [1, 2]);
    assert [] + [Data(1)] == [Data(1)];
    forall k: nat ensures !SliceAt([1, 2, 3], [1, 3], k) { NotASlice([1, 2, 3], k); }
  }

  lemma OneMore(recv: seq<Record>, x: Byte, sofar: seq<Byte>)
    requires Stream(recv, ConnKey(1, 1), Write) == sofar
    ensures Stream(recv + [Data(x)], ConnKey(1, 1), Write) == sofar + [x]
  {
    StreamSnoc(recv, Data(x), ConnKey(1, 1), Write);
  }

  lemma NotASlice(full: seq<Byte>, k: nat)
    requires |full| == 3 && full[0] == 1 && full[1] == 2
    ensures !SliceAt(full, [1, 3], k)
  {
    assert k <= 1 ==> full[k..k + 2][0] == full[k] && full[k..k + 2][1] == full[k + 1];
  }
}
