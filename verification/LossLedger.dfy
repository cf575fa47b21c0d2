/** The ring-buffer drain loop and its loss ledger: what reaches the record
    channel of a connection is its data up to the first loss, then at most one
    tombstone, then nothing. */
module LossLedger {
  import opened Basics
  import opened TlsRecords

  const MAX_LAGGED_CONNS := 4096

  /** Where the drain goroutine stands. A failed send leaves it holding a record
      it must now declare lost; a full ledger stops it for good. */
  datatype Drainer = Ready | MustLose(ev: Record) | Stopped(ev: Record)

  /** out is the bounded channel. hist is everything read from the ring and sent
      everything ever put on the channel, in order. */
  datatype Source = Source(out: seq<Record>, cap: nat, lagged: map<ConnKey, bool>, drainer: Drainer,
                           hist: seq<Record>, sent: seq<Record>)

  function Tombstone(ev: Record): Record { ev.(data := [], lagged := true) }

  /** A non-blocking send that found room. */
  function Send(s: Source, r: Record): Source {
    s.(out := s.out + [r], sent := s.sent + [r])
  }

  function ForwardLoss(s: Source, ev: Record): Source {
    if ev.key in s.lagged && s.lagged[ev.key] then s
    else if |s.out| < s.cap then Send(s, Tombstone(ev)).(lagged := s.lagged[ev.key := true])
    else s.(lagged := s.lagged[ev.key := false])
  }

  /** One ring record, up to and including the first attempt to send it. */
  function ReadRing(s: Source, ev: Record): Source {
    Dispatch(s.(hist := s.hist + [ev]), ev)
  }

  function Dispatch(s: Source, ev: Record): Source {
    if ev.lagged then
      if ev.key in s.lagged && s.lagged[ev.key] then s
      else if ev.key !in s.lagged && |s.lagged| >= MAX_LAGGED_CONNS then s.(drainer := Stopped(ev))
      else ForwardLoss(s, ev)
    else if ev.key in s.lagged then
      if s.lagged[ev.key] then s else ForwardLoss(s, ev)
    else if |s.out| < s.cap then Send(s, ev)
    else if |s.lagged| >= MAX_LAGGED_CONNS then s.(drainer := Stopped(ev))
    else s.(drainer := MustLose(ev))
  }

  /** Declaring the unsent record lost; the consumer may have made room since. */
  function DeclareLoss(s: Source): Source
    requires s.drainer.MustLose?
  {
    ForwardLoss(s, s.drainer.ev).(drainer := Ready)
  }

  /** The consumer takes the oldest queued record. */
  function TakeOne(s: Source): Source
    requires s.out != []
  {
    s.(out := s.out[1..])
  }

  ghost predicate Init(s: Source) {
    s.out == [] && s.lagged == map[] && s.drainer.Ready? && s.hist == [] && s.sent == []
  }

  ghost predicate Next(s: Source, s': Source) {
    || (s.drainer.Ready? && exists ev :: s' == ReadRing(s, ev))
    || (s.drainer.MustLose? && s' == DeclareLoss(s))
    || (s.out != [] && s' == TakeOne(s))
  }

  ghost predicate AllData(recs: seq<Record>) {
    forall i :: 0 <= i < |recs| ==> !recs[i].lagged
  }

  /** The record in the drainer's hand belongs to key: read, but neither sent nor
      in the ledger yet. */
  predicate InHand(s: Source, key: ConnKey) {
    !s.drainer.Ready? && s.drainer.ev.key == key
  }

  /** What the ledger says of a connection: no loss, a loss still to be reported,
      a loss reported. */
  datatype Mark = Whole | Owed | Reported

  function MarkOf(s: Source, key: ConnKey): Mark {
    if key !in s.lagged then Whole else if s.lagged[key] then Reported else Owed
  }

  /** onChannel is data before the first loss, then at most one tombstone; read
      is what the ring delivered, less a record still in the drainer's hand. */
  ghost predicate Shape(mark: Mark, read: seq<Record>, onChannel: seq<Record>) {
    match mark
    case Whole => AllData(onChannel) && read == onChannel
    case Owed => AllData(onChannel) && onChannel < read
    case Reported =>
      && |onChannel| > 0
      && AllData(onChannel[..|onChannel| - 1]) && onChannel[..|onChannel| - 1] < read
      && onChannel[|onChannel| - 1].lagged && onChannel[|onChannel| - 1].data == []
  }

  /** The ring records of a connection the drainer has dealt with. */
  ghost function Settled(s: Source, key: ConnKey): seq<Record> {
    var read := Of(key, s.hist);
    if InHand(s, key) && read != [] then read[..|read| - 1] else read
  }

  ghost predicate KeyInv(s: Source, key: ConnKey) {
    && Shape(MarkOf(s, key), Settled(s, key), Of(key, s.sent))
    && (InHand(s, key) ==> Of(key, s.hist) == Settled(s, key) + [s.drainer.ev])
  }

  ghost predicate Inv(s: Source) {
    LedgerInv(s) && QueueInv(s) && forall key :: KeyInv(s, key)
  }

  /** The ledger is bounded, and a record in hand is not in it yet. */
  ghost predicate LedgerInv(s: Source) {
    && |s.lagged| <= MAX_LAGGED_CONNS
    && (s.drainer.MustLose? ==>
        !s.drainer.ev.lagged && s.drainer.ev.key !in s.lagged && |s.lagged| < MAX_LAGGED_CONNS)
    && (s.drainer.Stopped? ==> s.drainer.ev.key !in s.lagged)
  }

  /** The channel holds the newest part of what was sent. */
  ghost predicate QueueInv(s: Source) {
    |s.out| <= |s.sent| && s.out == s.sent[|s.sent| - |s.out|..]
  }

  lemma SendQueue(s: Source, r: Record)
    requires QueueInv(s)
    ensures QueueInv(Send(s, r))
  {
  }

  lemma ShapeLost(read: seq<Record>, onChannel: seq<Record>, tomb: Record)
    requires AllData(onChannel) && onChannel < read
    requires tomb.lagged && tomb.data == []
    ensures Shape(Owed, read, onChannel) && Shape(Reported, read, onChannel + [tomb])
  {
    assert (onChannel + [tomb])[..|onChannel|] == onChannel;
  }

  lemma ShapeTail(mark: Mark, read: seq<Record>, onChannel: seq<Record>, ev: Record)
    requires Shape(mark, read, onChannel) && !mark.Whole?
    ensures Shape(mark, read + [ev], onChannel)
  {
  }

  /** Declaring a loss: s has the lost record already in hist. */
  lemma ForwardLossKey(s: Source, ev: Record, s': Source, key: ConnKey)
    requires s' == ForwardLoss(s, ev).(drainer := Ready)
    requires key == ev.key ==> AllData(Of(key, s.sent)) && Of(key, s.sent) < Of(key, s.hist) && !MarkOf(s, key).Reported?
    requires key != ev.key ==> KeyInv(s, key) && !InHand(s, key)
    ensures KeyInv(s', key)
  {
    OfSnoc(key, s.sent, Tombstone(ev));
    if key == ev.key {
      ShapeLost(Of(key, s.hist), Of(key, s.sent), Tombstone(ev));
      SettledKey(s', key);
    } else {
      KeyFrame(s, s', key);
    }
  }

  /** The invariant of a connection only depends on its own records and mark. */
  lemma KeyFrame(s: Source, s': Source, key: ConnKey)
    requires KeyInv(s, key) && !InHand(s, key) && !InHand(s', key)
    requires Of(key, s'.hist) == Of(key, s.hist) && Of(key, s'.sent) == Of(key, s.sent)
    requires MarkOf(s', key) == MarkOf(s, key)
    ensures KeyInv(s', key)
  {
  }

  /** A step on behalf of ev leaves the channel view of other connections alone. */
  lemma DispatchOther(s: Source, ev: Record, key: ConnKey)
    requires key != ev.key
    ensures var s' := Dispatch(s, ev);
            s'.hist == s.hist && Of(key, s'.sent) == Of(key, s.sent) && MarkOf(s', key) == MarkOf(s, key)
  {
    OfSnoc(key, s.sent, ev);
    OfSnoc(key, s.sent, Tombstone(ev));
  }

  lemma ReadRingOther(s: Source, ev: Record, key: ConnKey)
    requires KeyInv(s, key) && s.drainer.Ready? && key != ev.key
    ensures KeyInv(ReadRing(s, ev), key)
  {
    OfSnoc(key, s.hist, ev);
    DispatchOther(s.(hist := s.hist + [ev]), ev, key);
    KeyFrame(s, ReadRing(s, ev), key);
  }

  /** A record kept in hand, whether to be declared lost or for good. */
  lemma HeldKey(s: Source, ev: Record, drainer: Drainer)
    requires KeyInv(s, ev.key) && s.drainer.Ready? && MarkOf(s, ev.key).Whole?
    requires !drainer.Ready? && drainer.ev == ev
    ensures KeyInv(s.(hist := s.hist + [ev], drainer := drainer), ev.key)
  {
    OfSnoc(ev.key, s.hist, ev);
    var h := Of(ev.key, s.hist);
    assert (h + [ev])[..|h|] == h;
  }

  /** One more record, read and sent. */
  lemma ShapeSent(read: seq<Record>, onChannel: seq<Record>, ev: Record)
    requires Shape(Whole, read, onChannel) && !ev.lagged
    ensures Shape(Whole, read + [ev], onChannel + [ev])
  {
  }

  /** Off the drainer's hand, the invariant is the shape alone. */
  lemma SettledKey(s: Source, key: ConnKey)
    requires !InHand(s, key) && Shape(MarkOf(s, key), Of(key, s.hist), Of(key, s.sent))
    ensures KeyInv(s, key)
  {
  }

  lemma SentKey(s: Source, ev: Record)
    requires KeyInv(s, ev.key) && s.drainer.Ready? && MarkOf(s, ev.key).Whole? && !ev.lagged
    ensures KeyInv(Send(s.(hist := s.hist + [ev]), ev), ev.key)
  {
    OfSnoc(ev.key, s.hist, ev);
    OfSnoc(ev.key, s.sent, ev);
    ShapeSent(Of(ev.key, s.hist), Of(ev.key, s.sent), ev);
    SettledKey(Send(s.(hist := s.hist + [ev]), ev), ev.key);
  }

  lemma TailKey(s: Source, ev: Record)
    requires KeyInv(s, ev.key) && s.drainer.Ready? && MarkOf(s, ev.key).Reported?
    ensures KeyInv(s.(hist := s.hist + [ev]), ev.key)
  {
    OfSnoc(ev.key, s.hist, ev);
    ShapeTail(Reported, Of(ev.key, s.hist), Of(ev.key, s.sent), ev);
    SettledKey(s.(hist := s.hist + [ev]), ev.key);
  }

  lemma LostKey(s: Source, ev: Record)
    requires KeyInv(s, ev.key) && s.drainer.Ready? && !MarkOf(s, ev.key).Reported?
    ensures KeyInv(ForwardLoss(s.(hist := s.hist + [ev]), ev), ev.key)
  {
    var s0 := s.(hist := s.hist + [ev]);
    OfSnoc(ev.key, s.hist, ev);
    ForwardLossKey(s0, ev, ForwardLoss(s0, ev), ev.key);
  }

  lemma ReadRingOwn(s: Source, ev: Record)
    requires KeyInv(s, ev.key) && s.drainer.Ready?
    ensures KeyInv(ReadRing(s, ev), ev.key)
  {
    var mark, s' := MarkOf(s, ev.key), ReadRing(s, ev);
    if mark.Reported? {
      TailKey(s, ev);
    } else if !s'.drainer.Ready? {
      HeldKey(s, ev, s'.drainer);
    } else if ev.lagged || mark.Owed? {
      LostKey(s, ev);
    } else {
      SentKey(s, ev);
    }
  }

  lemma LedgerGrowth(m: map<ConnKey, bool>, key: ConnKey, b: bool)
    ensures |m[key := b]| == if key in m then |m| else |m| + 1
  {
    if key in m {
      assert m[key := b].Keys == m.Keys;
    } else {
      assert m[key := b].Keys == m.Keys + {key};
    }
  }

  lemma ReadRingInv(s: Source, ev: Record)
    requires Inv(s) && s.drainer.Ready?
    ensures Inv(ReadRing(s, ev))
  {
    forall key ensures KeyInv(ReadRing(s, ev), key) {
      assert KeyInv(s, key);
      if key == ev.key { ReadRingOwn(s, ev); } else { ReadRingOther(s, ev, key); }
    }
    ReadRingLedger(s, ev);
    ReadRingQueue(s, ev);
  }

  lemma ReadRingLedger(s: Source, ev: Record)
    requires LedgerInv(s) && s.drainer.Ready?
    ensures LedgerInv(ReadRing(s, ev))
  {
    LedgerGrowth(s.lagged, ev.key, true);
    LedgerGrowth(s.lagged, ev.key, false);
  }

  lemma ReadRingQueue(s: Source, ev: Record)
    requires QueueInv(s)
    ensures QueueInv(ReadRing(s, ev))
  {
    SendQueue(s, ev);
    SendQueue(s, Tombstone(ev));
  }

  lemma DeclareLossInv(s: Source)
    requires Inv(s) && s.drainer.MustLose?
    ensures Inv(DeclareLoss(s))
  {
    var ev := s.drainer.ev;
    forall key ensures KeyInv(DeclareLoss(s), key) {
      assert KeyInv(s, key);
      ForwardLossKey(s, ev, DeclareLoss(s), key);
    }
    LedgerGrowth(s.lagged, ev.key, true);
    LedgerGrowth(s.lagged, ev.key, false);
    SendQueue(s, Tombstone(ev));
  }

  lemma TakeOneInv(s: Source)
    requires Inv(s) && s.out != []
    ensures Inv(TakeOne(s))
  {
    forall key ensures KeyInv(TakeOne(s), key) { assert KeyInv(s, key); }
  }

  /** Every step of the drain loop and of the channel keeps the invariant. */
  lemma NextInv(s: Source, s': Source)
    requires Inv(s) && Next(s, s')
    ensures Inv(s')
  {
    if s.drainer.Ready? && exists ev :: s' == ReadRing(s, ev) {
      var ev :| s' == ReadRing(s, ev);
      ReadRingInv(s, ev);
    } else if s.drainer.MustLose? && s' == DeclareLoss(s) {
      DeclareLossInv(s);
    } else {
      TakeOneInv(s);
    }
  }

  // ----- What the consumer may rely on ---------------------------------------

  /** The stream of one direction as the kernel reported it, up to the first
      tombstone of its connection: past that the bytes on record are no longer
      the bytes that were exchanged. */
  function BeforeLoss(recs: seq<Record>): seq<Record> {
    if recs == [] || recs[0].lagged then [] else [recs[0]] + BeforeLoss(recs[1..])
  }

  function TrueStream(hist: seq<Record>, key: ConnKey, dir: Direction): seq<Byte> {
    Stream(BeforeLoss(Of(key, hist)), key, dir)
  }

  lemma {:induction false} DataPrefixBeforeLoss(data: seq<Record>, read: seq<Record>)
    requires data <= read && AllData(data)
    ensures data <= BeforeLoss(read)
  {
    if data != [] {
      DataPrefixBeforeLoss(data[1..], read[1..]);
      assert data == [data[0]] + data[1..];
    }
  }

  lemma {:induction false} StreamPrefix(s: seq<Record>, t: seq<Record>, key: ConnKey, dir: Direction)
    requires s <= t
    ensures Stream(s, key, dir) <= Stream(t, key, dir)
  {
    assert t == s + t[|s|..];
    StreamConcat(s, t[|s|..], key, dir);
  }

  /** Whatever was put on the channel for one direction is a prefix of the true
      stream: no byte after a loss ever gets through. */
  lemma SentIsTruePrefix(s: Source, key: ConnKey, dir: Direction)
    requires Inv(s)
    ensures Stream(s.sent, key, dir) <= TrueStream(s.hist, key, dir)
  {
    assert KeyInv(s, key);
    var h, t := Of(key, s.hist), Of(key, s.sent);
    StreamOf(s.sent, key, dir);
    if MarkOf(s, key).Reported? {
      var data, last := t[..|t| - 1], t[|t| - 1];
      assert t == data + [last];
      StreamSnoc(data, last, key, dir);
      DataPrefixBeforeLoss(data, h);
      StreamPrefix(data, BeforeLoss(h), key, dir);
    } else {
      DataPrefixBeforeLoss(t, h);
      StreamPrefix(t, BeforeLoss(h), key, dir);
    }
  }

  lemma OnlyLastIsTombstone(s: Source, key: ConnKey, p: nat)
    requires Inv(s)
    requires p < |Of(key, s.sent)| && Of(key, s.sent)[p].lagged
    ensures p == |Of(key, s.sent)| - 1
  {
    assert KeyInv(s, key);
    var t := Of(key, s.sent);
    assert forall i :: 0 <= i < |t| - 1 ==> t[..|t| - 1][i] == t[i];
  }

  /** Nothing of a connection follows its tombstone on the channel. */
  lemma NothingAfterTombstone(s: Source, i: nat, j: nat)
    requires Inv(s)
    requires i < j < |s.sent| && s.sent[i].lagged
    ensures s.sent[i].key != s.sent[j].key
  {
    var key := s.sent[i].key;
    if s.sent[j].key == key {
      var p, q := OfOrder(key, s.sent, i, j);
      OnlyLastIsTombstone(s, key, p);
    }
  }

  // ----- What happens to one event -------------------------------------------

  /** Data of a connection with no loss on record is sent exactly when the channel
      has room. Any other event of a connection sends its tombstone, once, when
      there is room. The loop stops exactly when a 4097th connection would enter
      the ledger, and holds the record to declare it lost exactly when it could
      not be sent and the ledger has room. */
  lemma EventFate(s: Source, ev: Record)
    requires s.drainer.Ready?
    ensures var s' := ReadRing(s, ev);
            var known, room, full := ev.key in s.lagged, |s.out| < s.cap, |s.lagged| >= 4096;
            var owed := if known then !s.lagged[ev.key] else ev.lagged && !full;
            var now := if !room then [] else if !ev.lagged && !known then [ev]
                       else if owed then [Record(ev.key, ev.dir, [], true)] else [];
            && s'.hist == s.hist + [ev] && s'.out == s.out + now && s'.sent == s.sent + now
            && (s'.drainer.Stopped? <==> !known && full && (ev.lagged || !room))
            && (s'.drainer.MustLose? <==> !known && !full && !ev.lagged && !room)
            && (!s'.drainer.Ready? ==> s'.drainer.ev == ev)
            && (ev.key in s'.lagged <==> known || owed)
            && (owed ==> s'.lagged[ev.key] == room) && (known && !owed ==> s'.lagged[ev.key])
            && (forall k :: k != ev.key ==> (k in s'.lagged <==> k in s.lagged))
            && (forall k :: k != ev.key && k in s.lagged ==> s'.lagged[k] == s.lagged[k])
  {
    assert s.out + [] == s.out && s.sent + [] == s.sent;
  }

  /** A record that could not be sent enters the ledger, and its tombstone goes out
      exactly when there is room by then. */
  lemma LossFate(s: Source)
    requires LedgerInv(s) && s.drainer.MustLose?
    ensures var s', ev := DeclareLoss(s), s.drainer.ev;
            var room := |s.out| < s.cap;
            var now := if room then [Record(ev.key, ev.dir, [], true)] else [];
            && s'.drainer.Ready? && s'.hist == s.hist && s'.out == s.out + now && s'.sent == s.sent + now
            && s'.lagged == s.lagged[ev.key := room]
  {
    assert s.out + [] == s.out && s.sent + [] == s.sent;
  }

  // ----- The drain loop as it runs -------------------------------------------

  /** The drain goroutine's state, updated in place. */
  class DrainLoop {
    var out: seq<Record>
    var lagged: map<ConnKey, bool>
    var stopped: bool
    const cap: nat
    ghost var hist: seq<Record>
    ghost var sent: seq<Record>
    ghost var lastLost: Record

    ghost function View(): (s: Source)
      reads this
    {
      Source(out, cap, lagged, if stopped then Stopped(lastLost) else Ready, hist, sent)
    }

    constructor (capacity: nat)
      ensures cap == capacity && !stopped && Init(View())
    {
      cap := capacity;
      out, lagged, stopped := [], map[], false;
      hist, sent := [], [];
    }

    method Forward(ev: Record)
      modifies this
      ensures View() == ForwardLoss(old(View()), ev)
      ensures stopped == old(stopped) && lastLost == old(lastLost)
    {
      if ev.key in lagged && lagged[ev.key] {
        return;
      }
      var tomb := ev.(data := [], lagged := true);
      lagged := lagged[ev.key := false];
      if |out| < cap {
        out, sent := out + [tomb], sent + [tomb];
        lagged := lagged[ev.key := true];
      }
    }

    /** One iteration of the loop. freed is how many records the consumer takes
        between a failed send and the attempt to report the loss. */
    method Handle(ev: Record, freed: nat)
      requires !stopped
      modifies this
      ensures var s := ReadRing(old(View()), ev);
              if s.drainer.MustLose? then
                View() == DeclareLoss(s.(out := s.out[if freed <= |s.out| then freed else |s.out|..]))
              else View() == s
    {
      hist := hist + [ev];
      if ev.lagged {
        if ev.key in lagged && lagged[ev.key] {
          return;
        }
        if ev.key !in lagged && |lagged| >= MAX_LAGGED_CONNS {
          stopped, lastLost := true, ev;
          return;
        }
        Forward(ev);
        return;
      }
      if ev.key in lagged {
        if !lagged[ev.key] {
          Forward(ev);
        }
        return;
      }
      if |out| < cap {
        out, sent := out + [ev], sent + [ev];
        return;
      }
      if |lagged| >= MAX_LAGGED_CONNS {
        stopped, lastLost := true, ev;
        return;
      }
      out := out[if freed <= |out| then freed else |out|..];
      Forward(ev);
    }
  }
}
