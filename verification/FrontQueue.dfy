/** A front client's send queue: any number of senders reserve bytes before they
    try to queue a frame, and one writer releases them after the write. Every
    atomic action of either side is one step. */
module FrontQueue {

  const BUDGET := 0x100_0000
  const SLOTS := 256

  /** Where a sender stands inside trySend, with its frame's length. */
  datatype Sender = Idle | Admitted(n: nat) | Refused(n: nat)

  /** queued is the shared counter; channel holds the lengths of the queued
      frames; writing is the frame the writer has taken and not released. The
      last two record what was queued and what was written, in order. */
  datatype Queue = Queue(queued: int, senders: seq<Sender>, channel: seq<nat>, writing: seq<nat>, accepted: seq<nat>, written: seq<nat>)

  datatype Action = Reserve(i: nat, n: nat) | Send(i: nat) | Release(i: nat) | Receive | Wrote

  /** The reservation and the test of the value it returned. */
  function AfterReserve(q: Queue, i: nat, n: nat): Queue
    requires i < |q.senders|
  {
    var queued := q.queued + n;
    q.(queued := queued,
       senders := q.senders[i := if queued > BUDGET && queued != n then Refused(n) else Admitted(n)])
  }

  function AfterSend(q: Queue, i: nat): Queue
    requires i < |q.senders| && q.senders[i].Admitted?
  {
    var n := q.senders[i].n;
    if |q.channel| < SLOTS then
      q.(channel := q.channel + [n], accepted := q.accepted + [n], senders := q.senders[i := Idle])
    else q.(senders := q.senders[i := Refused(n)])
  }

  function AfterRelease(q: Queue, i: nat): Queue
    requires i < |q.senders| && q.senders[i].Refused?
  {
    q.(queued := q.queued - q.senders[i].n, senders := q.senders[i := Idle])
  }

  function AfterReceive(q: Queue): Queue
    requires q.channel != [] && q.writing == []
  {
    q.(channel := q.channel[1..], writing := [q.channel[0]])
  }

  function AfterWrote(q: Queue): Queue
    requires |q.writing| == 1
  {
    q.(queued := q.queued - q.writing[0], writing := [], written := q.written + q.writing)
  }

  predicate Enabled(q: Queue, a: Action) {
    match a
    case Reserve(i, _) => i < |q.senders| && q.senders[i].Idle?
    case Send(i) => i < |q.senders| && q.senders[i].Admitted?
    case Release(i) => i < |q.senders| && q.senders[i].Refused?
    case Receive => q.channel != [] && q.writing == []
    case Wrote => |q.writing| == 1
  }

  function Next(q: Queue, a: Action): Queue
    requires Enabled(q, a)
  {
    match a
    case Reserve(i, n) => AfterReserve(q, i, n)
    case Send(i) => AfterSend(q, i)
    case Release(i) => AfterRelease(q, i)
    case Receive => AfterReceive(q)
    case Wrote => AfterWrote(q)
  }

  predicate Runs(q: Queue, actions: seq<Action>)
    decreases |actions|
  {
    actions == [] || (Enabled(q, actions[0]) && Runs(Next(q, actions[0]), actions[1..]))
  }

  function After(q: Queue, actions: seq<Action>): Queue
    requires Runs(q, actions)
    decreases |actions|
  {
    if actions == [] then q else After(Next(q, actions[0]), actions[1..])
  }

  function Fresh(senders: nat): Queue { Queue(0, seq(senders, _ => Idle), [], [], [], []) }

  // ----- Accounting ----------------------------------------------------------

  function Total<T>(s: seq<T>, weight: T -> nat): nat {
    if s == [] then 0 else Total(s[..|s| - 1], weight) + weight(s[|s| - 1])
  }

  function Bytes(n: nat): nat { n }
  function Weighs(n: nat): nat { if n > 0 then 1 else 0 }

  function Reserved(s: Sender): nat { if s.Idle? then 0 else s.n }
  function AdmittedBytes(s: Sender): nat { if s.Admitted? then s.n else 0 }
  function AdmittedWeighs(s: Sender): nat { if s.Admitted? then Weighs(s.n) else 0 }

  /** Bytes reserved and not yet given back. */
  function Outstanding(q: Queue): nat { Total(q.senders, Reserved) + Total(q.channel, Bytes) + Total(q.writing, Bytes) }

  /** Bytes of the frames that passed the budget test and are not yet written. */
  function Unwritten(q: Queue): nat { Total(q.senders, AdmittedBytes) + Total(q.channel, Bytes) + Total(q.writing, Bytes) }

  /** How many of those frames are not empty. */
  function Frames(q: Queue): nat { Total(q.senders, AdmittedWeighs) + Total(q.channel, Weighs) + Total(q.writing, Weighs) }

  predicate Inv(q: Queue) {
    q.queued == Outstanding(q) && |q.channel| <= SLOTS && |q.writing| <= 1 &&
    q.accepted == q.written + q.writing + q.channel &&
    (Unwritten(q) <= BUDGET || Frames(q) == 1)
  }

  lemma {:induction false} TotalUpdate<T>(s: seq<T>, i: nat, x: T, weight: T -> nat)
    requires i < |s|
    ensures Total(s[i := x], weight) == Total(s, weight) - weight(s[i]) + weight(x)
  {
    var n := |s| - 1;
    if i == n {
      assert s[i := x][..n] == s[..n];
    } else {
      assert s[i := x][..n] == s[..n][i := x];
      TotalUpdate(s[..n], i, x, weight);
    }
  }

  lemma TotalSnoc<T>(s: seq<T>, x: T, weight: T -> nat)
    ensures Total(s + [x], weight) == Total(s, weight) + weight(x)
  {
    assert (s + [x])[..|s|] == s;
  }

  lemma TotalOne<T>(x: T, weight: T -> nat)
    ensures Total([x], weight) == weight(x)
  {
    assert [x][..0] == [];
  }

  lemma {:induction false} TotalUncons<T>(s: seq<T>, weight: T -> nat)
    requires s != []
    ensures Total(s, weight) == weight(s[0]) + Total(s[1..], weight)
  {
    var n := |s| - 1;
    if n > 0 {
      TotalUncons(s[..n], weight);
      assert s[..n][1..] == s[1..][..n - 1] && s[1..][n - 1] == s[n];
    } else {
      assert s[..0] == [];
    }
  }

  lemma {:induction false} TotalOrder<T>(s: seq<T>, light: T -> nat, heavy: T -> nat)
    requires forall x :: light(x) <= heavy(x)
    ensures Total(s, light) <= Total(s, heavy)
  {
    if s != [] { TotalOrder(s[..|s| - 1], light, heavy); }
  }

  lemma {:induction false} TotalZero<T>(s: seq<T>, w: T -> nat, v: T -> nat)
    requires forall x :: w(x) == 0 <==> v(x) == 0
    ensures Total(s, w) == 0 <==> Total(s, v) == 0
  {
    if s != [] { TotalZero(s[..|s| - 1], w, v); }
  }

  /** No bytes unwritten means no non-empty frame unwritten, and all unwritten
      bytes are outstanding. */
  lemma Weights(q: Queue)
    ensures Unwritten(q) <= Outstanding(q) && (Unwritten(q) == 0 <==> Frames(q) == 0)
  {
    TotalOrder(q.senders, AdmittedBytes, Reserved);
    TotalZero(q.senders, AdmittedBytes, AdmittedWeighs);
    TotalZero(q.channel, Bytes, Weighs);
    TotalZero(q.writing, Bytes, Weighs);
  }

  // ----- Every step keeps the invariant --------------------------------------

  lemma SenderMoves(q: Queue, i: nat, s: Sender)
    requires i < |q.senders|
    ensures var q' := q.(senders := q.senders[i := s]);
            Outstanding(q') == Outstanding(q) - Reserved(q.senders[i]) + Reserved(s) &&
            Unwritten(q') == Unwritten(q) - AdmittedBytes(q.senders[i]) + AdmittedBytes(s) &&
            Frames(q') == Frames(q) - AdmittedWeighs(q.senders[i]) + AdmittedWeighs(s)
  {
    TotalUpdate(q.senders, i, s, Reserved);
    TotalUpdate(q.senders, i, s, AdmittedBytes);
    TotalUpdate(q.senders, i, s, AdmittedWeighs);
  }

  /** Only a reservation can add unwritten bytes, and it is tested first. */
  lemma ReserveInv(q: Queue, i: nat, n: nat)
    requires Inv(q) && Enabled(q, Reserve(i, n))
    ensures Inv(AfterReserve(q, i, n))
  {
    Weights(q);
    SenderMoves(q, i, AfterReserve(q, i, n).senders[i]);
  }

  lemma SendInv(q: Queue, i: nat)
    requires Inv(q) && Enabled(q, Send(i))
    ensures Inv(AfterSend(q, i))
  {
    var n := q.senders[i].n;
    Weights(AfterSend(q, i));
    if |q.channel| < SLOTS {
      SenderMoves(q, i, Idle);
      TotalSnoc(q.channel, n, Bytes);
      TotalSnoc(q.channel, n, Weighs);
      assert q.written + q.writing + q.channel + [n] == q.written + q.writing + (q.channel + [n]);
    } else {
      SenderMoves(q, i, Refused(n));
    }
  }

  lemma ReleaseInv(q: Queue, i: nat)
    requires Inv(q) && Enabled(q, Release(i))
    ensures Inv(AfterRelease(q, i))
  {
    SenderMoves(q, i, Idle);
  }

  lemma ReceiveInv(q: Queue)
    requires Inv(q) && Enabled(q, Receive)
    ensures Inv(AfterReceive(q))
  {
    TotalUncons(q.channel, Bytes);
    TotalUncons(q.channel, Weighs);
    TotalOne(q.channel[0], Bytes);
    TotalOne(q.channel[0], Weighs);
    assert q.written + [] + q.channel == q.written + [q.channel[0]] + q.channel[1..];
  }

  lemma WroteInv(q: Queue)
    requires Inv(q) && Enabled(q, Wrote)
    ensures Inv(AfterWrote(q))
  {
    var n := q.writing[0];
    assert q.writing == [n];
    TotalOne(n, Bytes);
    TotalOne(n, Weighs);
    Weights(AfterWrote(q));
    assert q.written + q.writing + q.channel == q.written + q.writing + [] + q.channel;
  }

  lemma NextInv(q: Queue, a: Action)
    requires Inv(q) && Enabled(q, a)
    ensures Inv(Next(q, a))
  {
    match a
    case Reserve(i, n) => ReserveInv(q, i, n);
    case Send(i) => SendInv(q, i);
    case Release(i) => ReleaseInv(q, i);
    case Receive => ReceiveInv(q);
    case Wrote => WroteInv(q);
  }

  lemma {:induction false} AfterInv(q: Queue, actions: seq<Action>)
    requires Inv(q) && Runs(q, actions)
    ensures Inv(After(q, actions))
    decreases |actions|
  {
    if actions != [] {
      NextInv(q, actions[0]);
      AfterInv(Next(q, actions[0]), actions[1..]);
    }
  }

  lemma {:induction false} IdleTotal(k: nat, weight: Sender -> nat)
    requires weight(Idle) == 0
    ensures Total(seq(k, _ => Idle), weight) == 0
  {
    if k > 0 {
      IdleTotal(k - 1, weight);
      assert seq(k, _ => Idle)[..k - 1] == seq(k - 1, _ => Idle);
    }
  }

  lemma FreshInv(k: nat)
    ensures Inv(Fresh(k))
  {
    IdleTotal(k, Reserved);
    IdleTotal(k, AdmittedBytes);
    IdleTotal(k, AdmittedWeighs);
  }

  /** In every run, the counter is what is reserved and never negative, frames are
      written in the order they were queued and none is lost, and the admitted
      bytes not yet written stay within the budget unless a single frame holds
      them all. */
  lemma QueueSafe(senders: nat, actions: seq<Action>)
    requires Runs(Fresh(senders), actions)
    ensures var q := After(Fresh(senders), actions);
            q.queued == Outstanding(q) >= 0 &&
            q.accepted == q.written + q.writing + q.channel &&
            (Unwritten(q) <= 16 * 1024 * 1024 || Frames(q) == 1)
  {
    FreshInv(senders);
    AfterInv(Fresh(senders), actions);
  }

  /** A frame over the whole budget is admitted exactly when nothing is reserved;
      any other exactly when it still fits with everything reserved, which
      includes reservations about to be withdrawn. */
  lemma AdmittedIff(q: Queue, i: nat, n: nat)
    requires Inv(q) && Enabled(q, Reserve(i, n))
    ensures AfterReserve(q, i, n).senders[i].Admitted? <==> Outstanding(q) == 0 || Outstanding(q) + n <= 16 * 1024 * 1024
  {
  }

  /** So a frame that fits beside everything unwritten can be turned away while
      another sender's refused reservation is still counted. */
  lemma TransientRefusal()
    ensures var run := [Reserve(0, 1), Reserve(1, BUDGET)];
            Runs(Fresh(3), run) &&
            var q := After(Fresh(3), run);
            Unwritten(q) + 1 <= BUDGET && |q.senders| == 3 && AfterReserve(q, 2, 1).senders[2].Refused?
  {
    var q0, a, b := Fresh(3), Reserve(0, 1), Reserve(1, BUDGET);
    var q1 := Next(q0, a);
    var q2 := Next(q1, b);
    assert [a, b][1..] == [b] && [b][1..] == [];
    assert After(q1, [b]) == q2 && After(q0, [a, b]) == q2;
    FreshInv(3);
    SenderMoves(q0, 0, Admitted(1));
    SenderMoves(q1, 1, Refused(BUDGET));
    IdleTotal(3, AdmittedBytes);
  }

  // ----- The client object ---------------------------------------------------

  ghost predicate Quiet(q: Queue) { Inv(q) && q.senders == [Idle] && q.writing == [] }

  /** The three ways through trySend, as steps. */
  ghost function TurnedAway(q: Queue, n: nat): (q': Queue)
    requires Quiet(q) && q.queued != 0 && q.queued + n > BUDGET
    ensures Quiet(q') && q' == q
  {
    NextInv(q, Reserve(0, n));
    var r := AfterReserve(q, 0, n);
    NextInv(r, Release(0));
    AfterRelease(r, 0)
  }

  ghost function Queued(q: Queue, n: nat): (q': Queue)
    requires Quiet(q) && (q.queued == 0 || q.queued + n <= BUDGET) && |q.channel| < SLOTS
    ensures Quiet(q') && q' == q.(queued := q.queued + n, channel := q.channel + [n], accepted := q.accepted + [n])
  {
    NextInv(q, Reserve(0, n));
    var r := AfterReserve(q, 0, n);
    NextInv(r, Send(0));
    AfterSend(r, 0)
  }

  ghost function FoundFull(q: Queue, n: nat): (q': Queue)
    requires Quiet(q) && (q.queued == 0 || q.queued + n <= BUDGET) && |q.channel| >= SLOTS
    ensures Quiet(q') && q' == q
  {
    NextInv(q, Reserve(0, n));
    var r := AfterReserve(q, 0, n);
    NextInv(r, Send(0));
    var f := AfterSend(r, 0);
    NextInv(f, Release(0));
    AfterRelease(f, 0)
  }

  /** One sender and the writer, each call run without interruption. */
  class FrontClient {
    var queuedBytes: int
    var send: seq<nat>
    ghost var history: Queue

    /** The fields are those of the step model with its sender idle. */
    ghost predicate Valid()
      reads this
    {
      Quiet(history) && queuedBytes == history.queued && send == history.channel
    }

    constructor ()
      ensures Valid() && history == Fresh(1)
    {
      queuedBytes, send, history := 0, [], Fresh(1);
      new;
      FreshInv(1);
      assert Fresh(1).senders == [Idle];
    }

    method TrySend(n: nat) returns (ok: bool)
      requires Valid()
      modifies this
      ensures Valid() && history.written == old(history.written)
      ensures ok <==> (old(queuedBytes) == 0 || old(queuedBytes) + n <= 16 * 1024 * 1024) && |old(send)| < 256
      ensures send == if ok then old(send) + [n] else old(send)
      ensures queuedBytes == if ok then old(queuedBytes) + n else old(queuedBytes)
      ensures history.accepted == if ok then old(history.accepted) + [n] else old(history.accepted)
    {
      ghost var was := history;
      queuedBytes := queuedBytes + n;
      if queuedBytes > BUDGET && queuedBytes != n {
        queuedBytes := queuedBytes - n;
        history := TurnedAway(was, n);
        return false;
      }
      if |send| < SLOTS {
        send := send + [n];
        history := Queued(was, n);
        return true;
      }
      queuedBytes := queuedBytes - n;
      history := FoundFull(was, n);
      return false;
    }

    /** The writer takes the oldest frame, writes it and releases its bytes. */
    method WriteOne() returns (n: nat)
      requires Valid() && send != []
      modifies this
      ensures Valid() && n == old(send)[0] && send == old(send)[1..] && queuedBytes == old(queuedBytes) - n
      ensures history.written == old(history.written) + [n] && history.accepted == old(history.accepted)
    {
      n := send[0];
      send := send[1..];
      NextInv(history, Receive);
      history := AfterReceive(history);
      queuedBytes := queuedBytes - n;
      NextInv(history, Wrote);
      history := AfterWrote(history);
    }
  }
}
