/** Request/response pairing on one worker: the pending queues, requests that
    are reserved before their body is read, responses parked on them, and every
    way a pending request can be lost. Any number of request and response goroutines
    interleave freely; every step below is one critical section or one emission. */
module Pairing {
  import opened Basics

  type Key = string

  const BACKLOG_CAP := 1024

  /** A pending request. resp is a response parked on it while it was unfilled. */
  datatype Pending = Pending(key: Key, ts: int, filled: bool, resp: Option<nat>)

  /** A response goroutine. Captures that share a connection key each have their own. */
  datatype Lane = Lane(key: Key, id: nat)

  /** A request and the response it was matched with, by number. */
  type Pair = (nat, nat)

  /** conns holds the queues. Requests are numbered in the order they were
      queued and responses in the order they were parsed: reqs and resps list
      them. waiting is the response each response goroutine currently tries to
      place. paired records matches in the order they were made, hand
      the ones some goroutine is about to emit, emitted the entries sent out. */
  datatype State = State(conns: map<Key, seq<nat>>, reqs: seq<Pending>, resps: seq<Lane>,
                         waiting: map<Lane, nat>, paired: seq<Pair>, hand: set<Pair>, emitted: seq<Pair>)

  function Queue(s: State, key: Key): seq<nat> { if key in s.conns then s.conns[key] else [] }

  // ----- Steps ---------------------------------------------------------------

  function Bounded(q: seq<nat>): seq<nat> { if |q| > BACKLOG_CAP then q[1..] else q }

  /** Queue a request, complete (filled) or reserved before its body is read. */
  function Append(s: State, key: Key, ts: int, filled: bool): State {
    s.(reqs := s.reqs + [Pending(key, ts, filled, None)],
       conns := s.conns[key := Bounded(Queue(s, key) + [|s.reqs|])])
  }

  /** The body is in: hand back a response that was parked meanwhile. */
  function Fill(s: State, r: nat): State
    requires r < |s.reqs|
  {
    var p := s.reqs[r];
    s.(reqs := s.reqs[r := p.(filled := true, resp := None)],
       hand := if p.resp.Some? then s.hand + {(r, p.resp.value)} else s.hand)
  }

  /** A response has been parsed; its goroutine starts looking for the request. */
  function Arrive(s: State, lane: Lane): State {
    s.(resps := s.resps + [lane], waiting := s.waiting[lane := |s.resps|])
  }

  /** One attempt that finds a pending request: the head of the queue is matched,
      and the response is either emitted here or parked for the filler. */
  function Complete(s: State, lane: Lane): State
    requires lane in s.waiting && Queue(s, lane.key) != [] && Queue(s, lane.key)[0] < |s.reqs|
  {
    var key := lane.key;
    var r, p := Queue(s, key)[0], s.waiting[lane];
    var s' := s.(conns := s.conns[key := s.conns[key][1..]], waiting := s.waiting - {lane}, paired := s.paired + [(r, p)]);
    if s.reqs[r].filled then s'.(hand := s.hand + {(r, p)})
    else s'.(reqs := s.reqs[r := s.reqs[r].(resp := Some(p))])
  }

  /** The retries are used up on an empty queue. */
  function GiveUp(s: State, lane: Lane): State { s.(waiting := s.waiting - {lane}) }

  function Emit(s: State, pair: Pair): State {
    s.(hand := s.hand - {pair}, emitted := s.emitted + [pair])
  }

  /** A lost segment, or the map over its cap: whole queues disappear. */
  function Forget(s: State, keys: set<Key>): State { s.(conns := s.conns - keys) }

  function Fresh(s: State, q: seq<nat>, cutoff: int): seq<nat>
    requires forall i :: 0 <= i < |q| ==> q[i] < |s.reqs|
  {
    if q == [] then []
    else
      var rest := Fresh(s, q[..|q| - 1], cutoff);
      var r := q[|q| - 1];
      if s.reqs[r].ts < cutoff then rest else rest + [r]
  }

  /** Garbage collection of one connection: stale requests go, and the entry with
      them once it is empty. */
  function Prune(s: State, key: Key, cutoff: int): State
    requires forall i :: 0 <= i < |Queue(s, key)| ==> Queue(s, key)[i] < |s.reqs|
  {
    if key !in s.conns then s
    else
      var kept := Fresh(s, Queue(s, key), cutoff);
      if kept == [] then s.(conns := s.conns - {key}) else s.(conns := s.conns[key := kept])
  }

  // ----- Invariant -----------------------------------------------------------

  ghost predicate InRange(s: State) {
    && (forall i :: 0 <= i < |s.paired| ==> s.paired[i].0 < |s.reqs| && s.paired[i].1 < |s.resps|)
    && (forall lane :: lane in s.waiting ==> s.waiting[lane] < |s.resps| && s.resps[s.waiting[lane]] == lane)
  }

  ghost predicate PairOf(s: State, i: nat, key: Key)
    requires i < |s.paired|
  {
    s.paired[i].0 < |s.reqs| && s.reqs[s.paired[i].0].key == key
  }

  ghost predicate LaneOf(s: State, i: nat, lane: Lane)
    requires i < |s.paired|
  {
    s.paired[i].1 < |s.resps| && s.resps[s.paired[i].1] == lane
  }

  /** A match joins a request and a response of the same connection. */
  ghost predicate JoinedAt(s: State, i: nat)
    requires i < |s.paired|
  {
    s.paired[i].0 < |s.reqs| && s.paired[i].1 < |s.resps| && s.reqs[s.paired[i].0].key == s.resps[s.paired[i].1].key
  }

  ghost predicate Joined(s: State) { forall i :: 0 <= i < |s.paired| ==> JoinedAt(s, i) }

  /** Matches of one connection are strictly increasing on the request side, and
      those of one response goroutine on the response side. */
  ghost predicate Increasing(s: State) { RequestsIncrease(s) && ResponsesIncrease(s) }

  ghost predicate RequestsIncrease(s: State) {
    forall i, j, key :: 0 <= i < j < |s.paired| && PairOf(s, i, key) && PairOf(s, j, key) ==> s.paired[i].0 < s.paired[j].0
  }

  ghost predicate ResponsesIncrease(s: State) {
    forall i, j, lane :: 0 <= i < j < |s.paired| && LaneOf(s, i, lane) && LaneOf(s, j, lane) ==> s.paired[i].1 < s.paired[j].1
  }

  /** A queue holds requests of its own connection, oldest first, none of them
      matched, and all of them younger than every match of the connection. */
  ghost predicate QueueOk(s: State, key: Key, q: seq<nat>) {
    && (forall i :: 0 <= i < |q| ==> q[i] < |s.reqs| && s.reqs[q[i]].key == key && s.reqs[q[i]].resp.None?)
    && (forall i, j :: 0 <= i < j < |q| ==> q[i] < q[j])
    && (forall i, k :: 0 <= i < |q| && 0 <= k < |s.paired| && PairOf(s, k, key) ==> s.paired[k].0 < q[i])
  }

  /** The waiting response is younger than every matched one of its goroutine. */
  ghost predicate LaneInv(s: State, lane: Lane) {
    forall k :: 0 <= k < |s.paired| && LaneOf(s, k, lane) && lane in s.waiting ==> s.paired[k].1 < s.waiting[lane]
  }

  ghost predicate KeyInv(s: State, key: Key) { QueueOk(s, key, Queue(s, key)) }

  predicate Parked(s: State, pair: Pair) {
    pair.0 < |s.reqs| && s.reqs[pair.0].resp == Some(pair.1)
  }

  ghost predicate NoDuplicates(pairs: seq<Pair>) {
    forall i, j :: 0 <= i < j < |pairs| ==> pairs[i] != pairs[j]
  }

  /** Every match is in exactly one place: emitted once, in some goroutine's hand,
      or parked on an unfilled request. */
  ghost predicate Placed(s: State) {
    && NoDuplicates(s.emitted)
    && (forall pair :: pair in s.emitted ==> pair in s.paired && pair !in s.hand && !Parked(s, pair))
    && (forall pair :: pair in s.hand ==> pair in s.paired && !Parked(s, pair))
    && (forall r :: 0 <= r < |s.reqs| && s.reqs[r].resp.Some? ==> !s.reqs[r].filled && (r, s.reqs[r].resp.value) in s.paired)
    && (forall pair :: pair in s.paired ==> pair in s.emitted || pair in s.hand || Parked(s, pair))
  }

  /** What is emitted, or about to be, has its request's body. */
  ghost predicate OutIsFilled(s: State) {
    forall pair :: pair in s.hand || pair in s.emitted ==> pair.0 < |s.reqs| && s.reqs[pair.0].filled
  }

  ghost predicate Inv(s: State) {
    OutIsFilled(s) && InRange(s) && Joined(s) && Increasing(s) && (forall key :: KeyInv(s, key)) && (forall lane :: LaneInv(s, lane)) && Placed(s)
  }

  ghost predicate Init(s: State) {
    s == State(map[], [], [], map[], [], {}, [])
  }

  lemma InitInv(s: State)
    requires Init(s)
    ensures Inv(s)
  {
  }

  // ----- Appending -----------------------------------------------------------

  /** Matches keep their connection as long as requests do. */
  lemma SamePairs(s: State, s': State)
    requires |s.reqs| <= |s'.reqs| && (forall r :: 0 <= r < |s.reqs| ==> s'.reqs[r].key == s.reqs[r].key)
    requires InRange(s) && s.paired <= s'.paired
    ensures forall i, k :: 0 <= i < |s.paired| ==> PairOf(s', i, k) == PairOf(s, i, k)
  {
    forall i, k | 0 <= i < |s.paired| ensures PairOf(s', i, k) == PairOf(s, i, k) {
      assert s'.paired[i] == s.paired[i];
    }
  }

  lemma SameLanes(s: State, s': State, lane: Lane)
    requires InRange(s) && LaneInv(s, lane) && s'.paired == s.paired && s.resps <= s'.resps
    requires lane in s'.waiting ==> lane in s.waiting && s'.waiting[lane] == s.waiting[lane]
    ensures LaneInv(s', lane)
  {
    forall i | 0 <= i < |s.paired| ensures LaneOf(s', i, lane) == LaneOf(s, i, lane) {}
  }

  /** Nothing about matches or responses changes. */
  lemma StillIncreasing(s: State, s': State)
    requires InRange(s) && Increasing(s) && s'.paired == s.paired && s.resps <= s'.resps
    requires |s.reqs| <= |s'.reqs| && (forall r :: 0 <= r < |s.reqs| ==> s'.reqs[r].key == s.reqs[r].key)
    ensures Increasing(s')
  {
    SamePairs(s, s');
    forall i, lane | 0 <= i < |s.paired| ensures LaneOf(s', i, lane) == LaneOf(s, i, lane) {}
  }

  lemma StillJoined(s: State, s': State)
    requires Joined(s) && s'.paired == s.paired && s.resps <= s'.resps
    requires |s.reqs| <= |s'.reqs| && (forall r :: 0 <= r < |s.reqs| ==> s'.reqs[r].key == s.reqs[r].key)
    ensures Joined(s')
  {
    forall i | 0 <= i < |s'.paired| ensures JoinedAt(s', i) { assert JoinedAt(s, i); }
  }

  lemma QueueTail(s: State, key: Key, q: seq<nat>)
    requires QueueOk(s, key, q) && q != []
    ensures QueueOk(s, key, q[1..])
  {
    assert forall i :: 0 <= i < |q| - 1 ==> q[1..][i] == q[i + 1];
  }

  lemma AppendKey(s: State, key: Key, ts: int, filled: bool, k: Key)
    requires InRange(s) && KeyInv(s, k)
    ensures KeyInv(Append(s, key, ts, filled), k)
  {
    var s' := Append(s, key, ts, filled);
    SamePairs(s, s');
    if k == key {
      QueueSnoc(s, s', k, Queue(s, k));
      QueueTail(s', k, Queue(s, k) + [|s.reqs|]);
    } else {
      QueueSame(s, s', k, Queue(s, k));
    }
  }

  lemma QueueSame(s: State, s': State, k: Key, q: seq<nat>)
    requires InRange(s) && QueueOk(s, k, q) && s'.paired == s.paired && s.reqs <= s'.reqs
    ensures QueueOk(s', k, q)
  {
    SamePairs(s, s');
  }

  lemma QueueSnoc(s: State, s': State, k: Key, q: seq<nat>)
    requires InRange(s) && QueueOk(s, k, q)
    requires s'.paired == s.paired && |s'.reqs| == |s.reqs| + 1 && s'.reqs[..|s.reqs|] == s.reqs
    requires s'.reqs[|s.reqs|].key == k && s'.reqs[|s.reqs|].resp.None?
    ensures QueueOk(s', k, q + [|s.reqs|])
  {
    var q', n := q + [|s.reqs|], |s.reqs|;
    SamePairs(s, s');
    forall i | 0 <= i < |q'| ensures q'[i] < |s'.reqs| && s'.reqs[q'[i]].key == k && s'.reqs[q'[i]].resp.None? {
      if i < |q| {
        assert q[i] < n;
        assert s'.reqs[q[i]] == s'.reqs[..n][q[i]];
      }
    }
  }

  lemma AppendPlaced(s: State, key: Key, ts: int, filled: bool)
    requires InRange(s) && Placed(s)
    ensures Placed(Append(s, key, ts, filled))
  {
    var s' := Append(s, key, ts, filled);
    forall pair: Pair | pair in s.paired ensures Parked(s', pair) == Parked(s, pair) {}
  }

  lemma AppendInv(s: State, key: Key, ts: int, filled: bool)
    requires Inv(s)
    ensures Inv(Append(s, key, ts, filled))
  {
    var s' := Append(s, key, ts, filled);
    forall k ensures KeyInv(s', k) { AppendKey(s, key, ts, filled, k); }
    forall lane ensures LaneInv(s', lane) { assert LaneInv(s, lane); SameLanes(s, s', lane); }
    AppendPlaced(s, key, ts, filled);
    StillIncreasing(s, s');
    StillJoined(s, s');
  }

  // ----- Matching ------------------------------------------------------------

  lemma CompleteRequests(s: State, lane: Lane)
    requires InRange(s) && RequestsIncrease(s) && KeyInv(s, lane.key)
    requires lane in s.waiting && Queue(s, lane.key) != []
    ensures RequestsIncrease(Complete(s, lane))
  {
    var s', n := Complete(s, lane), |s.paired|;
    SamePairs(s, s');
    assert PairOf(s', n, lane.key);
    forall i, j, k | 0 <= i < j < n + 1 && PairOf(s', i, k) && PairOf(s', j, k) ensures s'.paired[i].0 < s'.paired[j].0 {
      assert PairOf(s, i, k);
      if j == n {
        assert k == lane.key;
      }
    }
  }

  lemma CompleteResponses(s: State, lane: Lane)
    requires InRange(s) && ResponsesIncrease(s) && LaneInv(s, lane)
    requires KeyInv(s, lane.key) && lane in s.waiting && Queue(s, lane.key) != []
    ensures ResponsesIncrease(Complete(s, lane))
  {
    var s', n := Complete(s, lane), |s.paired|;
    forall i, l | 0 <= i < n ensures LaneOf(s', i, l) == LaneOf(s, i, l) {}
    assert LaneOf(s', n, lane);
    forall i, j, l | 0 <= i < j < n + 1 && LaneOf(s', i, l) && LaneOf(s', j, l) ensures s'.paired[i].1 < s'.paired[j].1 {
      assert LaneOf(s, i, l);
      if j == n {
        assert l == lane;
      }
    }
  }

  lemma CompleteJoined(s: State, lane: Lane)
    requires InRange(s) && Joined(s) && KeyInv(s, lane.key) && lane in s.waiting && Queue(s, lane.key) != []
    ensures Joined(Complete(s, lane))
  {
    var s', n := Complete(s, lane), |s.paired|;
    forall i | 0 <= i < |s'.paired| ensures JoinedAt(s', i) {
      if i < n { assert JoinedAt(s, i) && s'.paired[i] == s.paired[i]; }
    }
  }

  lemma CompletePairs(s: State, lane: Lane)
    requires InRange(s) && Increasing(s) && KeyInv(s, lane.key) && LaneInv(s, lane)
    requires lane in s.waiting && Queue(s, lane.key) != []
    ensures InRange(Complete(s, lane)) && Increasing(Complete(s, lane))
  {
    CompleteRequests(s, lane);
    CompleteResponses(s, lane);
  }

  lemma CompleteLane(s: State, lane: Lane, l: Lane)
    requires InRange(s) && LaneInv(s, l) && KeyInv(s, lane.key) && lane in s.waiting && Queue(s, lane.key) != []
    ensures LaneInv(Complete(s, lane), l)
  {
    var s', n := Complete(s, lane), |s.paired|;
    forall i | 0 <= i < n ensures LaneOf(s', i, l) == LaneOf(s, i, l) {}
    assert LaneOf(s', n, lane);
  }

  /** The queue of another connection, or the rest of the matched one. */
  lemma CompleteKey(s: State, lane: Lane, k: Key)
    requires InRange(s) && KeyInv(s, lane.key) && KeyInv(s, k)
    requires lane in s.waiting && Queue(s, lane.key) != []
    ensures KeyInv(Complete(s, lane), k)
  {
    if k == lane.key { CompleteOwn(s, lane); } else { CompleteOther(s, lane, k); }
  }

  /** A queue stays in order if its requests stay unmatched and any new match of its
      connection is older than all of them. */
  lemma QueueKeeps(s: State, s': State, k: Key, q: seq<nat>)
    requires InRange(s) && QueueOk(s, k, q) && |s'.paired| == |s.paired| + 1 && s.paired <= s'.paired
    requires |s'.reqs| == |s.reqs| && (forall r :: 0 <= r < |s.reqs| ==> s'.reqs[r].key == s.reqs[r].key)
    requires forall i :: 0 <= i < |q| ==> s'.reqs[q[i]] == s.reqs[q[i]]
    requires PairOf(s', |s.paired|, k) ==> forall i :: 0 <= i < |q| ==> s'.paired[|s.paired|].0 < q[i]
    ensures QueueOk(s', k, q)
  {
    SamePairs(s, s');
    forall i, n | 0 <= i < |q| && 0 <= n < |s'.paired| && PairOf(s', n, k) ensures s'.paired[n].0 < q[i] {
      if n < |s.paired| { assert PairOf(s, n, k) && s'.paired[n] == s.paired[n]; }
    }
  }

  lemma CompleteOwn(s: State, lane: Lane)
    requires InRange(s) && KeyInv(s, lane.key)
    requires lane in s.waiting && Queue(s, lane.key) != []
    ensures KeyInv(Complete(s, lane), lane.key)
  {
    var key := lane.key;
    var s', q := Complete(s, lane), Queue(s, key);
    var t := q[1..];
    QueueTail(s, key, q);
    assert Queue(s', key) == t;
    assert forall i :: 0 <= i < |t| ==> t[i] == q[i + 1];
    assert forall i :: 0 <= i < |t| ==> q[0] < t[i];
    QueueKeeps(s, s', key, t);
  }

  lemma CompleteOther(s: State, lane: Lane, k: Key)
    requires InRange(s) && KeyInv(s, lane.key) && KeyInv(s, k) && k != lane.key
    requires lane in s.waiting && Queue(s, lane.key) != []
    ensures KeyInv(Complete(s, lane), k)
  {
    var s', q, r := Complete(s, lane), Queue(s, k), Queue(s, lane.key)[0];
    assert Queue(s', k) == q;
    assert s.reqs[r].key == lane.key;
    assert forall i :: 0 <= i < |q| ==> q[i] != r;
    assert !PairOf(s', |s.paired|, k);
    QueueKeeps(s, s', k, q);
  }

  /** The head of a queue is in no match yet. */
  lemma Unmatched(s: State, key: Key, pair: Pair)
    requires InRange(s) && KeyInv(s, key) && Queue(s, key) != [] && pair in s.paired
    ensures pair.0 != Queue(s, key)[0]
  {
    var k :| 0 <= k < |s.paired| && s.paired[k] == pair;
    assert PairOf(s, k, key) ==> pair.0 < Queue(s, key)[0];
  }

  /** A new match goes into some goroutine's hand. */
  lemma PlacedInHand(s: State, s': State, pair: Pair)
    requires Placed(s) && pair.0 < |s.reqs| && s.reqs[pair.0].resp.None? && pair !in s.paired
    requires s'.reqs == s.reqs && s'.paired == s.paired + [pair] && s'.hand == s.hand + {pair} && s'.emitted == s.emitted
    ensures Placed(s')
  {
    forall p: Pair ensures Parked(s', p) == Parked(s, p) {}
    assert forall p :: p in s'.paired <==> p in s.paired || p == pair;
  }

  /** Or is parked on its request. */
  lemma PlacedOnRequest(s: State, s': State, pair: Pair)
    requires Placed(s) && pair.0 < |s.reqs| && s.reqs[pair.0].resp.None? && !s.reqs[pair.0].filled
    requires pair !in s.paired && (forall p :: p in s.paired ==> p.0 != pair.0)
    requires s'.reqs == s.reqs[pair.0 := s.reqs[pair.0].(resp := Some(pair.1))]
    requires s'.paired == s.paired + [pair] && s'.hand == s.hand && s'.emitted == s.emitted
    ensures Placed(s')
  {
    forall p: Pair | p.0 != pair.0 ensures Parked(s', p) == Parked(s, p) {}
    assert Parked(s', pair) && forall p :: p in s'.paired <==> p in s.paired || p == pair;
  }

  lemma CompletePlaced(s: State, lane: Lane)
    requires Inv(s) && lane in s.waiting && Queue(s, lane.key) != []
    ensures KeyInv(s, lane.key) && Placed(Complete(s, lane))
  {
    assert KeyInv(s, lane.key);
    var r, p := Queue(s, lane.key)[0], s.waiting[lane];
    forall pair | pair in s.paired ensures pair.0 != r { Unmatched(s, lane.key, pair); }
    if s.reqs[r].filled {
      PlacedInHand(s, Complete(s, lane), (r, p));
    } else {
      PlacedOnRequest(s, Complete(s, lane), (r, p));
    }
  }

  lemma CompleteInv(s: State, lane: Lane)
    requires Inv(s) && lane in s.waiting && Queue(s, lane.key) != []
    ensures KeyInv(s, lane.key) && Inv(Complete(s, lane))
  {
    assert KeyInv(s, lane.key) && LaneInv(s, lane);
    CompletePairs(s, lane);
    CompleteJoined(s, lane);
    CompletePlaced(s, lane);
    forall k ensures KeyInv(Complete(s, lane), k) {
      assert KeyInv(s, k);
      CompleteKey(s, lane, k);
    }
    forall l ensures LaneInv(Complete(s, lane), l) {
      assert LaneInv(s, l);
      CompleteLane(s, lane, l);
    }
  }

  // ----- Filling and emitting ------------------------------------------------

  lemma FillInv(s: State, r: nat)
    requires Inv(s) && r < |s.reqs| && !s.reqs[r].filled
    ensures Inv(Fill(s, r))
  {
    var s' := Fill(s, r);
    SamePairs(s, s');
    StillIncreasing(s, s');
    StillJoined(s, s');
    forall k ensures KeyInv(s', k) { assert KeyInv(s, k); }
    forall lane ensures LaneInv(s', lane) { assert LaneInv(s, lane); SameLanes(s, s', lane); }
    FillPlaced(s, r);
  }

  lemma FillPlaced(s: State, r: nat)
    requires Placed(s) && r < |s.reqs|
    ensures Placed(Fill(s, r))
  {
    var s' := Fill(s, r);
    forall pair: Pair | pair.0 != r ensures Parked(s', pair) == Parked(s, pair) {}
    if s.reqs[r].resp.Some? {
      assert Parked(s, (r, s.reqs[r].resp.value));
    }
  }

  lemma EmitInv(s: State, pair: Pair)
    requires Inv(s) && pair in s.hand
    ensures Inv(Emit(s, pair))
  {
    var s' := Emit(s, pair);
    forall k ensures KeyInv(s', k) { assert KeyInv(s, k); SameKey(s, s', k); }
    forall lane ensures LaneInv(s', lane) { assert LaneInv(s, lane); SameLanes(s, s', lane); }
    StillIncreasing(s, s');
    StillJoined(s, s');
    EmitPlaced(s, pair);
  }

  lemma EmitPlaced(s: State, pair: Pair)
    requires Placed(s) && pair in s.hand
    ensures Placed(Emit(s, pair))
  {
    var s' := Emit(s, pair);
    forall other: Pair ensures Parked(s', other) == Parked(s, other) {}
    assert pair in s'.emitted;
  }

  lemma SameKey(s: State, s': State, k: Key)
    requires KeyInv(s, k)
    requires s'.reqs == s.reqs && s'.paired == s.paired
    requires Queue(s', k) == Queue(s, k)
    ensures KeyInv(s', k)
  {
    forall i | 0 <= i < |s.paired| ensures PairOf(s', i, k) == PairOf(s, i, k) {}
  }

  // ----- Arriving, giving up, losing -----------------------------------------

  lemma ArriveLane(s: State, lane: Lane, l: Lane)
    requires InRange(s) && LaneInv(s, l)
    ensures LaneInv(Arrive(s, lane), l)
  {
    var s' := Arrive(s, lane);
    forall i | 0 <= i < |s.paired| ensures LaneOf(s', i, l) == LaneOf(s, i, l) {}
  }

  lemma ArriveInv(s: State, lane: Lane)
    requires Inv(s)
    ensures Inv(Arrive(s, lane))
  {
    var s' := Arrive(s, lane);
    StillIncreasing(s, s');
    StillJoined(s, s');
    forall k ensures KeyInv(s', k) { assert KeyInv(s, k); SameKey(s, s', k); }
    forall l ensures LaneInv(s', l) { assert LaneInv(s, l); ArriveLane(s, lane, l); }
    forall pair: Pair ensures Parked(s', pair) == Parked(s, pair) {}
  }

  /** s' is s with some queues shortened to subsequences of themselves and some
      responses given up on. */
  ghost predicate Loses(s: State, s': State) {
    && s' == s.(conns := s'.conns, waiting := s'.waiting)
    && (forall lane :: lane in s'.waiting ==> lane in s.waiting && s'.waiting[lane] == s.waiting[lane])
    && forall k :: Subsequence(Queue(s', k), Queue(s, k))
  }

  ghost predicate Subsequence(t: seq<nat>, q: seq<nat>) {
    exists at: seq<nat> :: Embeds(t, q, at)
  }

  ghost predicate Embeds(t: seq<nat>, q: seq<nat>, at: seq<nat>) {
    && |at| == |t|
    && (forall i :: 0 <= i < |t| ==> at[i] < |q| && q[at[i]] == t[i])
    && (forall i, j :: 0 <= i < j < |t| ==> at[i] < at[j])
  }

  lemma SubsequenceOk(s: State, k: Key, t: seq<nat>, q: seq<nat>)
    requires QueueOk(s, k, q) && Subsequence(t, q)
    ensures QueueOk(s, k, t)
  {
    var at: seq<nat> :| Embeds(t, q, at);
    assert forall i :: 0 <= i < |t| ==> t[i] == q[at[i]];
  }

  lemma LosesKey(s: State, s': State, k: Key)
    requires InRange(s) && KeyInv(s, k) && Loses(s, s')
    ensures KeyInv(s', k)
  {
    SamePairs(s, s');
    SubsequenceOk(s, k, Queue(s', k), Queue(s, k));
    assert QueueOk(s', k, Queue(s', k));
  }

  lemma LosesInv(s: State, s': State)
    requires Inv(s) && Loses(s, s')
    ensures Inv(s')
  {
    forall k ensures KeyInv(s', k) {
      assert KeyInv(s, k);
      LosesKey(s, s', k);
    }
    forall lane ensures LaneInv(s', lane) { assert LaneInv(s, lane); SameLanes(s, s', lane); }
    StillIncreasing(s, s');
    StillJoined(s, s');
    forall pair: Pair ensures Parked(s', pair) == Parked(s, pair) {}
  }

  lemma Whole(q: seq<nat>)
    ensures Subsequence(q, q) && Subsequence([], q)
  {
    assert Embeds(q, q, seq(|q|, i => i));
    assert Embeds([], q, []);
  }

  lemma {:induction false} FreshSubsequence(s: State, q: seq<nat>, cutoff: int)
    requires forall i :: 0 <= i < |q| ==> q[i] < |s.reqs|
    ensures Subsequence(Fresh(s, q, cutoff), q)
  {
    if q == [] {
      Whole(q);
    } else {
      var init, r := q[..|q| - 1], q[|q| - 1];
      FreshSubsequence(s, init, cutoff);
      var rest := Fresh(s, init, cutoff);
      var at: seq<nat> :| Embeds(rest, init, at);
      assert Embeds(rest, q, at);
      assert Embeds(rest + [r], q, at + [|q| - 1]);
    }
  }

  lemma ForgetLoses(s: State, keys: set<Key>)
    ensures Loses(s, Forget(s, keys))
  {
    forall k ensures Subsequence(Queue(Forget(s, keys), k), Queue(s, k)) { Whole(Queue(s, k)); }
  }

  lemma GiveUpLoses(s: State, lane: Lane)
    ensures Loses(s, GiveUp(s, lane))
  {
    forall k ensures Subsequence(Queue(GiveUp(s, lane), k), Queue(s, k)) { Whole(Queue(s, k)); }
  }

  lemma PruneLoses(s: State, key: Key, cutoff: int)
    requires KeyInv(s, key)
    ensures Loses(s, Prune(s, key, cutoff))
  {
    forall k ensures Subsequence(Queue(Prune(s, key, cutoff), k), Queue(s, k)) {
      Whole(Queue(s, k));
      if k == key { FreshSubsequence(s, Queue(s, key), cutoff); }
    }
  }

  function Count(q: seq<nat>, r: nat): nat { multiset(q)[r] }

  lemma {:induction false} FreshCounts(s: State, q: seq<nat>, cutoff: int, r: nat)
    requires forall i :: 0 <= i < |q| ==> q[i] < |s.reqs|
    ensures Count(Fresh(s, q, cutoff), r) == if r < |s.reqs| && s.reqs[r].ts >= cutoff then Count(q, r) else 0
  {
    if q != [] {
      var init, last := q[..|q| - 1], q[|q| - 1];
      FreshCounts(s, init, cutoff, r);
      assert q == init + [last];
    }
  }

  /** After a prune of a connection a request is queued there exactly as before if
      it is no older than the cutoff and not at all otherwise, in the old order; the
      connection is gone exactly when none is left, and nothing else changes. */
  lemma PruneKeepsFresh(s: State, key: Key, cutoff: int)
    requires forall i :: 0 <= i < |Queue(s, key)| ==> Queue(s, key)[i] < |s.reqs|
    ensures var s' := Prune(s, key, cutoff);
            && Pruned(s.reqs, Queue(s, key), Queue(s', key), cutoff)
            && (key in s'.conns <==> exists r :: r in Queue(s, key) && s.reqs[r].ts >= cutoff)
            && s' == s.(conns := s'.conns)
            && (forall k :: k != key ==> (k in s'.conns <==> k in s.conns) && Queue(s', k) == Queue(s, k))
  {
    var q, s' := Queue(s, key), Prune(s, key, cutoff);
    var kept := Fresh(s, q, cutoff);
    assert Queue(s', key) == kept;
    FreshSubsequence(s, q, cutoff);
    forall r: nat ensures Count(kept, r) == if r < |s.reqs| && s.reqs[r].ts >= cutoff then Count(q, r) else 0 {
      FreshCounts(s, q, cutoff, r);
    }
    if kept != [] { assert Count(kept, kept[0]) > 0 && Count(q, kept[0]) > 0; }
    forall r: nat | r in q && s.reqs[r].ts >= cutoff ensures kept != [] { assert Count(q, r) > 0 && Count(kept, r) > 0; }
  }

  /** q' is what is left of q: every request no older than the cutoff as often as
      before, no other, and in the old order. */
  ghost predicate Pruned(reqs: seq<Pending>, q: seq<nat>, q': seq<nat>, cutoff: int) {
    && Subsequence(q', q)
    && forall r: nat :: Count(q', r) == if r < |reqs| && reqs[r].ts >= cutoff then Count(q, r) else 0
  }

  /** Pruning changes nothing exactly when something is queued and all of it is fresh.
      So while a queue is ordered by time, and only the head decides, a connection
      whose oldest request is fresh needs no visit. */
  lemma FreshHeadNeedsNoVisit(s: State, key: Key, cutoff: int)
    requires key in s.conns && forall i :: 0 <= i < |Queue(s, key)| ==> Queue(s, key)[i] < |s.reqs|
    ensures var q := Queue(s, key);
            && (Prune(s, key, cutoff) == s <==> q != [] && forall i :: 0 <= i < |q| ==> s.reqs[q[i]].ts >= cutoff)
            && ((forall i, j :: 0 <= i < j < |q| ==> s.reqs[q[i]].ts <= s.reqs[q[j]].ts) ==>
                  (Prune(s, key, cutoff) == s <==> q != [] && s.reqs[q[0]].ts >= cutoff))
  {
    var q := Queue(s, key);
    if i :| 0 <= i < |q| && s.reqs[q[i]].ts < cutoff {
      FreshCounts(s, q, cutoff, q[i]);
      assert Count(q, q[i]) > 0;
    } else if q != [] {
      AllFresh(s, q, cutoff);
      assert s.conns[key := q] == s.conns;
    }
  }

  /** A request takes its time before it gets the lock, so one queued second may be
      the older: then the head is fresh and the visit is skipped although it would
      drop an expired request. */
  lemma SkippedVisitKeepsStale(key: Key)
    ensures var s := Append(Append(State(map[], [], [], map[], [], {}, []), key, 10, true), key, 1, true);
            && Queue(s, key) == [0, 1] && s.reqs[0].ts >= 5 > s.reqs[1].ts && Prune(s, key, 5) != s
  {
    var s := Append(Append(State(map[], [], [], map[], [], {}, []), key, 10, true), key, 1, true);
    assert Queue(s, key) == [0, 1];
    FreshHeadNeedsNoVisit(s, key, 5);
    assert s.reqs[Queue(s, key)[1]].ts == 1;
  }

  lemma {:induction false} AllFresh(s: State, q: seq<nat>, cutoff: int)
    requires forall i :: 0 <= i < |q| ==> q[i] < |s.reqs| && s.reqs[q[i]].ts >= cutoff
    ensures Fresh(s, q, cutoff) == q
  {
    if q != [] {
      AllFresh(s, q[..|q| - 1], cutoff);
      assert q == q[..|q| - 1] + [q[|q| - 1]];
    }
  }

  // ----- Runs ----------------------------------------------------------------

  datatype Step =
    | DoAppend(key: Key, ts: int, filled: bool)
    | DoFill(r: nat)
    | DoArrive(lane: Lane)
    | DoComplete(lane: Lane)
    | DoGiveUp(lane: Lane)
    | DoEmit(pair: Pair)
    | DoPurge(key: Key)
    | DoEvict(keys: set<Key>)
    | DoPrune(key: Key, cutoff: int)

  /** When a step can happen. A request is filled once, by the goroutine that
      reserved it; a response goroutine places one response at a time and gives up
      only on an empty queue. */
  ghost predicate Enabled(s: State, a: Step) {
    match a
    case DoFill(r) => r < |s.reqs| && !s.reqs[r].filled
    case DoArrive(lane) => lane !in s.waiting
    case DoComplete(lane) => lane in s.waiting && Queue(s, lane.key) != [] && Queue(s, lane.key)[0] < |s.reqs|
    case DoGiveUp(lane) => lane in s.waiting && Queue(s, lane.key) == []
    case DoEmit(pair) => pair in s.hand
    case DoPrune(key, _) => forall i :: 0 <= i < |Queue(s, key)| ==> Queue(s, key)[i] < |s.reqs|
    case _ => true
  }

  ghost function Apply(s: State, a: Step): State
    requires Enabled(s, a)
  {
    match a
    case DoAppend(key, ts, filled) => Append(s, key, ts, filled)
    case DoFill(r) => Fill(s, r)
    case DoArrive(lane) => Arrive(s, lane)
    case DoComplete(lane) => Complete(s, lane)
    case DoGiveUp(lane) => GiveUp(s, lane)
    case DoEmit(pair) => Emit(s, pair)
    case DoPurge(key) => Forget(s, {key})
    case DoEvict(keys) => Forget(s, keys)
    case DoPrune(key, cutoff) => Prune(s, key, cutoff)
  }

  /** b is a run that takes the steps in order. */
  ghost predicate Run(b: seq<State>, steps: seq<Step>) {
    && |b| == |steps| + 1 && Init(b[0])
    && forall i :: 0 <= i < |steps| ==> Enabled(b[i], steps[i]) && b[i + 1] == Apply(b[i], steps[i])
  }

  lemma StepInv(s: State, a: Step)
    requires Inv(s) && Enabled(s, a)
    ensures Inv(Apply(s, a))
  {
    match a
    case DoAppend(key, ts, filled) => AppendInv(s, key, ts, filled);
    case DoFill(r) => FillInv(s, r);
    case DoArrive(lane) => ArriveInv(s, lane);
    case DoComplete(lane) => CompleteInv(s, lane);
    case DoGiveUp(lane) => GiveUpLoses(s, lane); LosesInv(s, GiveUp(s, lane));
    case DoEmit(pair) => EmitInv(s, pair);
    case DoPurge(key) => ForgetLoses(s, {key}); LosesInv(s, Forget(s, {key}));
    case DoEvict(keys) => ForgetLoses(s, keys); LosesInv(s, Forget(s, keys));
    case DoPrune(key, cutoff) =>
      assert KeyInv(s, key);
      PruneLoses(s, key, cutoff);
      LosesInv(s, Prune(s, key, cutoff));
  }

  lemma {:induction false} RunInv(b: seq<State>, steps: seq<Step>, n: nat)
    requires Run(b, steps) && n < |b|
    ensures Inv(b[n])
  {
    if n == 0 {
      InitInv(b[0]);
    } else {
      RunInv(b, steps, n - 1);
      StepInv(b[n - 1], steps[n - 1]);
    }
  }

  // ----- Main results --------------------------------------------------------

  /** In every run each match joins a request and a response of one connection; the
      matches of a connection are strictly increasing in request order, those of one
      response goroutine also in response order; and every match has exactly one
      place: emitted once, about to be emitted, or parked until its request is
      filled. */
  lemma MatchingIsMonotone(b: seq<State>, steps: seq<Step>, n: nat)
    requires Run(b, steps) && n < |b|
    ensures Joined(b[n]) && Increasing(b[n]) && Placed(b[n]) && OutIsFilled(b[n])
  {
    RunInv(b, steps, n);
  }

  // ----- When responses keep their order -------------------------------------

  /** The matches of a connection are strictly increasing in response order, too. */
  ghost predicate InResponseOrder(s: State, key: Key) {
    forall i, j :: 0 <= i < j < |s.paired| && PairOf(s, i, key) && PairOf(s, j, key) ==> s.paired[i].1 < s.paired[j].1
  }

  /** No two goroutines of the connection have a response to place. */
  ghost predicate AtMostOneWaits(s: State, key: Key) {
    forall l, m :: l in s.waiting && m in s.waiting && l.key == key && m.key == key ==> l == m
  }

  /** A waiting response of the connection is younger than every matched one. */
  ghost predicate YoungerThanMatched(s: State, key: Key, lane: Lane)
    requires lane in s.waiting
  {
    forall k :: 0 <= k < |s.paired| && PairOf(s, k, key) ==> s.paired[k].1 < s.waiting[lane]
  }

  ghost predicate WaitersYounger(s: State, key: Key) {
    forall lane :: lane in s.waiting && lane.key == key ==> YoungerThanMatched(s, key, lane)
  }

  lemma OrderedArrive(s: State, lane: Lane, key: Key)
    requires InRange(s) && InResponseOrder(s, key) && WaitersYounger(s, key)
    ensures InResponseOrder(Arrive(s, lane), key) && WaitersYounger(Arrive(s, lane), key)
  {
    var s' := Arrive(s, lane);
    SamePairs(s, s');
    forall l | l in s'.waiting && l.key == key ensures YoungerThanMatched(s', key, l) {
      if l != lane { assert YoungerThanMatched(s, key, l); }
    }
  }

  lemma OrderedComplete(s: State, lane: Lane, key: Key)
    requires InRange(s) && KeyInv(s, lane.key) && InResponseOrder(s, key) && WaitersYounger(s, key) && AtMostOneWaits(s, key)
    requires lane in s.waiting && Queue(s, lane.key) != []
    ensures InResponseOrder(Complete(s, lane), key) && WaitersYounger(Complete(s, lane), key)
  {
    var s', n := Complete(s, lane), |s.paired|;
    SamePairs(s, s');
    assert PairOf(s', n, key) <==> lane.key == key;
    if lane.key == key { assert YoungerThanMatched(s, key, lane); }
    forall i, j | 0 <= i < j < n + 1 && PairOf(s', i, key) && PairOf(s', j, key) ensures s'.paired[i].1 < s'.paired[j].1 {
      assert PairOf(s, i, key) && s'.paired[i] == s.paired[i];
      if j < n { assert PairOf(s, j, key) && s'.paired[j] == s.paired[j]; }
    }
    forall l | l in s'.waiting && l.key == key ensures YoungerThanMatched(s', key, l) {
      assert YoungerThanMatched(s, key, l);
    }
  }

  /** Any other step leaves matches alone and lets no goroutine begin to wait. */
  lemma OrderedFrame(s: State, s': State, key: Key)
    requires InRange(s) && InResponseOrder(s, key) && WaitersYounger(s, key) && s'.paired == s.paired
    requires |s.reqs| <= |s'.reqs| && (forall r :: 0 <= r < |s.reqs| ==> s'.reqs[r].key == s.reqs[r].key)
    requires forall l :: l in s'.waiting ==> l in s.waiting && s'.waiting[l] == s.waiting[l]
    ensures InResponseOrder(s', key) && WaitersYounger(s', key)
  {
    SamePairs(s, s');
    forall l | l in s'.waiting && l.key == key ensures YoungerThanMatched(s', key, l) {
      assert YoungerThanMatched(s, key, l);
    }
  }

  lemma OrderedStep(s: State, a: Step, key: Key)
    requires Inv(s) && Enabled(s, a) && InResponseOrder(s, key) && WaitersYounger(s, key) && AtMostOneWaits(s, key)
    ensures InResponseOrder(Apply(s, a), key) && WaitersYounger(Apply(s, a), key)
  {
    match a
    case DoArrive(lane) => OrderedArrive(s, lane, key);
    case DoComplete(lane) => assert KeyInv(s, lane.key); OrderedComplete(s, lane, key);
    case _ => OrderedFrame(s, Apply(s, a), key);
  }

  lemma {:induction false} OrderedRun(b: seq<State>, steps: seq<Step>, n: nat, key: Key)
    requires Run(b, steps) && n < |b| && forall k :: 0 <= k < n ==> AtMostOneWaits(b[k], key)
    ensures InResponseOrder(b[n], key) && WaitersYounger(b[n], key)
  {
    if n > 0 {
      OrderedRun(b, steps, n - 1, key);
      RunInv(b, steps, n - 1);
      OrderedStep(b[n - 1], steps[n - 1], key);
    }
  }

  /** In every run, whatever was dropped, purged, evicted or given up: as long as no
      two goroutines of a connection had a response to place at once, its matches are
      strictly increasing in both request and response order. */
  lemma OneAtATimeKeepsOrder(b: seq<State>, steps: seq<Step>, n: nat, key: Key, i: nat, j: nat)
    requires Run(b, steps) && n < |b| && forall k :: 0 <= k < n ==> AtMostOneWaits(b[k], key)
    requires i < j < |b[n].paired| && PairOf(b[n], i, key) && PairOf(b[n], j, key)
    ensures b[n].paired[i].0 < b[n].paired[j].0 && b[n].paired[i].1 < b[n].paired[j].1
  {
    OrderedRun(b, steps, n, key);
    RunInv(b, steps, n);
  }

  /** Filling a request whose response is parked moves exactly that match into
      the filler's hand; it was nowhere else. */
  lemma FillerEmitsParked(b: seq<State>, steps: seq<Step>, n: nat, r: nat, p: nat)
    requires Run(b, steps) && n < |steps| && steps[n] == DoFill(r) && r < |b[n].reqs| && b[n].reqs[r].resp == Some(p)
    ensures (r, p) !in b[n].hand && (r, p) !in b[n].emitted
    ensures (r, p) in b[n + 1].hand && !Parked(b[n + 1], (r, p)) && (r, p) in b[n + 1].paired
  {
    RunInv(b, steps, n);
    RunInv(b, steps, n + 1);
    assert Parked(b[n], (r, p));
  }

  ghost predicate AllFrom(q: seq<nat>, n: nat) { forall i :: 0 <= i < |q| ==> q[i] >= n }

  /** The queue of key and its matches from number p0 on hold only requests from
      number n on. */
  ghost predicate Young(s: State, key: Key, n: nat, p0: nat) {
    && AllFrom(Queue(s, key), n) && n <= |s.reqs|
    && forall m :: p0 <= m < |s.paired| && PairOf(s, m, key) ==> s.paired[m].0 >= n
  }

  lemma YoungComplete(s: State, lane: Lane, key: Key, n: nat, p0: nat)
    requires InRange(s) && KeyInv(s, lane.key) && Young(s, key, n, p0) && lane in s.waiting && Queue(s, lane.key) != []
    ensures Young(Complete(s, lane), key, n, p0)
  {
    var k := lane.key;
    var s', q := Complete(s, lane), Queue(s, k);
    SamePairs(s, s');
    assert s'.paired[|s.paired|].0 == q[0] && s.reqs[q[0]].key == k;
    if k == key {
      assert Queue(s', key) == q[1..];
      assert forall i :: 0 <= i < |q[1..]| ==> q[1..][i] == q[i + 1];
    } else {
      assert Queue(s', key) == Queue(s, key);
    }
  }

  lemma YoungPrune(s: State, k: Key, cutoff: int, key: Key, n: nat, p0: nat)
    requires InRange(s) && KeyInv(s, k) && Young(s, key, n, p0)
    ensures Young(Prune(s, k, cutoff), key, n, p0)
  {
    var s' := Prune(s, k, cutoff);
    PruneLoses(s, k, cutoff);
    SubsequenceFrom(Queue(s', key), Queue(s, key), n);
    YoungFrame(s, s', key, n, p0);
  }

  lemma YoungFrame(s: State, s': State, key: Key, n: nat, p0: nat)
    requires Young(s, key, n, p0) && s'.paired == s.paired && s'.reqs == s.reqs && AllFrom(Queue(s', key), n)
    ensures Young(s', key, n, p0)
  {
    forall m | 0 <= m < |s.paired| ensures PairOf(s', m, key) == PairOf(s, m, key) {}
  }

  lemma SubsequenceFrom(t: seq<nat>, q: seq<nat>, n: nat)
    requires Subsequence(t, q) && AllFrom(q, n)
    ensures AllFrom(t, n)
  {
    var at: seq<nat> :| Embeds(t, q, at);
    assert forall i :: 0 <= i < |t| ==> t[i] == q[at[i]];
  }

  lemma YoungStep(s: State, a: Step, key: Key, n: nat, p0: nat)
    requires Inv(s) && Enabled(s, a) && Young(s, key, n, p0)
    ensures Young(Apply(s, a), key, n, p0)
  {
    match a
    case DoPrune(k, cutoff) => assert KeyInv(s, k); YoungPrune(s, k, cutoff, key, n, p0);
    case DoComplete(lane) => assert KeyInv(s, lane.key); YoungComplete(s, lane, key, n, p0);
    case _ => SamePairs(s, Apply(s, a));
  }

  lemma {:induction false} YoungRun(b: seq<State>, steps: seq<Step>, i: nat, j: nat, key: Key)
    requires Run(b, steps) && i < j < |b| && steps[i] == DoPurge(key)
    ensures Young(b[j], key, |b[i].reqs|, |b[i].paired|)
    decreases j
  {
    if j == i + 1 {
      assert b[j] == Forget(b[i], {key});
    } else {
      YoungRun(b, steps, i, j - 1, key);
      RunInv(b, steps, j - 1);
      YoungStep(b[j - 1], steps[j - 1], key, |b[i].reqs|, |b[i].paired|);
    }
  }

  /** No request queued before a purge is ever matched after it. */
  lemma PurgeForgets(b: seq<State>, steps: seq<Step>, i: nat, j: nat, key: Key, m: nat)
    requires Run(b, steps) && i < j < |b| && steps[i] == DoPurge(key)
    requires |b[i].paired| <= m < |b[j].paired| && PairOf(b[j], m, key)
    ensures b[j].paired[m].0 >= |b[i].reqs|
  {
    YoungRun(b, steps, i, j, key);
  }

  // ----- Two goroutines on one key -------------------------------------------

  lemma ExtendRun(b: seq<State>, steps: seq<Step>, a: Step) returns (b': seq<State>, steps': seq<Step>)
    requires Run(b, steps) && Enabled(b[|b| - 1], a)
    ensures b' == b + [Apply(b[|b| - 1], a)] && steps' == steps + [a] && Run(b', steps')
  {
    b', steps' := b + [Apply(b[|b| - 1], a)], steps + [a];
    forall i | 0 <= i < |steps'| ensures Enabled(b'[i], steps'[i]) && b'[i + 1] == Apply(b'[i], steps'[i]) {
      if i < |steps| { assert b'[i] == b[i] && b'[i + 1] == b[i + 1] && steps'[i] == steps[i]; }
    }
  }

  lemma TwoQueued(key: Key) returns (b: seq<State>, steps: seq<Step>)
    ensures Run(b, steps) && |b| == 3
    ensures var p := Pending(key, 0, true, None); b[2] == State(map[key := [0, 1]], [p, p], [], map[], [], {}, [])
  {
    var s0 := State(map[], [], [], map[], [], {}, []);
    b, steps := [s0], [];
    var p := Pending(key, 0, true, None);
    b, steps := ExtendRun(b, steps, DoAppend(key, 0, true));
    assert Queue(s0, key) + [0] == [0];
    assert b[1] == s0.(conns := map[key := [0]], reqs := [p]);
    b, steps := ExtendRun(b, steps, DoAppend(key, 0, true));
    assert Queue(b[1], key) + [1] == [0, 1];
  }

  /** From any state, one goroutine's response is matched with a fresh request of its
      connection, whose older requests were just purged. */
  lemma FreshMatch(b: seq<State>, steps: seq<Step>, lane: Lane) returns (b': seq<State>, steps': seq<Step>)
    requires Run(b, steps) && lane in b[|b| - 1].waiting
    ensures Run(b', steps') && b <= b' && steps <= steps'
    ensures var s, s' := b[|b| - 1], b'[|b'| - 1];
            && s'.paired == s.paired + [(|s.reqs|, s.waiting[lane])] && s'.waiting == s.waiting - {lane}
            && |s'.reqs| == |s.reqs| + 1 && s'.reqs[|s.reqs|].key == lane.key
  {
    var s, key := b[|b| - 1], lane.key;
    b', steps' := ExtendRun(b, steps, DoPurge(key));
    var s1 := Forget(s, {key});
    assert b'[|b'| - 1] == s1 && Queue(s1, key) == [];
    b', steps' := ExtendRun(b', steps', DoAppend(key, 0, true));
    var s2 := Append(s1, key, 0, true);
    assert b'[|b'| - 1] == s2 && Queue(s1, key) + [|s.reqs|] == [|s.reqs|];
    assert Queue(s2, key) == [|s.reqs|];
    b', steps' := ExtendRun(b', steps', DoComplete(lane));
    assert b'[|b'| - 1] == Complete(s2, lane);
  }

  /** And the condition is exact: every run that ends with two goroutines of a
      connection waiting goes on to one in which its matches are out of response
      order. */
  lemma TwoAtOnceMayCross(b: seq<State>, steps: seq<Step>, key: Key) returns (b': seq<State>, steps': seq<Step>)
    requires Run(b, steps) && !AtMostOneWaits(b[|b| - 1], key)
    ensures Run(b', steps') && b <= b' && steps <= steps' && !InResponseOrder(b'[|b'| - 1], key)
  {
    var s := b[|b| - 1];
    RunInv(b, steps, |b| - 1);
    var l, m :| l in s.waiting && m in s.waiting && l.key == key && m.key == key && l != m;
    if s.waiting[l] < s.waiting[m] {
      b', steps' := YoungerFirst(b, steps, l, m);
    } else {
      assert s.resps[s.waiting[l]] == l && s.resps[s.waiting[m]] == m;
      b', steps' := YoungerFirst(b, steps, m, l);
    }
  }

  lemma YoungerFirst(b: seq<State>, steps: seq<Step>, older: Lane, younger: Lane)
      returns (b': seq<State>, steps': seq<Step>)
    requires Run(b, steps) && older.key == younger.key
    requires var s := b[|b| - 1]; older in s.waiting && younger in s.waiting && s.waiting[older] < s.waiting[younger]
    ensures Run(b', steps') && b <= b' && steps <= steps' && !InResponseOrder(b'[|b'| - 1], older.key)
  {
    var s, key := b[|b| - 1], older.key;
    var b1, steps1 := FreshMatch(b, steps, younger);
    var s1 := b1[|b1| - 1];
    assert older in s1.waiting && s1.waiting[older] == s.waiting[older];
    b', steps' := FreshMatch(b1, steps1, older);
    RunInv(b', steps', |b'| - 1);
    var s', n := b'[|b'| - 1], |s.paired|;
    assert s'.paired[n] == (|s.reqs|, s.waiting[younger]) && s'.paired[n + 1] == (|s.reqs| + 1, s.waiting[older]);
    CrossedPairs(b', steps', |b1| - 1, |b'| - 1, n, key);
    assert PairOf(s', n + 1, key);
  }

  lemma {:induction false} KeysStay(b: seq<State>, steps: seq<Step>, m: nat, n: nat, r: nat)
    requires Run(b, steps) && m <= n < |b| && r < |b[m].reqs|
    ensures r < |b[n].reqs| && b[n].reqs[r].key == b[m].reqs[r].key
    decreases n
  {
    if m < n {
      KeysStay(b, steps, m, n - 1, r);
      KeyStays(b[n - 1], steps[n - 1], r);
    }
  }

  lemma KeyStays(s: State, a: Step, r: nat)
    requires Enabled(s, a) && r < |s.reqs|
    ensures r < |Apply(s, a).reqs| && Apply(s, a).reqs[r].key == s.reqs[r].key
  {
  }

  lemma CrossedPairs(b: seq<State>, steps: seq<Step>, m: nat, n: nat, i: nat, key: Key)
    requires Run(b, steps) && m <= n < |b| && i < |b[m].paired| && PairOf(b[m], i, key) && b[m].paired <= b[n].paired
    ensures PairOf(b[n], i, key)
  {
    KeysStay(b, steps, m, n, b[m].paired[i].0);
  }

  /** Two requests are queued, and each of two goroutines of their connection has a
      response in hand. */
  lemma TwoWaiting(key: Key) returns (b: seq<State>, steps: seq<Step>)
    ensures Run(b, steps) && |b| == 5
    ensures var p := Pending(key, 0, true, None);
            b[4] == State(map[key := [0, 1]], [p, p], [Lane(key, 0), Lane(key, 1)],
                          map[Lane(key, 0) := 0, Lane(key, 1) := 1], [], {}, [])
  {
    b, steps := TwoQueued(key);
    var s2 := b[2];
    b, steps := ExtendRun(b, steps, DoArrive(Lane(key, 0)));
    assert b[3] == s2.(resps := [Lane(key, 0)], waiting := map[Lane(key, 0) := 0]);
    b, steps := ExtendRun(b, steps, DoArrive(Lane(key, 1)));
    assert b[4].resps == [Lane(key, 0), Lane(key, 1)];
  }

  /** Requests are still matched in order, but the responses may cross: the second
      response is placed first. */
  lemma LanesMayCross(key: Key) returns (b: seq<State>, steps: seq<Step>)
    ensures Run(b, steps) && |b| == 7 && b[6].paired == [(0, 1), (1, 0)]
    ensures b[6].resps == [Lane(key, 0), Lane(key, 1)]
  {
    b, steps := TwoWaiting(key);
    var s := b[4];
    b, steps := ExtendRun(b, steps, DoComplete(Lane(key, 1)));
    assert b[5] == Complete(s, Lane(key, 1));
    assert Queue(b[5], key) == [1];
    b, steps := ExtendRun(b, steps, DoComplete(Lane(key, 0)));
    assert b[6] == Complete(b[5], Lane(key, 0));
  }

  // ----- Runs without losses -------------------------------------------------

  /** The requests of a connection, by number. */
  function ReqsOf(reqs: seq<Pending>, key: Key): seq<nat> {
    if reqs == [] then []
    else
      var before := ReqsOf(reqs[..|reqs| - 1], key);
      if reqs[|reqs| - 1].key == key then before + [|reqs| - 1] else before
  }

  function RespsOf(resps: seq<Lane>, key: Key): seq<nat> {
    if resps == [] then []
    else
      var before := RespsOf(resps[..|resps| - 1], key);
      if resps[|resps| - 1].key == key then before + [|resps| - 1] else before
  }

  /** The matches of a connection, in order. */
  function PairsOf(reqs: seq<Pending>, paired: seq<Pair>, key: Key): seq<Pair> {
    if paired == [] then []
    else
      var before, last := PairsOf(reqs, paired[..|paired| - 1], key), paired[|paired| - 1];
      if last.0 < |reqs| && reqs[last.0].key == key then before + [last] else before
  }

  function Firsts(pairs: seq<Pair>): seq<nat> { seq(|pairs|, i requires 0 <= i < |pairs| => pairs[i].0) }
  function Seconds(pairs: seq<Pair>): seq<nat> { seq(|pairs|, i requires 0 <= i < |pairs| => pairs[i].1) }

  /** The goroutine of a connection that only one capture feeds. */
  function Main(key: Key): Lane { Lane(key, 0) }

  /** A step that drops nothing, of connections with one response goroutine each. */
  ghost predicate NoLoss(s: State, a: Step) {
    match a
    case DoArrive(lane) => lane == Main(lane.key)
    case DoAppend(key, _, _) => |Queue(s, key)| < BACKLOG_CAP
    case DoGiveUp(_) => false
    case DoPurge(_) => false
    case DoEvict(_) => false
    case DoPrune(_, _) => false
    case _ => true
  }

  ghost predicate LosslessRun(b: seq<State>, steps: seq<Step>) {
    Run(b, steps) && forall i :: 0 <= i < |steps| ==> NoLoss(b[i], steps[i])
  }

  function Waiters(s: State, key: Key): seq<nat> { if Main(key) in s.waiting then [s.waiting[Main(key)]] else [] }

  ghost predicate OnlyMain(s: State) { forall lane :: lane in s.waiting ==> lane == Main(lane.key) }

  /** Requests are matched or queued, responses matched or waiting, in order. */
  ghost predicate InStep(s: State, key: Key) {
    var pairs := PairsOf(s.reqs, s.paired, key);
    && ReqsOf(s.reqs, key) == Firsts(pairs) + Queue(s, key)
    && RespsOf(s.resps, key) == Seconds(pairs) + Waiters(s, key)
  }

  lemma {:induction false} ReqsOfSameKeys(reqs: seq<Pending>, reqs': seq<Pending>, key: Key)
    requires |reqs| == |reqs'| && forall r :: 0 <= r < |reqs| ==> reqs'[r].key == reqs[r].key
    ensures ReqsOf(reqs', key) == ReqsOf(reqs, key)
  {
    if reqs != [] { ReqsOfSameKeys(reqs[..|reqs| - 1], reqs'[..|reqs| - 1], key); }
  }

  lemma {:induction false} PairsOfSameKeys(reqs: seq<Pending>, reqs': seq<Pending>, paired: seq<Pair>, key: Key)
    requires |reqs| <= |reqs'| && forall r :: 0 <= r < |reqs| ==> reqs'[r].key == reqs[r].key
    requires forall i :: 0 <= i < |paired| ==> paired[i].0 < |reqs|
    ensures PairsOf(reqs', paired, key) == PairsOf(reqs, paired, key)
  {
    if paired != [] { PairsOfSameKeys(reqs, reqs', paired[..|paired| - 1], key); }
  }

  lemma PairsSnoc(reqs: seq<Pending>, paired: seq<Pair>, pair: Pair, key: Key)
    requires pair.0 < |reqs|
    ensures var before := PairsOf(reqs, paired, key);
            var after := PairsOf(reqs, paired + [pair], key);
            && after == (if reqs[pair.0].key == key then before + [pair] else before)
            && (reqs[pair.0].key == key ==> Firsts(after) == Firsts(before) + [pair.0] && Seconds(after) == Seconds(before) + [pair.1])
  {
    assert (paired + [pair])[..|paired|] == paired;
  }

  lemma AppendProjections(s: State, key: Key, ts: int, filled: bool, k: Key)
    requires InRange(s)
    ensures var s' := Append(s, key, ts, filled);
            && PairsOf(s'.reqs, s'.paired, k) == PairsOf(s.reqs, s.paired, k)
            && ReqsOf(s'.reqs, k) == (if k == key then ReqsOf(s.reqs, k) + [|s.reqs|] else ReqsOf(s.reqs, k))
  {
    var s' := Append(s, key, ts, filled);
    assert s'.reqs[..|s.reqs|] == s.reqs;
    PairsOfSameKeys(s.reqs, s'.reqs, s.paired, k);
  }

  lemma AppendSides(s: State, key: Key, ts: int, filled: bool, k: Key)
    requires |Queue(s, key)| < BACKLOG_CAP
    ensures var s' := Append(s, key, ts, filled);
            && Queue(s', k) == (if k == key then Queue(s, k) + [|s.reqs|] else Queue(s, k))
            && Waiters(s', k) == Waiters(s, k) && s'.resps == s.resps
  {
  }

  lemma AppendInStep(s: State, key: Key, ts: int, filled: bool, k: Key)
    requires InRange(s) && InStep(s, k) && |Queue(s, key)| < BACKLOG_CAP
    ensures InStep(Append(s, key, ts, filled), k)
  {
    AppendProjections(s, key, ts, filled, k);
    AppendSides(s, key, ts, filled, k);
    Assoc(Firsts(PairsOf(s.reqs, s.paired, k)), Queue(s, k), [|s.reqs|]);
  }

  lemma Assoc(a: seq<nat>, b: seq<nat>, c: seq<nat>)
    ensures a + (b + c) == a + b + c
  {
  }

  lemma CompleteProjections(s: State, key: Key, k: Key)
    requires InRange(s) && KeyInv(s, key) && Main(key) in s.waiting && Queue(s, key) != []
    ensures var s', r, p := Complete(s, Main(key)), Queue(s, key)[0], s.waiting[Main(key)];
            var before, after := PairsOf(s.reqs, s.paired, k), PairsOf(s'.reqs, s'.paired, k);
            && ReqsOf(s'.reqs, k) == ReqsOf(s.reqs, k)
            && Firsts(after) == (if k == key then Firsts(before) + [r] else Firsts(before))
            && Seconds(after) == (if k == key then Seconds(before) + [p] else Seconds(before))
  {
    var s', r, p := Complete(s, Main(key)), Queue(s, key)[0], s.waiting[Main(key)];
    PairsSnoc(s.reqs, s.paired, (r, p), k);
    ReqsOfSameKeys(s.reqs, s'.reqs, k);
    PairsOfSameKeys(s.reqs, s'.reqs, s.paired + [(r, p)], k);
  }

  lemma CompleteInStep(s: State, key: Key, k: Key)
    requires InRange(s) && KeyInv(s, key) && InStep(s, k) && Main(key) in s.waiting && Queue(s, key) != []
    ensures InStep(Complete(s, Main(key)), k)
  {
    CompleteProjections(s, key, k);
    CompleteSides(s, key, k);
    if k == key {
      MoveOver(Firsts(PairsOf(s.reqs, s.paired, k)), Queue(s, k)[0], Queue(Complete(s, Main(key)), k));
      MoveOver(Seconds(PairsOf(s.reqs, s.paired, k)), s.waiting[Main(k)], []);
    }
  }

  lemma MoveOver(done: seq<nat>, x: nat, rest: seq<nat>)
    ensures done + ([x] + rest) == (done + [x]) + rest
    ensures done + [x] == (done + [x]) + []
  {
  }

  /** How the queue and the waiting response of a connection change. */
  lemma CompleteSides(s: State, key: Key, k: Key)
    requires Main(key) in s.waiting && Queue(s, key) != [] && Queue(s, key)[0] < |s.reqs|
    ensures var s' := Complete(s, Main(key));
            if k == key then Queue(s, k) == [Queue(s, k)[0]] + Queue(s', k) && Waiters(s, k) == [s.waiting[Main(k)]] && Waiters(s', k) == []
            else Queue(s', k) == Queue(s, k) && Waiters(s', k) == Waiters(s, k)
  {
  }

  lemma FillInStep(s: State, r: nat, k: Key)
    requires InRange(s) && InStep(s, k) && r < |s.reqs|
    ensures InStep(Fill(s, r), k)
  {
    ReqsOfSameKeys(s.reqs, Fill(s, r).reqs, k);
    PairsOfSameKeys(s.reqs, Fill(s, r).reqs, s.paired, k);
  }

  lemma RespsSnoc(resps: seq<Lane>, lane: Lane, k: Key)
    ensures RespsOf(resps + [lane], k) == if k == lane.key then RespsOf(resps, k) + [|resps|] else RespsOf(resps, k)
  {
    assert (resps + [lane])[..|resps|] == resps;
  }

  lemma ArriveSides(s: State, key: Key, k: Key)
    requires Main(key) !in s.waiting
    ensures Waiters(Arrive(s, Main(key)), k) == (if k == key then [|s.resps|] else Waiters(s, k))
    ensures k == key ==> Waiters(s, k) == []
  {
  }

  lemma ArriveInStep(s: State, key: Key, k: Key)
    requires InStep(s, k) && Main(key) !in s.waiting
    ensures InStep(Arrive(s, Main(key)), k)
  {
    RespsSnoc(s.resps, Main(key), k);
    ArriveSides(s, key, k);
    var done := Seconds(PairsOf(s.reqs, s.paired, k));
    assert done + [] == done;
  }

  lemma OnlyMainNext(s: State, a: Step)
    requires Enabled(s, a) && NoLoss(s, a) && OnlyMain(s)
    ensures OnlyMain(Apply(s, a))
  {
  }

  lemma InStepNext(s: State, a: Step, key: Key)
    requires Inv(s) && Enabled(s, a) && NoLoss(s, a) && InStep(s, key) && OnlyMain(s)
    ensures InStep(Apply(s, a), key)
  {
    match a
    case DoAppend(k, ts, filled) => AppendInStep(s, k, ts, filled, key);
    case DoFill(r) => FillInStep(s, r, key);
    case DoArrive(lane) => ArriveInStep(s, lane.key, key);
    case DoComplete(lane) => assert KeyInv(s, lane.key); CompleteInStep(s, lane.key, key);
    case DoEmit(_) =>
  }

  lemma {:induction false} RunInStep(b: seq<State>, steps: seq<Step>, n: nat, key: Key)
    requires LosslessRun(b, steps) && n < |b|
    ensures InStep(b[n], key) && OnlyMain(b[n])
  {
    if n > 0 {
      RunInStep(b, steps, n - 1, key);
      RunInv(b, steps, n - 1);
      assert NoLoss(b[n - 1], steps[n - 1]);
      InStepNext(b[n - 1], steps[n - 1], key);
      OnlyMainNext(b[n - 1], steps[n - 1]);
    }
  }

  /** Without losses FIFO is exact: the i-th match of a connection is its i-th
      request with its i-th response. */
  lemma LosslessFifo(b: seq<State>, steps: seq<Step>, n: nat, key: Key, i: nat)
    requires LosslessRun(b, steps) && n < |b|
    requires i < |PairsOf(b[n].reqs, b[n].paired, key)|
    ensures i < |ReqsOf(b[n].reqs, key)| && i < |RespsOf(b[n].resps, key)|
    ensures PairsOf(b[n].reqs, b[n].paired, key)[i] == (ReqsOf(b[n].reqs, key)[i], RespsOf(b[n].resps, key)[i])
  {
    RunInStep(b, steps, n, key);
    var pairs := PairsOf(b[n].reqs, b[n].paired, key);
    assert Firsts(pairs)[i] == pairs[i].0 && Seconds(pairs)[i] == pairs[i].1;
  }

  /** And as long as each response follows its request, one that arrives finds
      its request queued: nothing is given up. */
  lemma FollowingResponseFindsRequest(b: seq<State>, steps: seq<Step>, n: nat, key: Key)
    requires LosslessRun(b, steps) && n < |b| && Main(key) in b[n].waiting
    requires |RespsOf(b[n].resps, key)| <= |ReqsOf(b[n].reqs, key)|
    ensures Queue(b[n], key) != []
  {
    RunInStep(b, steps, n, key);
  }

  /** A step that is not itself a loss; giving up on a response may still happen. */
  ghost predicate NoDrop(s: State, a: Step) { a.DoGiveUp? || NoLoss(s, a) }

  /** No more responses of the connection have been parsed than requests queued. */
  predicate Follows(s: State, key: Key) { |RespsOf(s.resps, key)| <= |ReqsOf(s.reqs, key)| }

  /** No purge, eviction, prune or overflow, and each response arrives after its
      request was queued. */
  ghost predicate FollowingRun(b: seq<State>, steps: seq<Step>) {
    && Run(b, steps)
    && (forall i :: 0 <= i < |steps| ==> NoDrop(b[i], steps[i]))
    && (forall i :: 0 <= i < |steps| && steps[i].DoArrive? ==> Follows(b[i + 1], steps[i].lane.key))
  }

  lemma FollowsStep(s: State, a: Step, key: Key)
    requires Enabled(s, a) && Follows(s, key) && (a.DoArrive? && a.lane.key == key ==> Follows(Apply(s, a), key))
    ensures Follows(Apply(s, a), key)
  {
    var s' := Apply(s, a);
    if a.DoAppend? {
      assert s'.reqs[..|s.reqs|] == s.reqs;
    } else if a.DoArrive? {
      RespsSnoc(s.resps, a.lane, key);
    } else if a.DoFill? || a.DoComplete? {
      ReqsOfSameKeys(s.reqs, s'.reqs, key);
    }
  }

  lemma {:induction false} FollowsThroughout(b: seq<State>, steps: seq<Step>, n: nat, key: Key)
    requires FollowingRun(b, steps) && n < |b|
    ensures Follows(b[n], key)
  {
    if n > 0 {
      FollowsThroughout(b, steps, n - 1, key);
      FollowsStep(b[n - 1], steps[n - 1], key);
    }
  }

  lemma NobodyGivesUp(b: seq<State>, steps: seq<Step>, n: nat, lane: Lane)
    requires LosslessRun(b, steps) && n < |b| && Follows(b[n], lane.key)
    ensures !Enabled(b[n], DoGiveUp(lane))
  {
    RunInStep(b, steps, n, lane.key);
    if lane in b[n].waiting { FollowingResponseFindsRequest(b, steps, n, lane.key); }
  }

  /** In such a run nothing is ever given up: it is a run without losses. */
  lemma {:induction false} FollowingPrefixLossless(b: seq<State>, steps: seq<Step>, n: nat)
    requires FollowingRun(b, steps) && n <= |steps|
    ensures LosslessRun(b[..n + 1], steps[..n])
  {
    if n > 0 {
      FollowingPrefixLossless(b, steps, n - 1);
      var before, a := b[n - 1], steps[n - 1];
      assert NoDrop(before, a);
      if a.DoGiveUp? {
        FollowsThroughout(b, steps, n - 1, a.lane.key);
        NobodyGivesUp(b[..n], steps[..n - 1], n - 1, a.lane);
      }
      forall i | 0 <= i < n ensures NoLoss(b[..n + 1][i], steps[..n][i]) {
        if i < n - 1 { assert NoLoss(b[..n][i], steps[..n - 1][i]); }
      }
    }
  }

  lemma FollowingRunIsLossless(b: seq<State>, steps: seq<Step>)
    requires FollowingRun(b, steps)
    ensures LosslessRun(b, steps)
  {
    FollowingPrefixLossless(b, steps, |steps|);
    assert b[..|steps| + 1] == b && steps[..|steps|] == steps;
  }

  /** So where each response follows its request, the i-th match is the i-th request
      with the i-th response, and only the response being placed is unmatched. */
  lemma FollowingFifo(b: seq<State>, steps: seq<Step>, n: nat, key: Key, i: nat)
    requires FollowingRun(b, steps) && n < |b| && i < |RespsOf(b[n].resps, key)|
    ensures var pairs, resps := PairsOf(b[n].reqs, b[n].paired, key), RespsOf(b[n].resps, key);
            if i < |pairs| then i < |ReqsOf(b[n].reqs, key)| && pairs[i] == (ReqsOf(b[n].reqs, key)[i], resps[i])
            else Main(key) in b[n].waiting && resps[i] == b[n].waiting[Main(key)] && i == |pairs|
  {
    FollowingRunIsLossless(b, steps);
    RunInStep(b, steps, n, key);
    if i < |PairsOf(b[n].reqs, b[n].paired, key)| { LosslessFifo(b, steps, n, key, i); }
  }

  // ----- The pipeline as it runs ---------------------------------------------

  lemma MapGrows(m: map<Key, seq<nat>>, key: Key, q: seq<nat>)
    ensures |m[key := q]| <= |m| + 1
  {
    assert m[key := q].Keys == m.Keys + {key};
    assert |m[key := q]| == |m[key := q].Keys| && |m| == |m.Keys|;
  }

  lemma MapShrinks(m: map<Key, seq<nat>>, key: Key)
    requires key in m
    ensures |m - {key}| == |m| - 1
  {
    assert (m - {key}).Keys == m.Keys - {key};
    assert |m - {key}| == |(m - {key}).Keys| && |m| == |m.Keys|;
  }

  /** The worker's pending state, updated in place under its lock. A pending
      request is referred to by its number. */
  class Pipeline {
    const maxPending: nat
    var conns: map<Key, seq<nat>>
    var reqs: seq<Pending>
    ghost var resps: seq<Lane>
    ghost var waiting: map<Lane, nat>
    ghost var paired: seq<Pair>
    ghost var hand: set<Pair>
    ghost var emitted: seq<Pair>

    ghost function View(): State
      reads this
    {
      State(conns, reqs, resps, waiting, paired, hand, emitted)
    }

    constructor (maxPending: nat)
      ensures Init(View()) && this.maxPending == maxPending
    {
      this.maxPending := maxPending;
      conns, reqs := map[], [];
      resps, waiting, paired, hand, emitted := [], map[], [], {}, [];
    }

    /** Over the map's cap one connection, whichever the map yields first, goes. */
    method AppendPending(key: Key, ts: int, filled: bool) returns (r: nat, evicted: set<Key>)
      modifies this
      ensures View() == Forget(Append(old(View()), key, ts, filled), evicted) && r == |old(reqs)|
      ensures evicted <= Append(old(View()), key, ts, filled).conns.Keys
      ensures |evicted| == if |Append(old(View()), key, ts, filled).conns| > maxPending then 1 else 0
      ensures |old(conns)| <= maxPending ==> |conns| <= maxPending
      ensures reqs == old(reqs) + [Pending(key, ts, filled, None)]
      ensures key !in evicted ==>
                var q := (if key in old(conns) then old(conns)[key] else []) + [r];
                key in conns && conns[key] == if |q| > 1024 then q[1..] else q
      ensures forall k :: k != key && k !in evicted ==> (k in conns <==> k in old(conns))
      ensures forall k :: k != key && k in conns ==> k in old(conns) && conns[k] == old(conns)[k]
    {
      r := |reqs|;
      reqs := reqs + [Pending(key, ts, filled, None)];
      var q := if key in conns then conns[key] else [];
      q := q + [r];
      if |q| > BACKLOG_CAP {
        q := q[1..];
      }
      conns := conns[key := q];
      MapGrows(old(conns), key, q);
      evicted := EvictOverCap();
    }

    method EvictOverCap() returns (evicted: set<Key>)
      modifies this`conns
      ensures View() == Forget(old(View()), evicted) && evicted <= old(conns).Keys
      ensures |evicted| == if |old(conns)| > maxPending then 1 else 0
      ensures |conns| == |old(conns)| - |evicted|
    {
      evicted := {};
      assert conns - {} == conns;
      if |conns| > maxPending {
        var k :| k in conns;
        MapShrinks(conns, k);
        evicted := {k};
        conns := conns - {k};
      }
    }

    method FillRequest(r: nat) returns (resp: Option<nat>)
      requires r < |reqs|
      modifies this
      ensures View() == Fill(old(View()), r)
      ensures resp == old(reqs[r].resp) && conns == old(conns)
      ensures reqs == old(reqs)[r := Pending(old(reqs[r].key), old(reqs[r].ts), true, None)]
    {
      resp := reqs[r].resp;
      reqs := reqs[r := reqs[r].(filled := true, resp := None)];
      if resp.Some? {
        hand := hand + {(r, resp.value)};
      }
    }

    /** One attempt by a goroutine to place its response p. */
    method CompleteResponse(ghost lane: Lane, key: Key, p: nat) returns (emit: Option<nat>, placed: bool)
      requires lane.key == key && lane in waiting && waiting[lane] == p
      requires forall i :: 0 <= i < |Queue(View(), key)| ==> Queue(View(), key)[i] < |reqs|
      modifies this
      ensures placed <==> Queue(old(View()), key) != []
      ensures View() == if placed then Complete(old(View()), lane) else old(View())
      ensures placed ==>
                && conns == old(conns)[key := old(conns)[key][1..]]
                && var r := old(conns)[key][0];
                   reqs == if emit.Some? then old(reqs) else old(reqs)[r := old(reqs)[r].(resp := Some(p))]
      ensures emit == if placed && old(reqs)[Queue(old(View()), key)[0]].filled then Some(Queue(old(View()), key)[0]) else None
    {
      emit, placed := None, false;
      if key in conns && |conns[key]| > 0 {
        assert Queue(View(), key) == conns[key];
        var r := conns[key][0];
        conns := conns[key := conns[key][1..]];
        placed := true;
        waiting, paired := waiting - {lane}, paired + [(r, p)];
        if !reqs[r].filled {
          reqs := reqs[r := reqs[r].(resp := Some(p))];
        } else {
          emit := Some(r);
          hand := hand + {(r, p)};
        }
      }
    }

    method PurgePending(key: Key)
      modifies this
      ensures View() == Forget(old(View()), {key})
      ensures key !in conns && (forall k :: k != key ==> (k in conns <==> k in old(conns)))
      ensures forall k :: k in conns ==> conns[k] == old(conns)[k]
    {
      conns := conns - {key};
    }

    method KeepFresh(q: seq<nat>, cutoff: int) returns (kept: seq<nat>)
      requires forall i :: 0 <= i < |q| ==> q[i] < |reqs|
      ensures kept == Fresh(View(), q, cutoff)
    {
      kept := [];
      for i := 0 to |q|
        invariant kept == Fresh(View(), q[..i], cutoff)
      {
        assert q[..i + 1][..i] == q[..i];
        if reqs[q[i]].ts >= cutoff {
          kept := kept + [q[i]];
        }
      }
      assert q[..|q|] == q;
    }

    /** The garbage collector's visit to one connection. */
    method PruneKey(key: Key, cutoff: int)
      requires forall i :: 0 <= i < |Queue(View(), key)| ==> Queue(View(), key)[i] < |reqs|
      modifies this
      ensures View() == Prune(old(View()), key, cutoff)
      ensures reqs == old(reqs) && Pruned(reqs, Queue(old(View()), key), Queue(View(), key), cutoff)
      ensures key in conns <==> exists r :: r in Queue(old(View()), key) && old(reqs)[r].ts >= cutoff
    {
      PruneKeepsFresh(View(), key, cutoff);
      if key !in conns {
        return;
      }
      var kept := KeepFresh(conns[key], cutoff);
      if |kept| == 0 {
        conns := conns - {key};
      } else {
        conns := conns[key := kept];
      }
    }
  }
}
