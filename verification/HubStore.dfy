/** The hub's ring of recent entries: bounded by count and by bytes, indexed by
    id, and read newest first. */
module HubStore {
  import opened Basics

  /** seqNo is hub-assigned and unique, so it tells entries apart the way their
      addresses do. */
  datatype Entry = Entry(id: string, seqNo: int, status: string)

  /** An entry with its cached JSON; None after a failed marshal. */
  datatype Rec = Rec(entry: Entry, raw: Option<seq<Byte>>)

  function Size(raw: Option<seq<Byte>>): nat { if raw.Some? then |raw.value| else 0 }

  function Bytes(s: seq<Rec>): nat { if s == [] then 0 else Size(s[0].raw) + Bytes(s[1..]) }

  /** The cached JSON of the records, one after the other. */
  function Json(s: seq<Rec>): seq<Byte> {
    if s == [] then [] else (match s[0].raw case Some(text) => text case None => []) + Json(s[1..])
  }

  lemma {:induction false} BytesIsLength(s: seq<Rec>)
    ensures Bytes(s) == |Json(s)|
  {
    if s != [] { BytesIsLength(s[1..]); }
  }

  // ----- What the ring should hold -------------------------------------------

  predicate Fits(s: seq<Rec>, capacity: nat, budget: nat) { |s| <= capacity && Bytes(s) <= budget }

  /** The longest suffix within both bounds. */
  function LongestFit(s: seq<Rec>, capacity: nat, budget: nat): (r: seq<Rec>)
    ensures Fits(r, capacity, budget) && |r| <= |s|
  {
    if Fits(s, capacity, budget) then s else LongestFit(s[1..], capacity, budget)
  }

  lemma {:induction false} BytesSnoc(s: seq<Rec>, r: Rec)
    ensures Bytes(s + [r]) == Bytes(s) + Size(r.raw)
  {
    if s != [] {
      assert (s + [r])[1..] == s[1..] + [r];
      BytesSnoc(s[1..], r);
    }
  }

  lemma {:induction false} BytesSuffix(s: seq<Rec>, k: nat)
    requires k <= |s|
    ensures Bytes(s[k..]) <= Bytes(s)
  {
    if k > 0 {
      assert s[k..] == s[1..][k - 1..];
      BytesSuffix(s[1..], k - 1);
    }
  }

  /** It is a suffix, and every longer suffix breaks a bound. */
  lemma LongestFitIsLongest(s: seq<Rec>, capacity: nat, budget: nat, k: nat)
    requires k <= |s|
    ensures LongestFit(s, capacity, budget) == s[|s| - |LongestFit(s, capacity, budget)|..]
    ensures |s| - k <= capacity && |Json(s[k..])| <= budget <==> |s| - k <= |LongestFit(s, capacity, budget)|
  {
    LongestFitSuffix(s, capacity, budget, k);
    BytesIsLength(s[k..]);
  }

  lemma {:induction false} LongestFitSuffix(s: seq<Rec>, capacity: nat, budget: nat, k: nat)
    requires k <= |s|
    ensures LongestFit(s, capacity, budget) == s[|s| - |LongestFit(s, capacity, budget)|..]
    ensures Fits(s[k..], capacity, budget) <==> |s| - k <= |LongestFit(s, capacity, budget)|
  {
    var r := LongestFit(s, capacity, budget);
    if Fits(s, capacity, budget) {
      BytesSuffix(s, k);
    } else if k == 0 {
      LongestFitSuffix(s[1..], capacity, budget, 0);
      assert s[0..] == s;
    } else {
      LongestFitSuffix(s[1..], capacity, budget, k - 1);
      assert s[1..][k - 1..] == s[k..];
    }
  }

  /** Trimming as entries arrive gives the same as trimming the whole history. */
  lemma {:induction false} TrimIncrementally(s: seq<Rec>, r: Rec, capacity: nat, budget: nat)
    ensures LongestFit(LongestFit(s, capacity, budget) + [r], capacity, budget) == LongestFit(s + [r], capacity, budget)
  {
    if !Fits(s, capacity, budget) {
      BytesSnoc(s, r);
      assert (s + [r])[1..] == s[1..] + [r];
      TrimIncrementally(s[1..], r, capacity, budget);
    }
  }

  // ----- The id index --------------------------------------------------------

  ghost predicate Newest(s: seq<Rec>, k: nat) {
    k < |s| && forall l :: k < l < |s| ==> s[l].entry.id != s[k].entry.id
  }

  ghost predicate NewestIs(s: seq<Rec>, k: nat, id: string, e: Entry) {
    Newest(s, k) && s[k].entry == e && e.id == id
  }

  /** index maps each live id to its newest live entry and nothing else. */
  ghost predicate IsIndex(index: map<string, Entry>, s: seq<Rec>) {
    && (forall k :: 0 <= k < |s| ==> s[k].entry.id in index)
    && (forall id :: id in index ==> exists k: nat :: NewestIs(s, k, id, index[id]))
  }

  ghost predicate DistinctSeqs(s: seq<Rec>) {
    forall i, j :: 0 <= i < j < |s| ==> s[i].entry.seqNo != s[j].entry.seqNo
  }

  function Unindex(index: map<string, Entry>, e: Entry): map<string, Entry> {
    if e.id in index && index[e.id] == e then index - {e.id} else index
  }

  lemma IndexSnoc(index: map<string, Entry>, s: seq<Rec>, r: Rec)
    requires IsIndex(index, s)
    ensures IsIndex(index[r.entry.id := r.entry], s + [r])
  {
    var index', s' := index[r.entry.id := r.entry], s + [r];
    forall id | id in index' ensures exists k: nat :: NewestIs(s', k, id, index'[id]) {
      if id == r.entry.id {
        assert NewestIs(s', |s|, id, index'[id]);
      } else {
        var k: nat :| NewestIs(s, k, id, index[id]);
        assert NewestIs(s', k, id, index'[id]);
      }
    }
  }

  lemma IndexDrop(index: map<string, Entry>, s: seq<Rec>)
    requires IsIndex(index, s) && s != [] && DistinctSeqs(s)
    ensures IsIndex(Unindex(index, s[0].entry), s[1..])
  {
    var e, t := s[0].entry, s[1..];
    var index' := Unindex(index, e);
    forall id | id in index' ensures exists k: nat :: NewestIs(t, k, id, index'[id]) {
      var k: nat :| NewestIs(s, k, id, index[id]);
      assert k > 0;
      assert t[k - 1] == s[k];
      forall l | k - 1 < l < |t| ensures t[l].entry.id != t[k - 1].entry.id { assert t[l] == s[l + 1]; }
      assert NewestIs(t, k - 1, id, index'[id]);
    }
    forall k | 0 <= k < |t| ensures t[k].entry.id in index' {
      assert t[k] == s[k + 1];
      if s[k + 1].entry.id == e.id {
        var m: nat :| NewestIs(s, m, e.id, index[e.id]);
        assert m > 0;
      }
    }
  }

  // ----- Slots ---------------------------------------------------------------

  function Wrap(x: int, capacity: nat): int { if x < 0 then x + capacity else if x < capacity then x else x - capacity }

  /** The slot of the k-th oldest live record; slots from live on are free. */
  function Pos(capacity: nat, next: nat, live: nat, k: nat): int { Wrap(next - live + k, capacity) }

  lemma ModIsWrap(x: int, capacity: nat)
    requires capacity > 0 && 0 <= x < 2 * capacity
    ensures x % capacity == Wrap(x, capacity)
  {
    if x >= capacity {
      assert x == 1 * capacity + (x - capacity);
      assert x / capacity == 1;
    }
  }

  ghost predicate InRange(capacity: nat, next: nat, live: nat) { next < capacity && live <= capacity }

  lemma PosFacts(capacity: nat, next: nat, live: nat, k: nat, l: nat)
    requires InRange(capacity, next, live) && k < capacity && l < capacity
    ensures 0 <= Pos(capacity, next, live, k) < capacity
    ensures Pos(capacity, next, live, k) == Pos(capacity, next, live, l) ==> k == l
  {
  }

  type Bufs = (seq<Option<Entry>>, seq<Option<seq<Byte>>>)

  ghost predicate LiveAt(b: Bufs, pos: int, r: Rec) {
    0 <= pos < |b.0| == |b.1| && b.0[pos] == Some(r.entry) && b.1[pos] == r.raw
  }

  ghost predicate FreeAt(b: Bufs, pos: int) {
    0 <= pos < |b.0| == |b.1| && b.0[pos] == None
  }

  /** buf and raw hold the live records slot by slot, and nothing elsewhere. */
  ghost predicate Mirrors(b: Bufs, next: nat, live: nat, contents: seq<Rec>) {
    var cap := |b.0|;
    && |b.1| == cap && InRange(cap, next, live) && |contents| == live
    && (forall k :: 0 <= k < live ==> LiveAt(b, Pos(cap, next, live, k), contents[k]))
    && (forall k :: live <= k < cap ==> FreeAt(b, Pos(cap, next, live, k)))
  }

  /** The slot about to be written is taken exactly when the ring is full, and
      then holds the oldest record. */
  lemma NextSlot(b: Bufs, next: nat, live: nat, contents: seq<Rec>)
    requires Mirrors(b, next, live, contents)
    ensures if live == |b.0| then LiveAt(b, next, contents[0]) else FreeAt(b, next)
  {
    var cap := |b.0|;
    if live == cap {
      assert Pos(cap, next, live, 0) == next;
    } else {
      assert Pos(cap, next, live, live) == next;
    }
  }

  lemma MirrorsWrite(b: Bufs, next: nat, live: nat, contents: seq<Rec>, r: Rec)
    requires Mirrors(b, next, live, contents)
    ensures var full := live == |b.0|;
            Mirrors((b.0[next := Some(r.entry)], b.1[next := r.raw]), Wrap(next + 1, |b.0|),
                    if full then live else live + 1, (if full then contents[1..] else contents) + [r])
  {
    var cap, full := |b.0|, live == |b.0|;
    var b' := (b.0[next := Some(r.entry)], b.1[next := r.raw]);
    var next', live', c' := Wrap(next + 1, cap), if full then live else live + 1, (if full then contents[1..] else contents) + [r];
    forall k | 0 <= k < cap
      ensures if k < live' then LiveAt(b', Pos(cap, next', live', k), c'[k]) else FreeAt(b', Pos(cap, next', live', k))
    {
      var j := if full then k + 1 else k;
      if k == live' - 1 {
        assert Pos(cap, next', live', k) == next;
      } else {
        assert Pos(cap, next', live', k) == Pos(cap, next, live, j);
        PosFacts(cap, next, live, j, if full then 0 else live);
        assert Pos(cap, next, live, if full then 0 else live) == next;
        if k < live' { assert LiveAt(b, Pos(cap, next, live, j), contents[j]); }
      }
    }
  }

  lemma MirrorsEvict(b: Bufs, next: nat, live: nat, contents: seq<Rec>)
    requires Mirrors(b, next, live, contents) && live > 0
    ensures var pos := Pos(|b.0|, next, live, 0);
            && LiveAt(b, pos, contents[0])
            && Mirrors((b.0[pos := None], b.1[pos := None]), next, live - 1, contents[1..])
  {
    var cap, pos := |b.0|, Pos(|b.0|, next, live, 0);
    assert LiveAt(b, pos, contents[0]);
    var b', t, n := (b.0[pos := None], b.1[pos := None]), contents[1..], live - 1;
    forall k | 0 <= k < n ensures LiveAt(b', Pos(cap, next, n, k), t[k]) {
      assert Pos(cap, next, n, k) == Pos(cap, next, live, k + 1);
      PosFacts(cap, next, live, k + 1, 0);
      assert LiveAt(b, Pos(cap, next, live, k + 1), contents[k + 1]);
    }
    forall k | n <= k < cap ensures FreeAt(b', Pos(cap, next, n, k)) {
      if k + 1 < cap {
        assert Pos(cap, next, n, k) == Pos(cap, next, live, k + 1);
        PosFacts(cap, next, live, k + 1, 0);
        assert n < k ==> FreeAt(b, Pos(cap, next, live, k + 1));
      } else {
        assert Pos(cap, next, n, k) == pos;
      }
    }
  }

  // ----- The ring ------------------------------------------------------------

  datatype Ring = Ring(bufs: Bufs, next: nat, live: nat, bytes: int, byID: map<string, Entry>)

  predicate Bounds(g: Ring) {
    0 < |g.bufs.0| == |g.bufs.1| && g.next < |g.bufs.0| && g.live <= |g.bufs.0|
  }

  function EmptyRing(capacity: nat): Ring {
    Ring((seq(capacity, _ => None), seq(capacity, _ => None)), 0, 0, 0, map[])
  }

  /** Write at the cursor; an overwritten entry leaves the index. A free slot at
      the cursor means the ring is not full (NextSlot). */
  function WriteRing(g: Ring, e: Entry, json: Option<seq<Byte>>): (g': Ring)
    requires Bounds(g)
    ensures Bounds(g') && |g'.bufs.0| == |g.bufs.0|
  {
    var cap, was := |g.bufs.0|, g.bufs.0[g.next];
    ModIsWrap(g.next + 1, cap);
    Ring((g.bufs.0[g.next := Some(e)], g.bufs.1[g.next := json]),
         (g.next + 1) % cap,
         if was.Some? || g.live == cap then g.live else g.live + 1,
         (if was.Some? then g.bytes - Size(g.bufs.1[g.next]) else g.bytes) + Size(json),
         (if was.Some? then Unindex(g.byID, was.value) else g.byID)[e.id := e])
  }

  /** The oldest entry goes. */
  function EvictRing(g: Ring): (g': Ring)
    requires Bounds(g) && g.live > 0
    ensures Bounds(g') && |g'.bufs.0| == |g.bufs.0| && g'.live == g.live - 1
  {
    var cap := |g.bufs.0|;
    ModIsWrap(g.next - g.live + cap, cap);
    var oldest := (g.next - g.live + cap) % cap;
    var was := g.bufs.0[oldest];
    Ring((g.bufs.0[oldest := None], g.bufs.1[oldest := None]), g.next, g.live - 1,
         g.bytes - Size(g.bufs.1[oldest]),
         if was.Some? then Unindex(g.byID, was.value) else g.byID)
  }

  function TrimRing(g: Ring, budget: nat): (g': Ring)
    requires Bounds(g)
    ensures Bounds(g') && |g'.bufs.0| == |g.bufs.0|
    decreases g.live
  {
    if g.bytes > budget && g.live > 0 then TrimRing(EvictRing(g), budget) else g
  }

  /** Record an entry. An oversized one is counted elsewhere but never kept. */
  function AddRing(g: Ring, e: Entry, json: Option<seq<Byte>>, budget: nat): (g': Ring)
    requires Bounds(g)
    ensures Bounds(g') && |g'.bufs.0| == |g.bufs.0|
  {
    if Size(json) > budget then g else TrimRing(WriteRing(g, e, json), budget)
  }

  /** The ring holds exactly these records, oldest first, with their byte sum and
      their index. */
  ghost predicate Holds(g: Ring, contents: seq<Rec>) {
    && Bounds(g) && Mirrors(g.bufs, g.next, g.live, contents)
    && g.bytes == Bytes(contents)
    && DistinctSeqs(contents) && IsIndex(g.byID, contents)
  }

  ghost predicate FreshSeq(s: seq<Rec>, e: Entry) {
    forall k :: 0 <= k < |s| ==> s[k].entry.seqNo != e.seqNo
  }

  lemma DropFacts(index: map<string, Entry>, s: seq<Rec>)
    requires IsIndex(index, s) && DistinctSeqs(s) && s != []
    ensures IsIndex(Unindex(index, s[0].entry), s[1..])
    ensures DistinctSeqs(s[1..])
  {
    IndexDrop(index, s);
  }

  lemma WriteIndex(g: Ring, c: seq<Rec>, e: Entry, json: Option<seq<Byte>>)
    requires Holds(g, c)
    ensures var kept := if g.live == |g.bufs.0| then c[1..] else c;
            IsIndex(WriteRing(g, e, json).byID, kept + [Rec(e, json)])
  {
    NextSlot(g.bufs, g.next, g.live, c);
    if g.live == |g.bufs.0| {
      DropFacts(g.byID, c);
      IndexSnoc(Unindex(g.byID, c[0].entry), c[1..], Rec(e, json));
    } else {
      IndexSnoc(g.byID, c, Rec(e, json));
    }
  }

  lemma WriteMirrors(g: Ring, c: seq<Rec>, e: Entry, json: Option<seq<Byte>>)
    requires Bounds(g) && Mirrors(g.bufs, g.next, g.live, c)
    ensures var kept := if g.live == |g.bufs.0| then c[1..] else c;
            var g' := WriteRing(g, e, json);
            Mirrors(g'.bufs, g'.next, g'.live, kept + [Rec(e, json)])
  {
    NextSlot(g.bufs, g.next, g.live, c);
    MirrorsWrite(g.bufs, g.next, g.live, c, Rec(e, json));
    ModIsWrap(g.next + 1, |g.bufs.0|);
  }

  lemma WriteBytes(g: Ring, c: seq<Rec>, e: Entry, json: Option<seq<Byte>>)
    requires Bounds(g) && Mirrors(g.bufs, g.next, g.live, c) && g.bytes == Bytes(c)
    ensures var kept := if g.live == |g.bufs.0| then c[1..] else c;
            WriteRing(g, e, json).bytes == Bytes(kept + [Rec(e, json)])
  {
    NextSlot(g.bufs, g.next, g.live, c);
    var kept := if g.live == |g.bufs.0| then c[1..] else c;
    BytesSnoc(kept, Rec(e, json));
    assert g.live == |g.bufs.0| ==> Bytes(c) == Size(c[0].raw) + Bytes(c[1..]);
  }

  lemma WriteHolds(g: Ring, c: seq<Rec>, e: Entry, json: Option<seq<Byte>>)
    requires Holds(g, c) && FreshSeq(c, e)
    ensures Holds(WriteRing(g, e, json), (if g.live == |g.bufs.0| then c[1..] else c) + [Rec(e, json)])
  {
    WriteIndex(g, c, e, json);
    WriteBytes(g, c, e, json);
    WriteMirrors(g, c, e, json);
  }

  lemma EvictMirrors(g: Ring, c: seq<Rec>)
    requires Bounds(g) && Mirrors(g.bufs, g.next, g.live, c) && g.live > 0
    ensures var g' := EvictRing(g);
            && Mirrors(g'.bufs, g'.next, g'.live, c[1..])
            && g'.bytes == g.bytes - Size(c[0].raw)
            && g'.byID == Unindex(g.byID, c[0].entry)
  {
    var cap := |g.bufs.0|;
    ModIsWrap(g.next - g.live + cap, cap);
    assert Wrap(g.next - g.live + cap, cap) == Pos(cap, g.next, g.live, 0);
    MirrorsEvict(g.bufs, g.next, g.live, c);
  }

  lemma EvictHolds(g: Ring, c: seq<Rec>)
    requires Holds(g, c) && g.live > 0
    ensures Holds(EvictRing(g), c[1..])
  {
    EvictMirrors(g, c);
    DropFacts(g.byID, c);
    assert Bytes(c) == Size(c[0].raw) + Bytes(c[1..]);
  }

  lemma {:induction false} TrimHolds(g: Ring, c: seq<Rec>, budget: nat)
    requires Holds(g, c)
    ensures Holds(TrimRing(g, budget), LongestFit(c, |g.bufs.0|, budget))
    decreases g.live
  {
    if g.bytes > budget && g.live > 0 {
      EvictHolds(g, c);
      TrimHolds(EvictRing(g), c[1..], budget);
    }
  }

  /** The ring after the adds recorded in accepted. */
  ghost predicate Reflects(g: Ring, accepted: seq<Rec>, budget: nat) {
    Holds(g, LongestFit(accepted, |g.bufs.0|, budget))
  }

  /** One add, on what the ring holds. */
  lemma AddHolds(g: Ring, c: seq<Rec>, budget: nat, e: Entry, json: Option<seq<Byte>>)
    requires Holds(g, c) && FreshSeq(c, e)
    ensures Holds(AddRing(g, e, json, budget),
                  if json.Some? && |json.value| > budget then c else LongestFit(c + [Rec(e, json)], |g.bufs.0|, budget))
  {
    if Size(json) <= budget {
      var cap, r := |g.bufs.0|, Rec(e, json);
      WriteHolds(g, c, e, json);
      TrimHolds(WriteRing(g, e, json), (if g.live == cap then c[1..] else c) + [r], budget);
      FullThenSnoc(c, r, cap, budget);
    }
  }

  lemma AddReflects(g: Ring, accepted: seq<Rec>, budget: nat, e: Entry, json: Option<seq<Byte>>)
    requires Reflects(g, accepted, budget) && FreshSeq(accepted, e)
    ensures Reflects(AddRing(g, e, json, budget), if Size(json) > budget then accepted else accepted + [Rec(e, json)], budget)
  {
    var cap, c := |g.bufs.0|, LongestFit(accepted, |g.bufs.0|, budget);
    LongestFitIsLongest(accepted, cap, budget, 0);
    assert FreshSeq(c, e);
    AddHolds(g, c, budget, e, json);
    TrimIncrementally(accepted, Rec(e, json), cap, budget);
  }

  /** A full ring gives up its oldest entry before the new one is counted. */
  lemma FullThenSnoc(s: seq<Rec>, r: Rec, capacity: nat, budget: nat)
    requires |s| <= capacity
    ensures LongestFit(s + [r], capacity, budget) ==
            LongestFit((if |s| == capacity && s != [] then s[1..] else s) + [r], capacity, budget)
  {
    if |s| == capacity && s != [] {
      assert (s + [r])[1..] == s[1..] + [r];
    }
  }

  // ----- Any sequence of adds ------------------------------------------------

  function AddAll(g: Ring, adds: seq<Rec>, budget: nat): (g': Ring)
    requires Bounds(g)
    ensures Bounds(g') && |g'.bufs.0| == |g.bufs.0|
  {
    if adds == [] then g
    else
      var last := adds[|adds| - 1];
      AddRing(AddAll(g, adds[..|adds| - 1], budget), last.entry, last.raw, budget)
  }

  /** The history that was not refused for its size. */
  function Accepted(adds: seq<Rec>, budget: nat): seq<Rec> {
    if adds == [] then []
    else
      var before, last := Accepted(adds[..|adds| - 1], budget), adds[|adds| - 1];
      if Size(last.raw) > budget then before else before + [last]
  }

  /** Every record is accepted in its turn but one whose JSON alone is over budget. */
  lemma AcceptedSnoc(adds: seq<Rec>, r: Rec, budget: nat)
    ensures Accepted([], budget) == []
    ensures Accepted(adds + [r], budget) ==
            if r.raw.Some? && |r.raw.value| > budget then Accepted(adds, budget) else Accepted(adds, budget) + [r]
  {
    assert (adds + [r])[..|adds|] == adds;
  }

  lemma {:induction false} AcceptedFresh(adds: seq<Rec>, budget: nat, e: Entry)
    requires FreshSeq(adds, e)
    ensures FreshSeq(Accepted(adds, budget), e)
  {
    if adds != [] { AcceptedFresh(adds[..|adds| - 1], budget, e); }
  }

  /** After any sequence of adds the live ring is exactly the longest suffix of
      the accepted history that fits both bounds, byte sum and index included. */
  lemma {:induction false} RingIsLongestSuffix(capacity: nat, adds: seq<Rec>, budget: nat)
    requires capacity > 0 && DistinctSeqs(adds)
    ensures Reflects(AddAll(EmptyRing(capacity), adds, budget), Accepted(adds, budget), budget)
  {
    if adds != [] {
      var init, last := adds[..|adds| - 1], adds[|adds| - 1];
      RingIsLongestSuffix(capacity, init, budget);
      AcceptedFresh(init, budget, last.entry);
      AddReflects(AddAll(EmptyRing(capacity), init, budget), Accepted(init, budget), budget, last.entry, last.raw);
    }
  }

  // ----- Reading -------------------------------------------------------------

  function Clip(depth: int, n: nat): nat { if depth < 0 then 0 else if depth < n then depth else n }

  function NewestFirst(s: seq<Rec>): (r: seq<Rec>)
    ensures |r| == |s|
  {
    seq(|s|, i requires 0 <= i < |s| => s[|s| - 1 - i])
  }

  function EntriesOf(s: seq<Rec>): (r: seq<Entry>)
    ensures |r| == |s|
  {
    seq(|s|, i requires 0 <= i < |s| => s[i].entry)
  }

  /** The slot the snapshot loops read in round i. */
  function ReadAt(g: Ring, i: nat): (pos: nat)
    requires Bounds(g) && i < g.live
    ensures pos < |g.bufs.0|
  {
    ModIsWrap(g.next - 1 - i + |g.bufs.0|, |g.bufs.0|);
    (g.next - 1 - i + |g.bufs.0|) % |g.bufs.0|
  }

  /** The first n rounds of a snapshot. */
  function Snapshot(g: Ring, n: nat): seq<Rec>
    requires Bounds(g) && n <= g.live
  {
    if n == 0 then []
    else
      var before, pos := Snapshot(g, n - 1), ReadAt(g, n - 1);
      if g.bufs.0[pos].Some? then before + [Rec(g.bufs.0[pos].value, g.bufs.1[pos])] else before
  }

  /** A snapshot is the newest n live records, newest first, each with its own
      JSON. */
  lemma {:induction false} SnapshotIsNewest(g: Ring, c: seq<Rec>, n: nat)
    requires Bounds(g) && Mirrors(g.bufs, g.next, g.live, c) && n <= g.live
    ensures Snapshot(g, n) == NewestFirst(c)[..n]
  {
    if n > 0 {
      SnapshotIsNewest(g, c, n - 1);
      ReadSlot(g.bufs, g.next, g.live, c, n - 1);
      assert NewestFirst(c)[..n] == NewestFirst(c)[..n - 1] + [c[g.live - n]];
    }
  }

  /** The i-th newest record, where the snapshot loops look for it. */
  lemma ReadSlot(b: Bufs, next: nat, live: nat, contents: seq<Rec>, i: nat)
    requires Mirrors(b, next, live, contents) && i < live
    ensures LiveAt(b, (next - 1 - i + |b.0|) % |b.0|, contents[live - 1 - i])
  {
    var cap := |b.0|;
    ModIsWrap(next - 1 - i + cap, cap);
    assert Pos(cap, next, live, live - 1 - i) == Wrap(next - 1 - i + cap, cap);
  }

  /** out is up to depth of the entries, newest first. */
  ghost predicate ShowsNewest(contents: seq<Rec>, depth: int, out: seq<Entry>) {
    && |out| == (if depth < 0 then 0 else if depth < |contents| then depth else |contents|)
    && forall i :: 0 <= i < |out| ==> out[i] == contents[|contents| - 1 - i].entry
  }

  /** The records whose JSON was cached. */
  function WithRaw(s: seq<Rec>): seq<Rec> {
    if s == [] then []
    else
      var before, last := WithRaw(s[..|s| - 1]), s[|s| - 1];
      if last.raw.Some? then before + [last] else before
  }

  function RawOf(s: seq<Rec>): seq<Option<seq<Byte>>> {
    seq(|s|, i requires 0 <= i < |s| => s[i].raw)
  }

  lemma ShownSnoc(s: seq<Rec>, r: Rec)
    ensures WithRaw([]) == []
    ensures var before, after := WithRaw(s), WithRaw(s + [r]);
            && EntriesOf(after) == (if r.raw.Some? then EntriesOf(before) + [r.entry] else EntriesOf(before))
            && RawOf(after) == (if r.raw.Some? then RawOf(before) + [r.raw] else RawOf(before))
  {
    assert (s + [r])[..|s|] == s;
  }

  // ----- The store as it is kept ---------------------------------------------

  class Store {
    const buf: array<Option<Entry>>
    const raw: array<Option<seq<Byte>>>
    const capacity: nat
    const byteBudget: nat
    var next: nat
    var live: nat
    var retainedBytes: int
    var byID: map<string, Entry>

    ghost function View(): Ring
      reads this, buf, raw
    {
      Ring((buf[..], raw[..]), next, live, retainedBytes, byID)
    }

    ghost predicate Valid()
      reads this, buf, raw
    {
      buf.Length == capacity && raw.Length == capacity && Bounds(View())
    }

    constructor (cap: nat, budget: nat)
      requires cap > 0
      ensures Valid() && View() == EmptyRing(cap) && byteBudget == budget && fresh(buf) && fresh(raw)
    {
      capacity, byteBudget := cap, budget;
      buf := new Option<Entry>[cap](_ => None);
      raw := new Option<seq<Byte>>[cap](_ => None);
      next, live, retainedBytes, byID := 0, 0, 0, map[];
      new;
      assert buf[..] == seq(cap, _ => None) && raw[..] == seq(cap, _ => None);
    }

    method Unlink(e: Entry)
      modifies `byID
      ensures byID == Unindex(old(byID), e)
    {
      if e.id in byID && byID[e.id] == e {
        byID := byID - {e.id};
      }
    }

    method Write(e: Entry, json: Option<seq<Byte>>)
      requires Valid() && (buf[next].None? ==> live < capacity)
      modifies this, buf, raw
      ensures Valid() && View() == WriteRing(old(View()), e, json)
    {
      ModIsWrap(next + 1, capacity);
      if buf[next].Some? {
        Unlink(buf[next].value);
        retainedBytes := retainedBytes - Size(raw[next]);
      } else {
        live := live + 1;
      }
      buf[next] := Some(e);
      raw[next] := json;
      retainedBytes := retainedBytes + Size(json);
      byID := byID[e.id := e];
      next := (next + 1) % capacity;
      assert buf[..] == old(buf[..])[old(next) := Some(e)] && raw[..] == old(raw[..])[old(next) := json];
    }

    method Evict()
      requires Valid() && live > 0
      modifies this, buf, raw
      ensures Valid() && View() == EvictRing(old(View()))
    {
      ModIsWrap(next - live + capacity, capacity);
      var oldest := (next - live + capacity) % capacity;
      if buf[oldest].Some? {
        Unlink(buf[oldest].value);
      }
      retainedBytes := retainedBytes - Size(raw[oldest]);
      buf[oldest] := None;
      raw[oldest] := None;
      live := live - 1;
      assert buf[..] == old(buf[..])[oldest := None] && raw[..] == old(raw[..])[oldest := None];
    }

    /** contents is what the ring holds before the call; what it holds after is
        the longest suffix of contents and the new record that fits. */
    method Add(e: Entry, json: Option<seq<Byte>>, ghost contents: seq<Rec>)
      requires Valid() && Holds(View(), contents) && FreshSeq(contents, e)
      modifies this, buf, raw
      ensures Valid() && View() == AddRing(old(View()), e, json, byteBudget)
      ensures Holds(View(), if json.Some? && |json.value| > byteBudget then contents else LongestFit(contents + [Rec(e, json)], capacity, byteBudget))
    {
      AddHolds(View(), contents, byteBudget, e, json);
      if Size(json) > byteBudget {
        return;
      }
      NextSlot((buf[..], raw[..]), next, live, contents);
      Write(e, json);
      while retainedBytes > byteBudget && live > 0
        invariant Valid()
        invariant TrimRing(View(), byteBudget) == TrimRing(WriteRing(old(View()), e, json), byteBudget)
        decreases live
      {
        Evict();
      }
    }

    /** Copies of up to depth live entries, newest first. */
    method SnapshotEntries(depth: int) returns (out: seq<Entry>)
      requires Valid()
      ensures out == EntriesOf(Snapshot(View(), Clip(depth, live)))
      ensures forall contents :: Mirrors(View().bufs, next, live, contents) ==> ShowsNewest(contents, depth, out)
    {
      forall contents | Mirrors(View().bufs, next, live, contents)
        ensures ShowsNewest(contents, depth, EntriesOf(Snapshot(View(), Clip(depth, live))))
      {
        SnapshotIsNewest(View(), contents, Clip(depth, live));
      }
      var n := if depth < live then depth else live;
      if n < 0 {
        n := 0;
      }
      out := [];
      for i := 0 to n
        invariant out == EntriesOf(Snapshot(View(), i))
      {
        ghost var pos := ReadAt(View(), i);
        var e := buf[(next - 1 - i + capacity) % capacity];
        if e.Some? {
          out := out + [e.value];
        }
      }
    }

    /** The same with the cached JSON; entries without one are left out of both. */
    method SnapshotRaw(depth: int) returns (entries: seq<Entry>, raws: seq<Option<seq<Byte>>>)
      requires Valid()
      ensures var shown := WithRaw(Snapshot(View(), Clip(depth, live)));
              entries == EntriesOf(shown) && raws == RawOf(shown)
      ensures forall contents :: Mirrors(View().bufs, next, live, contents) ==>
                var n := if depth < 0 then 0 else if depth < live then depth else live;
                var shown := WithRaw(NewestFirst(contents)[..n]);
                entries == EntriesOf(shown) && raws == RawOf(shown)
    {
      forall contents | Mirrors(View().bufs, next, live, contents)
        ensures Snapshot(View(), Clip(depth, live)) == NewestFirst(contents)[..Clip(depth, live)]
      {
        SnapshotIsNewest(View(), contents, Clip(depth, live));
      }
      var n := if depth < live then depth else live;
      if n < 0 {
        n := 0;
      }
      entries, raws := [], [];
      for i := 0 to n
        invariant entries == EntriesOf(WithRaw(Snapshot(View(), i))) && raws == RawOf(WithRaw(Snapshot(View(), i)))
      {
        ghost var pos, before := ReadAt(View(), i), Snapshot(View(), i);
        var idx := (next - 1 - i + capacity) % capacity;
        var e, r := buf[idx], raw[idx];
        if e.Some? {
          assert Snapshot(View(), i + 1) == before + [Rec(e.value, r)];
          ShownSnoc(before, Rec(e.value, r));
        }
        if e.None? || r.None? {
          continue;
        }
        entries := entries + [e.value];
        raws := raws + [r];
      }
    }

    /** The newest live entry with this id, if any. */
    method Lookup(id: string, ghost contents: seq<Rec>) returns (e: Option<Entry>)
      requires Holds(View(), contents)
      ensures e.None? ==> forall k :: 0 <= k < |contents| ==> contents[k].entry.id != id
      ensures e.Some? ==> exists k: nat :: NewestIs(contents, k, id, e.value)
    {
      if id in byID {
        return Some(byID[id]);
      }
      return None;
    }
  }
}
