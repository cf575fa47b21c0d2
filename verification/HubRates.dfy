/** The hub's trailing ingest rates: 300 recycled per-second buckets that must
    report, for each window, exactly what the whole ingest history holds. */
module HubRates {

  const WINDOW := 300
  const MINUTE := 60
  const LIVE := 5

  datatype Status = Success | Error | Warning

  /** One ingested entry: its own timestamp, its status, and the clock reading its
      add took before it got the lock, so readings may come out of order. */
  datatype Obs = Obs(ts: int, status: Status, now: int)

  datatype Bucket = Bucket(sec: int, entries: nat, errors: nat, warnings: nat)

  /** An entry dated in the future counts as current. */
  function Clamped(o: Obs): int { if o.ts > o.now then o.now else o.ts }

  /** What is being counted. */
  datatype Field = Entries | Errors | Warnings

  function Weight(o: Obs, f: Field): nat {
    match f
    case Entries => 1
    case Errors => if o.status == Error then 1 else 0
    case Warnings => if o.status == Warning then 1 else 0
  }

  function Get(b: Bucket, f: Field): nat {
    match f
    case Entries => b.entries
    case Errors => b.errors
    case Warnings => b.warnings
  }

  predicate InWindow(sec: int, now: int, width: nat) { 0 <= now - sec < width }

  /** The reference: how much of the history lies in the window ending at now. */
  function CountIn(hist: seq<Obs>, now: int, width: nat, f: Field): nat {
    if hist == [] then 0
    else
      var o := hist[|hist| - 1];
      CountIn(hist[..|hist| - 1], now, width, f) + if InWindow(Clamped(o), now, width) then Weight(o, f) else 0
  }

  /** Which observations a window covers: dated inside it, a future date counting as
      the moment of its arrival, and of the kind that is counted. */
  predicate Covered(o: Obs, now: int, width: nat, f: Field) {
    var at := if o.ts <= o.now then o.ts else o.now;
    && now - width < at <= now
    && (f == Entries || (f == Errors && o.status == Error) || (f == Warnings && o.status == Warning))
  }

  function Recent(hist: seq<Obs>, now: int, width: nat, f: Field): set<nat> {
    set i | 0 <= i < |hist| && Covered(hist[i], now, width, f)
  }

  lemma {:induction false} CountIsRecent(hist: seq<Obs>, now: int, width: nat, f: Field)
    ensures CountIn(hist, now, width, f) == |Recent(hist, now, width, f)|
  {
    if hist == [] {
      assert Recent(hist, now, width, f) == {};
    } else {
      CountIsRecent(hist[..|hist| - 1], now, width, f);
      RecentStep(hist, now, width, f);
      CoveredWeighs(hist[|hist| - 1], now, width, f);
    }
  }

  lemma RecentStep(hist: seq<Obs>, now: int, width: nat, f: Field)
    requires hist != []
    ensures var n := |hist| - 1;
            |Recent(hist, now, width, f)| == |Recent(hist[..n], now, width, f)| + if Covered(hist[n], now, width, f) then 1 else 0
  {
    var n := |hist| - 1;
    var before, all := Recent(hist[..n], now, width, f), Recent(hist, now, width, f);
    assert n !in before;
    assert all == if Covered(hist[n], now, width, f) then before + {n} else before;
  }

  lemma CoveredWeighs(o: Obs, now: int, width: nat, f: Field)
    ensures (if InWindow(Clamped(o), now, width) then Weight(o, f) else 0) == if Covered(o, now, width, f) then 1 else 0
  {
  }

  /** What the buckets report. */
  function Share(b: Bucket, now: int, width: nat, f: Field): nat {
    if InWindow(b.sec, now, width) then Get(b, f) else 0
  }

  function Sum(rate: seq<Bucket>, now: int, width: nat, f: Field): nat {
    if rate == [] then 0 else Sum(rate[..|rate| - 1], now, width, f) + Share(rate[|rate| - 1], now, width, f)
  }

  // ----- Recording -----------------------------------------------------------

  function Bump(b: Bucket, sec: int, status: Status): Bucket {
    var b := if b.sec != sec then Bucket(sec, 0, 0, 0) else b;
    Bucket(sec, b.entries + 1, b.errors + (if status == Error then 1 else 0), b.warnings + (if status == Warning then 1 else 0))
  }

  function Observe(rate: seq<Bucket>, o: Obs): (r: seq<Bucket>)
    requires |rate| == WINDOW
    ensures |r| == WINDOW
  {
    var sec := Clamped(o);
    if o.now - sec >= WINDOW then rate
    else rate[sec % WINDOW := Bump(rate[sec % WINDOW], sec, o.status)]
  }

  // ----- Second by second ----------------------------------------------------

  /** How much of the history counts for one second. */
  function CountAt(hist: seq<Obs>, sec: int, f: Field): nat {
    if hist == [] then 0
    else
      var o := hist[|hist| - 1];
      CountAt(hist[..|hist| - 1], sec, f) + if Clamped(o) == sec then Weight(o, f) else 0
  }

  /** What the buckets still hold of one second. */
  function Held(rate: seq<Bucket>, sec: int, f: Field): nat
    requires |rate| == WINDOW
  {
    if rate[sec % WINDOW].sec == sec then Get(rate[sec % WINDOW], f) else 0
  }

  predicate Empty(b: Bucket) { b.entries == 0 && b.errors == 0 && b.warnings == 0 }

  predicate BucketOk(b: Bucket, i: nat, clock: int) { b.sec <= clock && (b.sec % WINDOW == i || Empty(b)) }

  ghost predicate BucketsOk(rate: seq<Bucket>, clock: int) {
    |rate| == WINDOW && forall i :: 0 <= i < WINDOW ==> BucketOk(rate[i], i, clock)
  }

  ghost predicate HeldOk(rate: seq<Bucket>, hist: seq<Obs>, sec: int, f: Field)
    requires |rate| == WINDOW
  {
    Held(rate, sec, f) <= CountAt(hist, sec, f)
  }

  /** Whatever the order of the readings, the buckets never invent anything. clock
      is the latest reading. */
  ghost predicate Sound(rate: seq<Bucket>, hist: seq<Obs>, clock: int) {
    BucketsOk(rate, clock) && forall sec, f :: HeldOk(rate, hist, sec, f)
  }

  ghost predicate ExactAt(rate: seq<Bucket>, hist: seq<Obs>, now: int, width: nat, f: Field) {
    Sum(rate, now, width, f) == CountIn(hist, now, width, f)
  }

  /** Every window that ends at the latest reading or later is exact. */
  ghost predicate Exact(rate: seq<Bucket>, hist: seq<Obs>, clock: int) {
    && Sound(rate, hist, clock)
    && (forall now, width: nat, f :: now >= clock && width <= WINDOW ==> ExactAt(rate, hist, now, width, f))
  }

  ghost predicate KeptAt(rate: seq<Bucket>, hist: seq<Obs>, sec: int, f: Field)
    requires |rate| == WINDOW
  {
    Held(rate, sec, f) == CountAt(hist, sec, f)
  }

  lemma {:induction false} CountStep(hist: seq<Obs>, now: int, width: nat, f: Field)
    requires width > 0
    ensures CountIn(hist, now, width, f) == CountIn(hist, now, width - 1, f) + CountAt(hist, now - width + 1, f)
  {
    if hist != [] { CountStep(hist[..|hist| - 1], now, width, f); }
  }

  lemma ShareStep(b: Bucket, now: int, width: nat, f: Field)
    requires width > 0
    ensures Share(b, now, width, f) == Share(b, now, width - 1, f) + if b.sec == now - width + 1 then Get(b, f) else 0
  {
  }

  /** Only the bucket of its own index can hold anything of a second. */
  lemma OnlyOwnBucket(b: Bucket, i: nat, clock: int, sec: int, f: Field)
    requires BucketOk(b, i, clock) && i != sec % WINDOW && b.sec == sec
    ensures Get(b, f) == 0
  {
  }

  lemma {:induction false} SumStep(rate: seq<Bucket>, clock: int, n: nat, now: int, width: nat, f: Field)
    requires BucketsOk(rate, clock) && n <= WINDOW && width > 0
    ensures var sec := now - width + 1;
            Sum(rate[..n], now, width, f) == Sum(rate[..n], now, width - 1, f) + if sec % WINDOW < n then Held(rate, sec, f) else 0
  {
    if n > 0 {
      var sec, b := now - width + 1, rate[n - 1];
      SumStep(rate, clock, n - 1, now, width, f);
      assert rate[..n][..n - 1] == rate[..n - 1];
      ShareStep(b, now, width, f);
      if b.sec == sec && sec % WINDOW != n - 1 { OnlyOwnBucket(b, n - 1, clock, sec, f); }
    }
  }

  /** A window is never reported too large, and exactly if every second in it is
      still held in full. */
  lemma {:induction false} WindowIff(rate: seq<Bucket>, hist: seq<Obs>, clock: int, now: int, width: nat, f: Field)
    requires Sound(rate, hist, clock) && width <= WINDOW
    ensures Sum(rate, now, width, f) <= CountIn(hist, now, width, f)
    ensures ExactAt(rate, hist, now, width, f) <==> forall sec :: now - width < sec <= now ==> KeptAt(rate, hist, sec, f)
  {
    assert rate[..WINDOW] == rate;
    if width == 0 {
      NoWidth(rate, hist, now, f);
    } else {
      var sec := now - width + 1;
      WindowIff(rate, hist, clock, now, width - 1, f);
      SumStep(rate, clock, WINDOW, now, width, f);
      CountStep(hist, now, width, f);
      assert HeldOk(rate, hist, sec, f);
      if ExactAt(rate, hist, now, width - 1, f) && KeptAt(rate, hist, sec, f) {
        forall s | now - width < s <= now ensures KeptAt(rate, hist, s, f) { }
      }
    }
  }

  lemma {:induction false} NoWidth(rate: seq<Bucket>, hist: seq<Obs>, now: int, f: Field)
    ensures Sum(rate, now, 0, f) == 0 && CountIn(hist, now, 0, f) == 0
    decreases |rate| + |hist|
  {
    if rate != [] { NoWidth(rate[..|rate| - 1], hist, now, f); }
    if hist != [] { NoWidth(rate, hist[..|hist| - 1], now, f); }
  }

  /** The seconds of the window that ends at the latest reading are held in full. */
  ghost predicate RecentKept(rate: seq<Bucket>, hist: seq<Obs>, clock: int)
    requires |rate| == WINDOW
  {
    forall sec, f :: sec > clock - WINDOW ==> KeptAt(rate, hist, sec, f)
  }

  lemma ExactIffRecent(rate: seq<Bucket>, hist: seq<Obs>, clock: int)
    requires Sound(rate, hist, clock)
    ensures Exact(rate, hist, clock) <==> RecentKept(rate, hist, clock)
  {
    if Exact(rate, hist, clock) {
      forall sec, f | sec > clock - WINDOW ensures KeptAt(rate, hist, sec, f) {
        var now := if sec > clock then sec else clock;
        assert ExactAt(rate, hist, now, WINDOW, f);
        WindowIff(rate, hist, clock, now, WINDOW, f);
      }
    }
    if RecentKept(rate, hist, clock) {
      forall now, width: nat, f | now >= clock && width <= WINDOW ensures ExactAt(rate, hist, now, width, f) {
        WindowIff(rate, hist, clock, now, width, f);
      }
    }
  }

  // ----- One observation -----------------------------------------------------

  function Max(a: int, b: int): int { if a < b then b else a }

  lemma CountAtSnoc(hist: seq<Obs>, o: Obs, sec: int, f: Field)
    ensures CountAt(hist + [o], sec, f) == CountAt(hist, sec, f) + if Clamped(o) == sec then Weight(o, f) else 0
  {
    assert (hist + [o])[..|hist|] == hist;
  }

  /** What one observation changes: its own second gains, and a second whose bucket
      it recycles is gone. */
  lemma HeldAfter(rate: seq<Bucket>, o: Obs, sec: int, f: Field)
    requires |rate| == WINDOW && o.now - Clamped(o) < WINDOW
    ensures Held(Observe(rate, o), sec, f) ==
            if sec == Clamped(o) then Held(rate, sec, f) + Weight(o, f)
            else if sec % WINDOW == Clamped(o) % WINDOW then 0
            else Held(rate, sec, f)
  {
  }

  lemma SoundAfter(rate: seq<Bucket>, hist: seq<Obs>, clock: int, o: Obs)
    requires Sound(rate, hist, clock)
    ensures Sound(Observe(rate, o), hist + [o], Max(clock, o.now))
  {
    var rate', hist', m := Observe(rate, o), hist + [o], Max(clock, o.now);
    forall i | 0 <= i < WINDOW ensures BucketOk(rate'[i], i, m) { assert BucketOk(rate[i], i, clock); }
    forall sec, f ensures HeldOk(rate', hist', sec, f) {
      assert HeldOk(rate, hist, sec, f);
      CountAtSnoc(hist, o, sec, f);
      if o.now - Clamped(o) < WINDOW { HeldAfter(rate, o, sec, f); }
    }
  }

  /** The entry is recorded into a bucket that still holds entries of a later second,
      one that the window of the latest reading counts. */
  predicate Clobbers(rate: seq<Bucket>, o: Obs, clock: int)
    requires |rate| == WINDOW
  {
    var b := rate[Clamped(o) % WINDOW];
    o.now - Clamped(o) < WINDOW && Clamped(o) < b.sec && clock - b.sec < WINDOW && !Empty(b)
  }

  lemma SameResidue(a: int, b: int)
    requires a % WINDOW == b % WINDOW && a < b
    ensures b - a >= WINDOW
  {
    var q, r := a / WINDOW, b / WINDOW;
    assert a == q * WINDOW + a % WINDOW && b == r * WINDOW + b % WINDOW;
  }

  /** A second the window still counts loses its bucket only to a clobbering entry. */
  lemma RecycledSecond(rate: seq<Bucket>, clock: int, o: Obs, sec: int, f: Field)
    requires BucketsOk(rate, clock) && o.now - Clamped(o) < WINDOW && sec != Clamped(o)
    requires sec > Max(clock, o.now) - WINDOW && sec % WINDOW == Clamped(o) % WINDOW && Held(rate, sec, f) > 0
    ensures Clobbers(rate, o, clock)
  {
    if sec < Clamped(o) { SameResidue(sec, Clamped(o)); }
  }

  lemma KeptAfter(rate: seq<Bucket>, hist: seq<Obs>, clock: int, o: Obs, sec: int, f: Field)
    requires BucketsOk(rate, clock) && !Clobbers(rate, o, clock) && sec > Max(clock, o.now) - WINDOW && KeptAt(rate, hist, sec, f)
    ensures KeptAt(Observe(rate, o), hist + [o], sec, f)
  {
    CountAtSnoc(hist, o, sec, f);
    if o.now - Clamped(o) < WINDOW {
      HeldAfter(rate, o, sec, f);
      if sec != Clamped(o) && sec % WINDOW == Clamped(o) % WINDOW && Held(rate, sec, f) > 0 {
        RecycledSecond(rate, clock, o, sec, f);
      }
    }
  }

  function SomeField(b: Bucket): (f: Field)
    ensures !Empty(b) ==> Get(b, f) > 0
  {
    if b.entries > 0 then Entries else if b.errors > 0 then Errors else Warnings
  }

  /** A clobbered second is lost while the window still counts it. */
  lemma ClobberedIsLost(rate: seq<Bucket>, hist: seq<Obs>, clock: int, o: Obs)
    requires Sound(rate, hist, clock) && Clobbers(rate, o, clock)
    ensures var b := rate[Clamped(o) % WINDOW];
            o.now < clock && b.sec > clock - WINDOW && !KeptAt(Observe(rate, o), hist + [o], b.sec, SomeField(b))
  {
    var i := Clamped(o) % WINDOW;
    var b := rate[i];
    var f := SomeField(b);
    assert BucketOk(b, i, clock);
    SameResidue(Clamped(o), b.sec);
    CountAtSnoc(hist, o, b.sec, f);
    HeldAfter(rate, o, b.sec, f);
    assert HeldOk(rate, hist, b.sec, f);
  }

  /** Whatever the order of the clock readings: if the windows were exact before an
      observation, they are exact after it if and only if it does not clobber. */
  lemma ObserveExactIff(rate: seq<Bucket>, hist: seq<Obs>, clock: int, o: Obs)
    requires Exact(rate, hist, clock)
    ensures Exact(Observe(rate, o), hist + [o], Max(clock, o.now)) <==> !Clobbers(rate, o, clock)
  {
    var rate', hist', m := Observe(rate, o), hist + [o], Max(clock, o.now);
    ExactIffRecent(rate, hist, clock);
    SoundAfter(rate, hist, clock, o);
    ExactIffRecent(rate', hist', m);
    if Clobbers(rate, o, clock) {
      ClobberedIsLost(rate, hist, clock, o);
    } else {
      forall sec, f | sec > m - WINDOW ensures KeptAt(rate', hist', sec, f) {
        assert KeptAt(rate, hist, sec, f);
        KeptAfter(rate, hist, clock, o, sec, f);
      }
    }
  }

  /** An entry whose reading is the latest, however late or future-dated it is, never
      clobbers. */
  lemma InOrderNeverClobbers(rate: seq<Bucket>, clock: int, o: Obs)
    requires BucketsOk(rate, clock) && clock <= o.now
    ensures !Clobbers(rate, o, clock)
  {
    var i := Clamped(o) % WINDOW;
    assert BucketOk(rate[i], i, clock);
    if Clamped(o) < rate[i].sec && rate[i].sec % WINDOW == i { SameResidue(Clamped(o), rate[i].sec); }
  }

  // ----- Whole histories -----------------------------------------------------

  function Fresh(): (rate: seq<Bucket>)
    ensures |rate| == WINDOW
  {
    seq(WINDOW, _ => Bucket(0, 0, 0, 0))
  }

  function RateAfter(hist: seq<Obs>): (rate: seq<Bucket>)
    ensures |rate| == WINDOW
  {
    if hist == [] then Fresh() else Observe(RateAfter(hist[..|hist| - 1]), hist[|hist| - 1])
  }

  /** The latest reading; before the first, the epoch. */
  function ClockAfter(hist: seq<Obs>): int {
    if hist == [] then 0 else Max(ClockAfter(hist[..|hist| - 1]), hist[|hist| - 1].now)
  }

  predicate ClobbersAt(hist: seq<Obs>, n: nat)
    requires n < |hist|
  {
    Clobbers(RateAfter(hist[..n]), hist[n], ClockAfter(hist[..n]))
  }

  ghost predicate ExactAfter(hist: seq<Obs>) { Exact(RateAfter(hist), hist, ClockAfter(hist)) }

  lemma {:induction false} NothingCounted(rate: seq<Bucket>, now: int, width: nat, f: Field)
    requires forall i :: 0 <= i < |rate| ==> Empty(rate[i])
    ensures Sum(rate, now, width, f) == 0
  {
    if rate != [] { NothingCounted(rate[..|rate| - 1], now, width, f); }
  }

  lemma FreshExact()
    ensures Exact(Fresh(), [], 0)
  {
    forall now, width: nat, f ensures ExactAt(Fresh(), [], now, width, f) { NothingCounted(Fresh(), now, width, f); }
  }

  lemma LastStep(hist: seq<Obs>)
    requires hist != [] && ExactAfter(hist[..|hist| - 1])
    ensures ExactAfter(hist) <==> !ClobbersAt(hist, |hist| - 1)
  {
    var n := |hist| - 1;
    assert hist == hist[..n] + [hist[n]];
    ObserveExactIff(RateAfter(hist[..n]), hist[..n], ClockAfter(hist[..n]), hist[n]);
  }

  ghost predicate ExactUpTo(hist: seq<Obs>, n: nat)
    requires n <= |hist|
  {
    forall k :: 0 <= k <= n ==> ExactAfter(hist[..k])
  }

  /** In every history, with readings in any order, the windows are exact all along
      if and only if no observation clobbers. */
  lemma {:induction false} HistoryExactIff(hist: seq<Obs>, n: nat)
    requires n <= |hist|
    ensures ExactUpTo(hist, n) <==> forall k :: 0 <= k < n ==> !ClobbersAt(hist, k)
  {
    if n == 0 {
      assert hist[..0] == [];
      FreshExact();
    } else {
      HistoryExactIff(hist, n - 1);
      assert hist[..n][..n - 1] == hist[..n - 1] && hist[..n][n - 1] == hist[n - 1];
      assert ClobbersAt(hist[..n], n - 1) == ClobbersAt(hist, n - 1);
      if ExactUpTo(hist, n - 1) {
        assert ExactAfter(hist[..n - 1]);
        LastStep(hist[..n]);
      }
    }
  }

  ghost predicate InOrder(hist: seq<Obs>) { forall i, j :: 0 <= i < j < |hist| ==> hist[i].now <= hist[j].now }

  lemma {:induction false} ClockInOrder(hist: seq<Obs>, n: nat)
    requires InOrder(hist) && n < |hist| && hist[0].now >= 0
    ensures ClockAfter(hist[..n]) <= hist[n].now
  {
    if n > 0 {
      ClockInOrder(hist, n - 1);
      assert hist[..n][..n - 1] == hist[..n - 1];
    }
  }

  lemma {:induction false} BucketsAfter(hist: seq<Obs>)
    ensures BucketsOk(RateAfter(hist), ClockAfter(hist)) && Sound(RateAfter(hist), hist, ClockAfter(hist))
  {
    if hist == [] {
      FreshExact();
    } else {
      var n := |hist| - 1;
      BucketsAfter(hist[..n]);
      SoundAfter(RateAfter(hist[..n]), hist[..n], ClockAfter(hist[..n]), hist[n]);
      assert hist == hist[..n] + [hist[n]];
    }
  }

  /** With readings in order the windows are exact over everything ever ingested,
      late and future-dated entries included. */
  lemma ObserveExact(hist: seq<Obs>, n: nat)
    requires InOrder(hist) && n <= |hist| && (hist != [] ==> hist[0].now >= 0)
    ensures ExactAfter(hist[..n])
  {
    forall k | 0 <= k < n ensures !ClobbersAt(hist, k) {
      ClockInOrder(hist, k);
      BucketsAfter(hist[..k]);
      InOrderNeverClobbers(RateAfter(hist[..k]), ClockAfter(hist[..k]), hist[k]);
    }
    HistoryExactIff(hist, n);
  }

  /** Two adds overlap: one reads its clock, waits for the lock while a younger entry
      is recorded, and then records an entry exactly one window older. The younger
      one is current and gone. */
  lemma OverlapLosesEntry(now: int, status: Status, late: Status)
    requires now >= WINDOW
    ensures var hist := [Obs(now, status, now), Obs(now - WINDOW, late, now - 1)];
            && ClobbersAt(hist, 1)
            && CountIn(hist, now, LIVE, Entries) == 1 && Sum(RateAfter(hist), now, WINDOW, Entries) == 0
  {
    var a, b := Obs(now, status, now), Obs(now - WINDOW, late, now - 1);
    var hist := [a, b];
    assert hist[..1] == [a] && [a][..0] == [];
    var r1 := RateAfter([a]);
    assert RateAfter([]) == Fresh() && ClockAfter([]) == 0;
    assert r1 == Observe(RateAfter([a][..0]), a) == Observe(Fresh(), a);
    assert ClockAfter([a]) == now;
    var i := now % WINDOW;
    SameIndex(now);
    var r2 := RateAfter(hist);
    assert r2 == Observe(r1, b);
    assert r1[i].sec == now && Clamped(b) == now - WINDOW;
    assert r2[i].sec == now - WINDOW;
    CountSnoc([], a, now, LIVE, Entries);
    CountSnoc([a], b, now, LIVE, Entries);
    assert [] + [a] == [a] && [a] + [b] == hist;
    forall k | 0 <= k < WINDOW ensures Share(r2[k], now, WINDOW, Entries) == 0 { }
    NoShares(r2, now, WINDOW, Entries);
  }

  lemma SameIndex(sec: int)
    ensures (sec - WINDOW) % WINDOW == sec % WINDOW
  {
    assert sec - WINDOW == (sec / WINDOW - 1) * WINDOW + sec % WINDOW;
  }

  lemma CountSnoc(hist: seq<Obs>, o: Obs, now: int, width: nat, f: Field)
    ensures CountIn(hist + [o], now, width, f)
            == CountIn(hist, now, width, f) + if InWindow(Clamped(o), now, width) then Weight(o, f) else 0
  {
    assert (hist + [o])[..|hist|] == hist;
  }

  lemma {:induction false} NoShares(rate: seq<Bucket>, now: int, width: nat, f: Field)
    requires forall k :: 0 <= k < |rate| ==> Share(rate[k], now, width, f) == 0
    ensures Sum(rate, now, width, f) == 0
  {
    if rate != [] { NoShares(rate[..|rate| - 1], now, width, f); }
  }

  // ----- Readers behind the latest reading -----------------------------------

  /** A reader whose clock lies behind the latest reading: its window is exact if and
      only if none of its seconds that the latest reading's window has left behind
      was lost. */
  lemma ReaderBehindIff(rate: seq<Bucket>, hist: seq<Obs>, clock: int, now: int, width: nat, f: Field)
    requires Exact(rate, hist, clock) && width <= WINDOW
    ensures ExactAt(rate, hist, now, width, f) <==>
            forall sec :: now - width < sec <= now && sec <= clock - WINDOW ==> KeptAt(rate, hist, sec, f)
  {
    ExactIffRecent(rate, hist, clock);
    WindowIff(rate, hist, clock, now, width, f);
  }

  /** So a reader is exact as long as it is behind by no more than its window is
      shorter than the longest one. */
  lemma SlightlyBehindExact(rate: seq<Bucket>, hist: seq<Obs>, clock: int, now: int, width: nat, f: Field)
    requires Exact(rate, hist, clock) && width <= WINDOW && clock - now <= WINDOW - width
    ensures ExactAt(rate, hist, now, width, f)
  {
    ReaderBehindIff(rate, hist, clock, now, width, f);
  }

  // ----- The buckets as they are kept ----------------------------------------

  datatype WindowStats = WindowStats(entries: nat, errors: nat, warnings: nat)

  function StatsOf(hist: seq<Obs>, now: int, width: nat): WindowStats {
    WindowStats(|Recent(hist, now, width, Entries)|, |Recent(hist, now, width, Errors)|, |Recent(hist, now, width, Warnings)|)
  }

  /** Entries a second over a window, in exact arithmetic. */
  function PerSecond(hist: seq<Obs>, now: int, width: nat): real
    requires width > 0
  {
    |Recent(hist, now, width, Entries)| as real / width as real
  }

  function SumStats(rate: seq<Bucket>, now: int, width: nat): WindowStats {
    WindowStats(Sum(rate, now, width, Entries), Sum(rate, now, width, Errors), Sum(rate, now, width, Warnings))
  }

  class RateWindow {
    const rate: array<Bucket>
    ghost var hist: seq<Obs>
    ghost var clock: int

    ghost predicate Valid()
      reads this, rate
    {
      rate.Length == WINDOW && Sound(rate[..], hist, clock)
    }

    ghost predicate IsExact()
      reads this, rate
      requires rate.Length == WINDOW
    {
      Exact(rate[..], hist, clock)
    }

    constructor ()
      ensures Valid() && IsExact() && hist == [] && clock == 0 && fresh(rate)
    {
      rate := new Bucket[WINDOW](_ => Bucket(0, 0, 0, 0));
      hist, clock := [], 0;
      new;
      assert rate[..] == Fresh();
      FreshExact();
    }

    /** now is read before the lock is taken, so it may lie behind clock. Seconds are
        positive, as the source relies on. */
    method ObserveRate(ts: int, status: Status, now: int)
      requires Valid() && now >= WINDOW
      modifies this, rate
      ensures Valid() && hist == old(hist) + [Obs(ts, status, now)] && clock == Max(old(clock), now)
      ensures rate[..] == Observe(old(rate[..]), Obs(ts, status, now))
      ensures old(IsExact()) ==> (IsExact() <==> !Clobbers(old(rate[..]), Obs(ts, status, now), old(clock)))
      ensures old(IsExact()) && now >= old(clock) ==> IsExact()
    {
      ghost var o := Obs(ts, status, now);
      ghost var before := rate[..];
      SoundAfter(before, hist, clock, o);
      if Exact(before, hist, clock) { ObserveExactIff(before, hist, clock, o); }
      if now >= clock { InOrderNeverClobbers(before, clock, o); }
      hist, clock := hist + [o], Max(clock, now);
      var sec := ts;
      if sec > now {
        sec := now;
      }
      if now - sec >= WINDOW {
        return;
      }
      var b := rate[sec % WINDOW];
      if b.sec != sec {
        b := Bucket(sec, 0, 0, 0);
      }
      b := b.(entries := b.entries + 1);
      match status {
        case Error => b := b.(errors := b.errors + 1);
        case Warning => b := b.(warnings := b.warnings + 1);
        case Success =>
      }
      rate[sec % WINDOW] := b;
      assert rate[..] == Observe(before, o);
    }

    /** One pass over the buckets; the rates are entries per second. While the buckets
        are exact, a reader at the latest reading or later gets exact figures over
        everything ever ingested, and one behind it still does for the windows that
        are shorter by as much. */
    method Windows(now: int) returns (perSec: real, w1: WindowStats, perSec1: real, w5: WindowStats, perSec5: real)
      requires Valid()
      ensures w1 == SumStats(rate[..], now, 60) && w5 == SumStats(rate[..], now, 300)
      ensures IsExact() && clock - now <= 295 ==> perSec == PerSecond(hist, now, 5)
      ensures IsExact() && clock - now <= 240 ==> w1 == StatsOf(hist, now, 60) && perSec1 == PerSecond(hist, now, 60)
      ensures IsExact() && clock <= now ==> w5 == StatsOf(hist, now, 300) && perSec5 == PerSecond(hist, now, 300)
    {
      var live := 0;
      w1, w5 := WindowStats(0, 0, 0), WindowStats(0, 0, 0);
      for i := 0 to WINDOW
        invariant live == Sum(rate[..i], now, LIVE, Entries)
        invariant w1 == SumStats(rate[..i], now, MINUTE)
        invariant w5 == SumStats(rate[..i], now, WINDOW)
      {
        assert rate[..i + 1][..i] == rate[..i];
        var b := rate[i];
        var age := now - b.sec;
        if age < 0 || age >= WINDOW {
          continue;
        }
        w5 := WindowStats(w5.entries + b.entries, w5.errors + b.errors, w5.warnings + b.warnings);
        if age < MINUTE {
          w1 := WindowStats(w1.entries + b.entries, w1.errors + b.errors, w1.warnings + b.warnings);
        }
        if age < LIVE {
          live := live + b.entries;
        }
      }
      assert rate[..WINDOW] == rate[..];
      perSec, perSec1, perSec5 := live as real / 5.0, w1.entries as real / 60.0, w5.entries as real / 300.0;
      StatsExact(rate[..], hist, clock, now, LIVE);
      StatsExact(rate[..], hist, clock, now, MINUTE);
      StatsExact(rate[..], hist, clock, now, WINDOW);
    }
  }

  lemma StatsExact(rate: seq<Bucket>, hist: seq<Obs>, clock: int, now: int, width: nat)
    requires width <= WINDOW
    ensures Exact(rate, hist, clock) && clock - now <= WINDOW - width ==> SumStats(rate, now, width) == StatsOf(hist, now, width)
  {
    if Exact(rate, hist, clock) && clock - now <= WINDOW - width {
      SlightlyBehindExact(rate, hist, clock, now, width, Entries);
      SlightlyBehindExact(rate, hist, clock, now, width, Errors);
      SlightlyBehindExact(rate, hist, clock, now, width, Warnings);
      CountIsRecent(hist, now, width, Entries);
      CountIsRecent(hist, now, width, Errors);
      CountIsRecent(hist, now, width, Warnings);
    }
  }
}
