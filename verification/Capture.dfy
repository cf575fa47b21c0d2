/** On-demand capture: any number of hubs keep one capture session in the worker
    DaemonSet's annotations, by optimistic read-then-patch against the API server,
    beside a DaemonSet controller that updates the status and other writers that
    leave the reserved keys alone. */
module Capture {
  import opened Basics

  const GATE := "k8shark.io/capture-stopped"
  const DISABLED := "k8shark.io/capture-disabled"
  const STATE := "k8shark.io/capture-state"
  const EXPIRY := "k8shark.io/capture-expiry"

  /** Nanoseconds; instants count from the zero time. */
  const SECOND := 1_000_000_000

  type Keys = map<string, string>

  /** A missing key reads as the empty string. */
  function At(m: Keys, k: string): string { if k in m then m[k] else "" }

  datatype Status = Status(observed: int, desired: int, ready: int, current: int, misscheduled: int)

  datatype DaemonSet = DaemonSet(
    annotations: Keys, selector: Keys, gates: seq<string>, version: nat, generation: int, status: Status)

  /** The RFC 3339 formatter and parser, and the hub's settings. */
  datatype Config = Config(
    format: int -> string, parse: string -> Option<int>, defaultDuration: int, maxDuration: int, horizon: int)

  function WholeSeconds(t: int): int { t - t % SECOND }

  /** Formatting drops the fraction of a second; parsing gives the rest back, up
      to the last year the format can write. */
  ghost predicate Sound(c: Config) {
    c.maxDuration > 0 && 0 < c.defaultDuration &&
    forall t :: 0 < t < c.horizon ==> c.format(t) != "" && c.parse(c.format(t)) == Some(WholeSeconds(t))
  }

  // ----- A configuration that keeps these promises ---------------------------

  /** Whole seconds in unary: a formatter that drops the fraction. */
  function Unary(t: int): string { if t < SECOND then "." else "s" + Unary(t - SECOND) }

  function Unread(s: string): int { if s == "" || s[0] != 's' then 0 else SECOND + Unread(s[1..]) }

  lemma {:induction false} UnaryReadsBack(t: int)
    requires t >= 0
    ensures Unary(t) != "" && Unread(Unary(t)) == WholeSeconds(t)
    decreases t
  {
    if t >= SECOND {
      UnaryReadsBack(t - SECOND);
      assert Unary(t)[1..] == Unary(t - SECOND);
    }
  }

  lemma SoundConfig(maxDuration: int, defaultDuration: int, horizon: int)
    requires maxDuration > 0 && defaultDuration > 0
    ensures Sound(Config(Unary, s => Some(Unread(s)), defaultDuration, maxDuration, horizon))
  {
    forall t | 0 < t < horizon ensures Unary(t) != "" && Unread(Unary(t)) == WholeSeconds(t) { UnaryReadsBack(t); }
  }

  // ----- What the hub reads off the DaemonSet --------------------------------

  /** The session's expiry; the zero time if there is none or it does not parse. */
  function Expires(c: Config, ds: DaemonSet): int {
    var raw := At(ds.annotations, EXPIRY);
    if raw != "" && c.parse(raw).Some? then c.parse(raw).value else 0
  }

  predicate StoppedAt(c: Config, ds: DaemonSet, now: int) {
    At(ds.annotations, STATE) != "running" || (Expires(c, ds) != 0 && Expires(c, ds) <= now)
  }

  predicate Legacy(gates: seq<string>) { exists i :: 0 <= i < |gates| && gates[i] == GATE }

  datatype Phase = Stopped | Stopping | Running | Starting

  function Describe(c: Config, ds: DaemonSet, now: int): Phase {
    var s := ds.status;
    if StoppedAt(c, ds, now) then
      if At(ds.selector, DISABLED) == "true" && s.observed >= ds.generation && s.desired == 0 && s.ready == 0 &&
         s.current == 0 && s.misscheduled == 0 then Stopped else Stopping
    else if s.observed >= ds.generation && s.desired > 0 && s.ready >= s.desired then Running
    else Starting
  }

  /** The session is over: not on record as running, or with an expiry that reads as
      an instant no later than now. */
  ghost predicate Over(c: Config, ds: DaemonSet, now: int) {
    || At(ds.annotations, "k8shark.io/capture-state") != "running"
    || exists t :: EndsAt(c, ds, t) && t <= now
  }

  ghost predicate EndsAt(c: Config, ds: DaemonSet, t: int) {
    var raw := At(ds.annotations, "k8shark.io/capture-expiry");
    raw != "" && c.parse(raw) == Some(t) && t != 0
  }

  /** Switched off, and the controller, having seen the switch, reports no worker
      of any kind. */
  predicate Quiesced(ds: DaemonSet) {
    && At(ds.selector, "k8shark.io/capture-disabled") == "true" && ds.status.observed >= ds.generation
    && ds.status.desired == 0 && ds.status.ready == 0 && ds.status.current == 0 && ds.status.misscheduled == 0
  }

  /** The controller has seen the current configuration, and all of at least one
      desired worker are ready. */
  predicate AllReady(ds: DaemonSet) {
    ds.status.observed >= ds.generation && ds.status.desired > 0 && ds.status.ready >= ds.status.desired
  }

  /** The phase a caller is told. */
  ghost predicate Told(c: Config, ds: DaemonSet, now: int, p: Phase) {
    && (p == Stopped <==> Over(c, ds, now) && Quiesced(ds))
    && (p == Stopping <==> Over(c, ds, now) && !Quiesced(ds))
    && (p == Running <==> !Over(c, ds, now) && AllReady(ds))
    && (p == Starting <==> !Over(c, ds, now) && !AllReady(ds))
  }

  lemma OverIffStopped(c: Config, ds: DaemonSet, now: int)
    ensures Over(c, ds, now) <==> StoppedAt(c, ds, now)
  {
    assert EndsAt(c, ds, Expires(c, ds)) <==> Expires(c, ds) != 0;
  }

  lemma DescribeTells(c: Config, ds: DaemonSet, now: int)
    ensures Told(c, ds, now, Describe(c, ds, now))
  {
    OverIffStopped(c, ds, now);
  }

  // ----- Patches -------------------------------------------------------------

  /** A merge patch; an expiry of None and a cleared disable remove their keys, a
      gate list is sent only to drop the legacy gate. */
  datatype Patch = Patch(version: nat, state: string, expiry: Option<string>, disable: bool, gates: Option<seq<string>>)

  function OtherGates(gates: seq<string>): (r: seq<string>)
    ensures !Legacy(r)
  {
    if gates == [] then []
    else
      var before, g := OtherGates(gates[..|gates| - 1]), gates[|gates| - 1];
      if g == GATE then before else before + [g]
  }

  function PatchOf(c: Config, ds: DaemonSet, state: string, expiry: Option<int>, stopped: bool): Patch {
    Patch(ds.version, state,
      if expiry.Some? then Some(c.format(expiry.value)) else None,
      stopped,
      if Legacy(ds.gates) then Some(OtherGates(ds.gates)) else None)
  }

  function Without(m: Keys, k: string): Keys { m - {k} }

  /** The merge, and the version and generation the API server then gives. */
  function Merged(ds: DaemonSet, p: Patch): DaemonSet {
    var annotations := ds.annotations[STATE := p.state];
    var annotations' := if p.expiry.Some? then annotations[EXPIRY := p.expiry.value] else Without(annotations, EXPIRY);
    var selector := if p.disable then ds.selector[DISABLED := "true"] else Without(ds.selector, DISABLED);
    var gates := if p.gates.Some? then p.gates.value else ds.gates;
    var generation := if selector == ds.selector && gates == ds.gates then ds.generation else ds.generation + 1;
    var merged := ds.(annotations := annotations', selector := selector, gates := gates, generation := generation);
    if merged == ds then ds else merged.(version := ds.version + 1)
  }

  /** A patch made from another version is refused. */
  function Served(ds: DaemonSet, p: Patch): DaemonSet { if p.version == ds.version then Merged(ds, p) else ds }

  // ----- What each operation decides -----------------------------------------

  predicate ReconcileNeeds(c: Config, ds: DaemonSet, now: int) {
    var stopped := StoppedAt(c, ds, now);
    Legacy(ds.gates) || (stopped && At(ds.selector, DISABLED) != "true") || (!stopped && DISABLED in ds.selector) ||
    (stopped && At(ds.annotations, EXPIRY) != "")
  }

  function ReconcilePatch(c: Config, ds: DaemonSet, now: int): Patch {
    if StoppedAt(c, ds, now) then PatchOf(c, ds, "stopped", None, true)
    else PatchOf(c, ds, "running", if Expires(c, ds) != 0 then Some(Expires(c, ds)) else None, false)
  }

  function StartPatch(c: Config, ds: DaemonSet, stamp: int, duration: int): Patch {
    PatchOf(c, ds, "running", Some(stamp + duration), false)
  }

  function StopPatch(c: Config, ds: DaemonSet): Patch { PatchOf(c, ds, "stopped", None, true) }

  function Normalized(c: Config, duration: int): int { if duration == 0 then c.defaultDuration else duration }

  predicate DurationOk(c: Config, d: int) { 0 < d <= c.maxDuration }

  datatype Op = Start(duration: int) | Stop | Reconcile

  /** The operation with its default filled in; a start out of range is refused
      before anything is read. */
  function Asked(c: Config, op: Op): Op { if op.Start? then Start(Normalized(c, op.duration)) else op }

  predicate OpOk(c: Config, op: Op) { op.Start? ==> DurationOk(c, Normalized(c, op.duration)) }

  // ----- The whole system ----------------------------------------------------

  /** Why a patch is under way: who stamped it when, or when it was decided. */
  datatype Cause = ByStart(stamp: int, duration: int) | ByStop | ByReconcile(at: int)

  /** One hub; its lock admits one operation at a time. */
  datatype Hub =
    | Idle
    | Read(op: Op, snap: DaemonSet)
    | Approved(duration: int, snap: DaemonSet)
    | Sending(cause: Cause, snap: DaemonSet, patch: Patch)

  /** Every hub reads its own clock. started is when, by the clock of the hub that
      started it, the current session's patch was stamped. */
  datatype World = World(ds: DaemonSet, clocks: seq<int>, hubs: seq<Hub>, started: int)

  datatype Step =
    | Tick(h: nat, now: int)
    | StatusUpdate(status: Status)
    | Foreign(annotations: Keys, selector: Keys, gates: seq<string>)
    | Get(h: nat, op: Op)
    | Decide(h: nat)
    | Stamp(h: nat)
    | Land(h: nat)
    | Lose(h: nat)

  /** A foreign write leaves the reserved keys and the legacy gate as they are. */
  predicate LeavesReserved(ds: DaemonSet, annotations: Keys, selector: Keys, gates: seq<string>) {
    SameKey(ds.annotations, annotations, STATE) && SameKey(ds.annotations, annotations, EXPIRY) &&
    SameKey(ds.selector, selector, DISABLED) && (Legacy(ds.gates) == Legacy(gates))
  }

  predicate SameKey(m: Keys, n: Keys, k: string) { (k in m <==> k in n) && At(m, k) == At(n, k) }

  function DecideFor(c: Config, op: Op, snap: DaemonSet, now: int): Hub {
    match op
    case Start(d) => if Describe(c, snap, now).Starting? || Describe(c, snap, now).Running? then Idle else Approved(d, snap)
    case Stop => if Describe(c, snap, now).Stopped? then Idle else Sending(ByStop, snap, StopPatch(c, snap))
    case Reconcile =>
      if ReconcileNeeds(c, snap, now) then Sending(ByReconcile(now), snap, ReconcilePatch(c, snap, now)) else Idle
  }

  predicate Enabled(c: Config, w: World, s: Step) {
    match s
    case Tick(h, now) => h < |w.clocks| && w.clocks[h] <= now
    case StatusUpdate(_) => true
    case Foreign(annotations, selector, gates) => LeavesReserved(w.ds, annotations, selector, gates)
    case Get(h, op) => h < |w.hubs| && w.hubs[h].Idle? && OpOk(c, op)
    case Decide(h) => h < |w.hubs| == |w.clocks| && w.hubs[h].Read?
    case Stamp(h) => h < |w.hubs| == |w.clocks| && w.hubs[h].Approved? && w.clocks[h] + w.hubs[h].duration < c.horizon
    case Land(h) => h < |w.hubs| && w.hubs[h].Sending?
    case Lose(h) => h < |w.hubs| && !w.hubs[h].Idle?
  }

  /** Written back by somebody else; the spec's generation is the server's. */
  function Rewritten(ds: DaemonSet, annotations: Keys, selector: Keys, gates: seq<string>): DaemonSet {
    ds.(annotations := annotations, selector := selector, gates := gates, version := ds.version + 1,
        generation := if selector == ds.selector && gates == ds.gates then ds.generation else ds.generation + 1)
  }

  function Landed(w: World, h: nat): World
    requires h < |w.hubs| && w.hubs[h].Sending?
  {
    var hub := w.hubs[h];
    w.(ds := Served(w.ds, hub.patch), hubs := w.hubs[h := Idle],
       started := if hub.cause.ByStart? && hub.patch.version == w.ds.version then hub.cause.stamp else w.started)
  }

  function Next(c: Config, w: World, s: Step): World
    requires Enabled(c, w, s)
  {
    match s
    case Tick(h, now) => w.(clocks := w.clocks[h := now])
    case StatusUpdate(status) => w.(ds := w.ds.(status := status, version := w.ds.version + 1))
    case Foreign(annotations, selector, gates) => w.(ds := Rewritten(w.ds, annotations, selector, gates))
    case Get(h, op) => w.(hubs := w.hubs[h := Read(Asked(c, op), w.ds)])
    case Decide(h) => w.(hubs := w.hubs[h := DecideFor(c, w.hubs[h].op, w.hubs[h].snap, w.clocks[h])])
    case Stamp(h) =>
      var hub, now := w.hubs[h], w.clocks[h];
      w.(hubs := w.hubs[h := Sending(ByStart(now, hub.duration), hub.snap, StartPatch(c, hub.snap, now, hub.duration))])
    case Land(h) => Landed(w, h)
    case Lose(h) => w.(hubs := w.hubs[h := Idle])
  }

  predicate Runs(c: Config, w: World, steps: seq<Step>)
    decreases |steps|
  {
    steps == [] || (Enabled(c, w, steps[0]) && Runs(c, Next(c, w, steps[0]), steps[1..]))
  }

  function After(c: Config, w: World, steps: seq<Step>): World
    requires Runs(c, w, steps)
    decreases |steps|
  {
    if steps == [] then w else After(c, Next(c, w, steps[0]), steps[1..])
  }

  // ----- The invariant -------------------------------------------------------

  /** A snapshot of the current version is the current object. */
  predicate Fresh(snap: DaemonSet, ds: DaemonSet) { snap.version <= ds.version && (snap.version == ds.version ==> snap == ds) }

  predicate CauseOk(c: Config, cause: Cause, snap: DaemonSet, patch: Patch, now: int) {
    match cause
    case ByStart(t, d) =>
      SECOND <= t <= now && DurationOk(c, d) && t + d < c.horizon && StoppedAt(c, snap, now) && patch == StartPatch(c, snap, t, d)
    case ByStop => patch == StopPatch(c, snap)
    case ByReconcile(at) => at <= now && ReconcileNeeds(c, snap, at) && patch == ReconcilePatch(c, snap, at)
  }

  predicate HubOk(c: Config, hub: Hub, now: int) {
    match hub
    case Idle => true
    case Read(op, _) => op.Start? ==> DurationOk(c, op.duration)
    case Approved(d, snap) => DurationOk(c, d) && StoppedAt(c, snap, now)
    case Sending(cause, snap, patch) => CauseOk(c, cause, snap, patch, now)
  }

  /** A session that is on has an expiry, in whole seconds, at most maxDuration
      after its start. */
  predicate SessionOk(c: Config, ds: DaemonSet, started: int) {
    At(ds.annotations, STATE) == "running" ==>
      var e := Expires(c, ds);
      0 < e < c.horizon && e % SECOND == 0 && e <= started + c.maxDuration
  }

  predicate SnapFresh(w: World, i: nat)
    requires i < |w.hubs|
  {
    w.hubs[i].Idle? || Fresh(w.hubs[i].snap, w.ds)
  }

  predicate HubFine(c: Config, w: World, i: nat)
    requires i < |w.hubs| == |w.clocks|
  {
    SnapFresh(w, i) && w.clocks[i] >= SECOND && HubOk(c, w.hubs[i], w.clocks[i])
  }

  ghost predicate Inv(c: Config, w: World) {
    |w.clocks| == |w.hubs| && SessionOk(c, w.ds, w.started) &&
    forall i :: 0 <= i < |w.hubs| ==> HubFine(c, w, i)
  }

  // ----- What a merge leaves behind ------------------------------------------

  lemma MergedAnnotations(ds: DaemonSet, p: Patch)
    ensures var a := Merged(ds, p).annotations;
            At(a, STATE) == p.state && At(a, EXPIRY) == (if p.expiry.Some? then p.expiry.value else "") &&
            a - {STATE, EXPIRY} == ds.annotations - {STATE, EXPIRY}
  {
    assert |STATE| != |EXPIRY|;
  }

  lemma MergedSelector(ds: DaemonSet, p: Patch)
    ensures var n := Merged(ds, p).selector;
            (DISABLED in n <==> p.disable) && (p.disable ==> At(n, DISABLED) == "true") &&
            n - {DISABLED} == ds.selector - {DISABLED}
  {
  }

  lemma {:induction false} OtherGatesKeep(gates: seq<string>)
    ensures !Legacy(gates) ==> OtherGates(gates) == gates
  {
    if gates != [] {
      var n := |gates| - 1;
      OtherGatesKeep(gates[..n]);
      if !Legacy(gates) {
        assert !Legacy(gates[..n]);
        assert gates == gates[..n] + [gates[n]];
      }
    }
  }

  /** A hub's patch drops the legacy gate and no other. */
  lemma MergedGates(c: Config, ds: DaemonSet, state: string, expiry: Option<int>, stopped: bool)
    ensures var m := Merged(ds, PatchOf(c, ds, state, expiry, stopped));
            m.gates == OtherGates(ds.gates) && !Legacy(m.gates)
  {
    OtherGatesKeep(ds.gates);
  }

  /** The server bumps the version exactly when anything changed, and the generation
      exactly when the pod template did; the status is the controller's. */
  lemma MergedVersion(ds: DaemonSet, p: Patch)
    ensures var m := Merged(ds, p);
            && m.status == ds.status
            && m.version == (if (m.annotations, m.selector, m.gates) == (ds.annotations, ds.selector, ds.gates) then ds.version else ds.version + 1)
            && m.generation == (if (m.selector, m.gates) == (ds.selector, ds.gates) then ds.generation else ds.generation + 1)
            && (m == ds || m.version == ds.version + 1)
  {
  }

  // ----- Every step keeps the invariant --------------------------------------

  lemma StartedSession(c: Config, ds: DaemonSet, t: int, d: int)
    requires Sound(c) && SECOND <= t && DurationOk(c, d) && t + d < c.horizon
    ensures SessionOk(c, Merged(ds, StartPatch(c, ds, t, d)), t)
  {
    MergedAnnotations(ds, StartPatch(c, ds, t, d));
  }

  lemma StoppedSession(c: Config, ds: DaemonSet, started: int)
    ensures SessionOk(c, Merged(ds, StopPatch(c, ds)), started)
  {
    MergedAnnotations(ds, StopPatch(c, ds));
  }

  /** Reconciling an active session writes back the expiry it read. */
  lemma ReconciledExpiry(c: Config, ds: DaemonSet, started: int, at: int)
    requires Sound(c) && SessionOk(c, ds, started) && !StoppedAt(c, ds, at)
    ensures var m := Merged(ds, ReconcilePatch(c, ds, at));
            Expires(c, m) == Expires(c, ds) && At(m.annotations, STATE) == "running"
  {
    MergedAnnotations(ds, ReconcilePatch(c, ds, at));
  }

  lemma ReconciledSession(c: Config, ds: DaemonSet, started: int, at: int)
    requires Sound(c) && SessionOk(c, ds, started)
    ensures SessionOk(c, Merged(ds, ReconcilePatch(c, ds, at)), started)
  {
    if StoppedAt(c, ds, at) { StoppedSession(c, ds, started); } else { ReconciledExpiry(c, ds, started, at); }
  }

  lemma LandSession(c: Config, w: World, h: nat)
    requires Sound(c) && Inv(c, w) && Enabled(c, w, Land(h))
    ensures SessionOk(c, Landed(w, h).ds, Landed(w, h).started)
  {
    assert HubFine(c, w, h);
    var hub := w.hubs[h];
    if hub.patch.version == w.ds.version {
      match hub.cause
      case ByStart(t, d) => StartedSession(c, w.ds, t, d);
      case ByStop => StoppedSession(c, w.ds, w.started);
      case ByReconcile(at) => ReconciledSession(c, w.ds, w.started, at);
    }
  }

  lemma ForeignSession(c: Config, ds: DaemonSet, annotations: Keys, selector: Keys, gates: seq<string>)
    requires LeavesReserved(ds, annotations, selector, gates)
    ensures var r := Rewritten(ds, annotations, selector, gates);
            Expires(c, r) == Expires(c, ds) && At(r.annotations, STATE) == At(ds.annotations, STATE)
  {
  }

  lemma NextSession(c: Config, w: World, s: Step)
    requires Sound(c) && Inv(c, w) && Enabled(c, w, s)
    ensures SessionOk(c, Next(c, w, s).ds, Next(c, w, s).started)
  {
    match s
    case Foreign(annotations, selector, gates) => ForeignSession(c, w.ds, annotations, selector, gates);
    case Land(h) => LandSession(c, w, h);
    case _ =>
  }

  lemma HubWaits(c: Config, hub: Hub, now: int, later: int)
    requires now <= later && HubOk(c, hub, now)
    ensures HubOk(c, hub, later)
  {
  }

  /** The object only changes together with its version. */
  lemma VersionGuards(c: Config, w: World, s: Step)
    requires Enabled(c, w, s)
    ensures var ds := Next(c, w, s).ds; ds == w.ds || ds.version == w.ds.version + 1
  {
    if s.Land? { MergedVersion(w.ds, w.hubs[s.h].patch); }
  }

  predicate Acts(s: Step, i: nat) { !s.Tick? && !s.StatusUpdate? && !s.Foreign? && s.h == i }

  lemma BystanderFine(c: Config, w: World, s: Step, i: nat)
    requires Enabled(c, w, s) && i < |w.hubs| == |w.clocks| && HubFine(c, w, i) && !Acts(s, i)
    ensures var w' := Next(c, w, s); i < |w'.hubs| == |w'.clocks| && HubFine(c, w', i)
  {
    VersionGuards(c, w, s);
    HubWaits(c, w.hubs[i], w.clocks[i], Next(c, w, s).clocks[i]);
  }

  lemma ActorFine(c: Config, w: World, s: Step, i: nat)
    requires Enabled(c, w, s) && i < |w.hubs| == |w.clocks| && HubFine(c, w, i) && Acts(s, i)
    ensures var w' := Next(c, w, s); i < |w'.hubs| == |w'.clocks| && HubFine(c, w', i)
  {
    if s.Decide? {
      var hub := w.hubs[i];
      assert Next(c, w, s).hubs[i] == DecideFor(c, hub.op, hub.snap, w.clocks[i]);
    }
  }

  lemma NextInv(c: Config, w: World, s: Step)
    requires Sound(c) && Inv(c, w) && Enabled(c, w, s)
    ensures Inv(c, Next(c, w, s))
  {
    NextSession(c, w, s);
    var w' := Next(c, w, s);
    forall i | 0 <= i < |w'.hubs| ensures HubFine(c, w', i) {
      assert HubFine(c, w, i);
      if Acts(s, i) { ActorFine(c, w, s, i); } else { BystanderFine(c, w, s, i); }
    }
  }

  lemma {:induction false} AfterInv(c: Config, w: World, steps: seq<Step>)
    requires Sound(c) && Inv(c, w) && Runs(c, w, steps)
    ensures Inv(c, After(c, w, steps))
    decreases |steps|
  {
    if steps != [] {
      NextInv(c, w, steps[0]);
      AfterInv(c, Next(c, w, steps[0]), steps[1..]);
    }
  }

  // ----- Active sessions keep their expiry -----------------------------------

  /** A session that is on by the clock of every hub. */
  predicate Active(c: Config, w: World) {
    At(w.ds.annotations, STATE) == "running" && forall i :: 0 <= i < |w.clocks| ==> !StoppedAt(c, w.ds, w.clocks[i])
  }

  lemma LandKeepsExpiry(c: Config, w: World, h: nat)
    requires Sound(c) && Inv(c, w) && Enabled(c, w, Land(h)) && Active(c, w) && Active(c, Landed(w, h))
    ensures Expires(c, Landed(w, h).ds) == Expires(c, w.ds) && Landed(w, h).started == w.started
  {
    assert HubFine(c, w, h);
    var hub := w.hubs[h];
    if hub.patch.version == w.ds.version {
      match hub.cause
      case ByStart(t, d) =>
      case ByStop => MergedAnnotations(w.ds, StopPatch(c, w.ds));
      case ByReconcile(at) =>
        MergedAnnotations(w.ds, StopPatch(c, w.ds));
        if !StoppedAt(c, w.ds, at) { ReconciledExpiry(c, w.ds, w.started, at); }
    }
  }

  /** No step moves the expiry of a session that is active before and after. */
  lemma NextKeepsExpiry(c: Config, w: World, s: Step)
    requires Sound(c) && Inv(c, w) && Enabled(c, w, s) && Active(c, w) && Active(c, Next(c, w, s))
    ensures Expires(c, Next(c, w, s).ds) == Expires(c, w.ds) && Next(c, w, s).started == w.started
  {
    match s
    case Foreign(annotations, selector, gates) => ForeignSession(c, w.ds, annotations, selector, gates);
    case Land(h) => LandKeepsExpiry(c, w, h);
    case _ =>
  }

  predicate ActiveThroughout(c: Config, w: World, steps: seq<Step>)
    requires Runs(c, w, steps)
    decreases |steps|
  {
    Active(c, w) && (steps == [] || ActiveThroughout(c, Next(c, w, steps[0]), steps[1..]))
  }

  lemma ActiveStart(c: Config, w: World, steps: seq<Step>)
    requires Runs(c, w, steps) && ActiveThroughout(c, w, steps)
    ensures Active(c, w)
  {
  }

  /** As long as a session stays active by every hub's clock, nobody moves its
      expiry, and that is at most maxDuration after its start. */
  lemma {:induction false} ExpiryNeverMoves(c: Config, w: World, steps: seq<Step>)
    requires Sound(c) && Inv(c, w) && Runs(c, w, steps) && ActiveThroughout(c, w, steps)
    ensures var w' := After(c, w, steps);
            Expires(c, w'.ds) == Expires(c, w.ds) && w'.started == w.started &&
            Expires(c, w'.ds) <= w.started + c.maxDuration && forall i :: 0 <= i < |w'.clocks| ==> w'.clocks[i] < Expires(c, w'.ds)
    decreases |steps|
  {
    if steps != [] {
      var w1 := Next(c, w, steps[0]);
      NextInv(c, w, steps[0]);
      ActiveStart(c, w1, steps[1..]);
      NextKeepsExpiry(c, w, steps[0]);
      ExpiryNeverMoves(c, w1, steps[1..]);
    }
  }

  /** Hubs that have not begun, beside a DaemonSet with no session on. */
  predicate Initial(w: World) {
    At(w.ds.annotations, STATE) != "running" && |w.clocks| == |w.hubs| &&
    forall i :: 0 <= i < |w.hubs| ==> w.hubs[i].Idle? && w.clocks[i] >= SECOND
  }

  /** Whatever the hubs and the others did, a session that is on ends at most
      maxDuration after its start. */
  lemma SessionBounded(c: Config, w: World, steps: seq<Step>)
    requires Sound(c) && Initial(w) && Runs(c, w, steps)
    ensures var w' := After(c, w, steps);
            At(w'.ds.annotations, STATE) == "running" ==> 0 < Expires(c, w'.ds) <= w'.started + c.maxDuration
  {
    AfterInv(c, w, steps);
  }

  /** A session never ends by itself exactly when it is on and its expiry is
      missing or cannot be read. */
  lemma NeverExpiresIff(c: Config, ds: DaemonSet)
    ensures (forall now :: !StoppedAt(c, ds, now)) <==> At(ds.annotations, STATE) == "running" && Expires(c, ds) == 0
  {
    assert StoppedAt(c, ds, Expires(c, ds)) <==> !(At(ds.annotations, STATE) == "running" && Expires(c, ds) == 0);
  }

  lemma StartedExpiry(c: Config, ds: DaemonSet, t: int, d: int)
    requires Sound(c) && SECOND <= t && 0 < d && t + d < c.horizon
    ensures var m := Merged(ds, StartPatch(c, ds, t, d));
            Expires(c, m) == WholeSeconds(t + d) > 0 && At(m.annotations, STATE) == "running"
  {
    MergedAnnotations(ds, StartPatch(c, ds, t, d));
  }

  lemma RunsCons(c: Config, w: World, s: Step, rest: seq<Step>)
    requires Enabled(c, w, s) && Runs(c, Next(c, w, s), rest)
    ensures Runs(c, w, [s] + rest) && After(c, w, [s] + rest) == After(c, Next(c, w, s), rest)
  {
    assert ([s] + rest)[1..] == rest;
  }

  /** What hub h holds, and where its patch goes, once it has read and approved. */
  lemma ApprovedLands(c: Config, w: World, h: nat, d: int)
    requires h < |w.hubs| == |w.clocks| && w.hubs[h] == Approved(d, w.ds) && w.clocks[h] + d < c.horizon
    ensures Runs(c, w, [Stamp(h)] + ([Land(h)] + []))
    ensures After(c, w, [Stamp(h)] + ([Land(h)] + [])).ds == Merged(w.ds, StartPatch(c, w.ds, w.clocks[h], d))
  {
    var w' := Next(c, w, Stamp(h));
    RunsCons(c, w', Land(h), []);
    RunsCons(c, w, Stamp(h), [Land(h)] + []);
  }

  lemma StartDecides(c: Config, w: World, h: nat, d: int)
    requires h < |w.hubs| == |w.clocks| && w.hubs[h].Idle? && DurationOk(c, d)
    ensures Enabled(c, w, Get(h, Start(d))) && Enabled(c, Next(c, w, Get(h, Start(d))), Decide(h))
    ensures Next(c, Next(c, w, Get(h, Start(d))), Decide(h)) ==
            w.(hubs := w.hubs[h := if StoppedAt(c, w.ds, w.clocks[h]) then Approved(d, w.ds) else Idle])
  {
    var w1 := Next(c, w, Get(h, Start(d)));
    assert w1.hubs[h] == Read(Start(d), w.ds);
    assert w.hubs[h := Read(Start(d), w.ds)][h := Idle] == w.hubs[h := Idle];
  }

  /** A start at hub h, as steps nobody interrupts. */
  function StartSteps(h: nat, d: int): seq<Step> { [Get(h, Start(d))] + ([Decide(h)] + ([Stamp(h)] + ([Land(h)] + []))) }

  /** Every hub goes by its own clock: a hub by whose clock the session is over
      replaces its expiry, however active the session is by the others' clocks, and
      a hub by whose clock it is active leaves it alone. */
  lemma StartReplacesIffOver(c: Config, w: World, h: nat, d: int)
    requires Sound(c) && Inv(c, w) && h < |w.hubs| && w.hubs[h].Idle? && DurationOk(c, d) && w.clocks[h] + d < c.horizon
    ensures if StoppedAt(c, w.ds, w.clocks[h]) then
              Runs(c, w, StartSteps(h, d)) && Expires(c, After(c, w, StartSteps(h, d)).ds) == WholeSeconds(w.clocks[h] + d)
            else
              Runs(c, w, [Get(h, Start(d))] + ([Decide(h)] + [])) && After(c, w, [Get(h, Start(d))] + ([Decide(h)] + [])) == w
  {
    assert HubFine(c, w, h);
    StartDecides(c, w, h, d);
    var w1 := Next(c, w, Get(h, Start(d)));
    var w2 := Next(c, w1, Decide(h));
    if StoppedAt(c, w.ds, w.clocks[h]) {
      ApprovedLands(c, w2, h, d);
      RunsCons(c, w1, Decide(h), [Stamp(h)] + ([Land(h)] + []));
      RunsCons(c, w, Get(h, Start(d)), [Decide(h)] + ([Stamp(h)] + ([Land(h)] + [])));
      StartedExpiry(c, w.ds, w.clocks[h], d);
    } else {
      RunsCons(c, w1, Decide(h), []);
      RunsCons(c, w, Get(h, Start(d)), [Decide(h)] + []);
      assert w.hubs[h := Idle] == w.hubs;
    }
  }

  /** Dropping the fraction can end a session before it begins: a start is sure to
      be active when stamped exactly when it asks for a second or more. */
  lemma StartsActiveIff(c: Config, ds: DaemonSet, d: int)
    requires Sound(c) && 0 < d && SECOND + d < c.horizon
    ensures (forall t :: SECOND <= t && t + d < c.horizon ==> !StoppedAt(c, Merged(ds, StartPatch(c, ds, t, d)), t)) <==> d >= SECOND
  {
    forall t | SECOND <= t && t + d < c.horizon
      ensures !StoppedAt(c, Merged(ds, StartPatch(c, ds, t, d)), t) <==> WholeSeconds(t + d) > t
    {
      StartedExpiry(c, ds, t, d);
    }
    assert d < SECOND ==> StoppedAt(c, Merged(ds, StartPatch(c, ds, SECOND, d)), SECOND);
  }

  // ----- Reconciling ---------------------------------------------------------

  /** Nothing scheduled, no session recorded, no legacy gate. */
  predicate StoppedConfig(ds: DaemonSet) {
    At(ds.annotations, STATE) != "running" && At(ds.annotations, EXPIRY) == "" &&
    At(ds.selector, DISABLED) == "true" && !Legacy(ds.gates)
  }

  /** What a reconcile of the given side would leave alone. */
  predicate Settled(ds: DaemonSet, stopped: bool) {
    !Legacy(ds.gates) &&
    (if stopped then At(ds.selector, DISABLED) == "true" && At(ds.annotations, EXPIRY) == "" else DISABLED !in ds.selector)
  }

  lemma NeedsIffUnsettled(c: Config, ds: DaemonSet, now: int)
    ensures ReconcileNeeds(c, ds, now) <==> !Settled(ds, StoppedAt(c, ds, now))
    ensures StoppedAt(c, ds, now) && !ReconcileNeeds(c, ds, now) ==> StoppedConfig(ds)
  {
  }

  lemma ReconciledSettles(c: Config, ds: DaemonSet, at: int)
    ensures var m := Merged(ds, ReconcilePatch(c, ds, at));
            && Settled(m, StoppedAt(c, ds, at)) && (StoppedAt(c, ds, at) ==> StoppedConfig(m))
            && At(m.annotations, STATE) == (if StoppedAt(c, ds, at) then "stopped" else "running")
  {
    var p := ReconcilePatch(c, ds, at);
    MergedAnnotations(ds, p);
    MergedSelector(ds, p);
    MergedGates(c, ds, "stopped", None, true);
    MergedGates(c, ds, "running", if Expires(c, ds) != 0 then Some(Expires(c, ds)) else None, false);
  }

  /** A reconcile decided at or after expiry, or on a session that is off: if its
      patch goes through the DaemonSet is stopped, and if it sends none it was. */
  lemma ReconcileStops(c: Config, w: World, h: nat)
    requires Inv(c, w) && h < |w.hubs|
    ensures var hub := w.hubs[h];
      (hub.Sending? && hub.cause.ByReconcile? && StoppedAt(c, hub.snap, hub.cause.at) && hub.patch.version == w.ds.version ==>
         StoppedConfig(Landed(w, h).ds)) &&
      (hub.Read? && hub.op.Reconcile? && StoppedAt(c, hub.snap, w.clocks[h]) && DecideFor(c, hub.op, hub.snap, w.clocks[h]).Idle? ==>
         StoppedConfig(hub.snap))
  {
    assert HubFine(c, w, h);
    var hub := w.hubs[h];
    if hub.Sending? && hub.cause.ByReconcile? { ReconciledSettles(c, hub.snap, hub.cause.at); }
    if hub.Read? { NeedsIffUnsettled(c, hub.snap, w.clocks[h]); }
  }

  /** Steps that write nothing reserved: the clock, the status, foreign writes,
      and hubs reading and deciding. */
  predicate Quiet(s: Step) { !s.Land? }

  lemma {:induction false} SettledStays(c: Config, w: World, steps: seq<Step>, stopped: bool)
    requires Runs(c, w, steps) && Settled(w.ds, stopped) && forall i :: 0 <= i < |steps| ==> Quiet(steps[i])
    ensures Settled(After(c, w, steps).ds, stopped)
    decreases |steps|
  {
    if steps != [] {
      assert Quiet(steps[0]);
      SettledStays(c, Next(c, w, steps[0]), steps[1..], stopped);
    }
  }

  /** After a reconcile went through, and whatever was written beside it, the next
      one, by any hub, patches nothing if its clock is on the same side of expiry. */
  lemma SecondReconcilePatchesNothing(c: Config, w: World, h: nat, steps: seq<Step>, now: int)
    requires Inv(c, w) && Enabled(c, w, Land(h)) && w.hubs[h].cause.ByReconcile? && w.hubs[h].patch.version == w.ds.version
    requires Runs(c, Landed(w, h), steps) && forall i :: 0 <= i < |steps| ==> Quiet(steps[i])
    ensures var w' := After(c, Landed(w, h), steps);
            StoppedAt(c, w'.ds, now) == StoppedAt(c, w.ds, w.hubs[h].cause.at) ==> !ReconcileNeeds(c, w'.ds, now)
  {
    assert HubFine(c, w, h);
    var at := w.hubs[h].cause.at;
    ReconciledSettles(c, w.ds, at);
    SettledStays(c, Landed(w, h), steps, StoppedAt(c, w.ds, at));
    var w' := After(c, Landed(w, h), steps);
    NeedsIffUnsettled(c, w'.ds, now);
  }

  // ----- What others own -----------------------------------------------------

  /** Everything outside the reserved keys and the legacy gate. */
  datatype Others = Others(annotations: Keys, selector: Keys, gates: seq<string>)

  function OthersOf(annotations: Keys, selector: Keys, gates: seq<string>): Others {
    Others(annotations - {STATE, EXPIRY}, selector - {DISABLED}, OtherGates(gates))
  }

  function OthersIn(ds: DaemonSet): Others { OthersOf(ds.annotations, ds.selector, ds.gates) }

  /** What the foreign writes of a run, taken alone, would leave. */
  function ForeignOnly(o: Others, steps: seq<Step>): Others
    decreases |steps|
  {
    if steps == [] then o
    else
      var s := steps[0];
      ForeignOnly(if s.Foreign? then OthersOf(s.annotations, s.selector, s.gates) else o, steps[1..])
  }

  lemma PatchKeepsOthers(c: Config, ds: DaemonSet, state: string, expiry: Option<int>, stopped: bool)
    ensures OthersIn(Merged(ds, PatchOf(c, ds, state, expiry, stopped))) == OthersIn(ds)
  {
    var p := PatchOf(c, ds, state, expiry, stopped);
    MergedAnnotations(ds, p);
    MergedSelector(ds, p);
    MergedGates(c, ds, state, expiry, stopped);
    OtherGatesKeep(OtherGates(ds.gates));
  }

  lemma LandKeepsOthers(c: Config, w: World, h: nat)
    requires Inv(c, w) && Enabled(c, w, Land(h))
    ensures OthersIn(Landed(w, h).ds) == OthersIn(w.ds)
  {
    assert HubFine(c, w, h);
    var hub, ds := w.hubs[h], w.ds;
    if hub.patch.version == ds.version {
      match hub.cause
      case ByStart(t, d) => PatchKeepsOthers(c, ds, "running", Some(t + d), false);
      case ByStop => PatchKeepsOthers(c, ds, "stopped", None, true);
      case ByReconcile(at) =>
        PatchKeepsOthers(c, ds, "stopped", None, true);
        PatchKeepsOthers(c, ds, "running", if Expires(c, ds) != 0 then Some(Expires(c, ds)) else None, false);
    }
  }

  /** Foreign annotations, selectors and gates end up as the foreign writers left
      them, in every interleaving with the hubs. */
  lemma {:induction false} OthersKept(c: Config, w: World, steps: seq<Step>)
    requires Sound(c) && Inv(c, w) && Runs(c, w, steps)
    ensures OthersIn(After(c, w, steps).ds) == ForeignOnly(OthersIn(w.ds), steps)
    decreases |steps|
  {
    if steps != [] {
      NextInv(c, w, steps[0]);
      if steps[0].Land? { LandKeepsOthers(c, w, steps[0].h); }
      OthersKept(c, Next(c, w, steps[0]), steps[1..]);
    }
  }

  // ----- One hub, undisturbed ------------------------------------------------

  /** The gates kept are the others, each in its place. */
  lemma OtherGatesSnoc(gates: seq<string>, g: string)
    ensures OtherGates([]) == []
    ensures OtherGates(gates + [g]) == if g == "k8shark.io/capture-stopped" then OtherGates(gates) else OtherGates(gates) + [g]
    ensures Legacy(gates + [g]) <==> Legacy(gates) || g == GATE
  {
    var all := gates + [g];
    assert all[..|gates|] == gates;
    assert all[|gates|] == g;
    assert Legacy(gates) ==> exists i :: 0 <= i < |gates| && all[i] == GATE;
  }

  /** The patch body, the gates split in one pass. */
  method BuildPatch(c: Config, ds: DaemonSet, state: string, expiry: Option<int>, stopped: bool) returns (p: Patch)
    ensures p == PatchOf(c, ds, state, expiry, stopped)
  {
    var text := if expiry.Some? then Some(c.format(expiry.value)) else None;
    var gates: seq<string> := [];
    var legacy := false;
    for i := 0 to |ds.gates|
      invariant gates == OtherGates(ds.gates[..i]) && legacy == Legacy(ds.gates[..i])
    {
      OtherGatesSnoc(ds.gates[..i], ds.gates[i]);
      assert ds.gates[..i + 1] == ds.gates[..i] + [ds.gates[i]];
      if ds.gates[i] == GATE { legacy := true; } else { gates := gates + [ds.gates[i]]; }
    }
    assert ds.gates[..|ds.gates|] == ds.gates;
    p := Patch(ds.version, state, text, stopped, if legacy then Some(gates) else None);
  }

  lemma StopsConfig(c: Config, ds: DaemonSet)
    ensures var m := Merged(ds, StopPatch(c, ds)); StoppedConfig(m) && OthersIn(m) == OthersIn(ds)
  {
    MergedAnnotations(ds, StopPatch(c, ds));
    MergedSelector(ds, StopPatch(c, ds));
    MergedGates(c, ds, "stopped", None, true);
    PatchKeepsOthers(c, ds, "stopped", None, true);
  }

  /** On record as running and free to be scheduled. */
  predicate RunningConfig(ds: DaemonSet) {
    At(ds.annotations, STATE) == "running" && DISABLED !in ds.selector && !Legacy(ds.gates)
  }

  lemma StartedConfig(c: Config, ds: DaemonSet, t: int, d: int)
    ensures var m := Merged(ds, StartPatch(c, ds, t, d));
            RunningConfig(m) && OthersIn(m) == OthersIn(ds) && At(m.annotations, EXPIRY) == c.format(t + d)
  {
    MergedAnnotations(ds, StartPatch(c, ds, t, d));
    MergedSelector(ds, StartPatch(c, ds, t, d));
    MergedGates(c, ds, "running", Some(t + d), false);
    PatchKeepsOthers(c, ds, "running", Some(t + d), false);
  }

  /** The API server's copy of the DaemonSet. */
  class ApiServer {
    var ds: DaemonSet

    constructor (ds: DaemonSet)
      ensures this.ds == ds
    {
      this.ds := ds;
    }

    method Serve(p: Patch) returns (ok: bool)
      modifies this
      ensures ds == Served(old(ds), p) && ok == (p.version == old(ds).version)
    {
      ok := p.version == ds.version;
      if ok { ds := Merged(ds, p); }
    }
  }

  /** A hub's operations; clock readings are arguments, in the order taken. */
  class CaptureManager {
    const c: Config
    const api: ApiServer

    constructor (c: Config, api: ApiServer)
      ensures this.c == c && this.api == api
    {
      this.c, this.api := c, api;
    }

    /** None is the error; an active session is reported and left as it is. */
    method StartSession(duration: int, t1: int, t2: int, t3: int) returns (r: Option<Phase>)
      modifies api
      ensures r.Some? <==> 0 < (if duration == 0 then c.defaultDuration else duration) <= c.maxDuration
      ensures r.None? || !Over(c, old(api.ds), t1) ==> api.ds == old(api.ds)
      ensures r.Some? && !Over(c, old(api.ds), t1) ==> Told(c, api.ds, t1, r.value)
      ensures r.Some? && Over(c, old(api.ds), t1) ==>
        Told(c, api.ds, t3, r.value) && RunningConfig(api.ds) && OthersIn(api.ds) == OthersIn(old(api.ds)) &&
        At(api.ds.annotations, EXPIRY) == c.format(t2 + if duration == 0 then c.defaultDuration else duration)
      ensures r.Some? && Over(c, old(api.ds), t1) ==>
        api.ds == Merged(old(api.ds), StartPatch(c, old(api.ds), t2, Normalized(c, duration)))
    {
      DescribeTells(c, api.ds, t1);
      var d := if duration == 0 then c.defaultDuration else duration;
      if d <= 0 || d > c.maxDuration { return None; }
      var ds := api.ds;
      var current := Describe(c, ds, t1);
      if current.Starting? || current.Running? { return Some(current); }
      var p := BuildPatch(c, ds, "running", Some(t2 + d), false);
      StartedConfig(c, ds, t2, d);
      var ok := api.Serve(p);
      DescribeTells(c, api.ds, t3);
      r := Some(Describe(c, api.ds, t3));
    }

    method StopSession(t1: int, t2: int) returns (r: Phase)
      modifies api
      ensures Over(c, api.ds, t1) && OthersIn(api.ds) == OthersIn(old(api.ds))
      ensures Over(c, old(api.ds), t1) && Quiesced(old(api.ds)) ==> api.ds == old(api.ds) && r == Stopped
      ensures !(Over(c, old(api.ds), t1) && Quiesced(old(api.ds))) ==> StoppedConfig(api.ds) && Told(c, api.ds, t2, r)
    {
      DescribeTells(c, api.ds, t1);
      var ds := api.ds;
      var current := Describe(c, ds, t1);
      if current.Stopped? { return current; }
      var p := BuildPatch(c, ds, "stopped", None, true);
      StopsConfig(c, ds);
      var ok := api.Serve(p);
      DescribeTells(c, api.ds, t2);
      r := Describe(c, api.ds, t2);
    }

    /** Afterwards there is nothing left to reconcile on this side of the expiry. */
    method ReconcileSession(now: int)
      modifies api
      ensures Over(c, old(api.ds), now) ==> StoppedConfig(api.ds)
      ensures !Over(c, old(api.ds), now) ==> RunningConfig(api.ds)
      ensures Settled(api.ds, StoppedAt(c, old(api.ds), now))
      ensures OthersIn(api.ds) == OthersIn(old(api.ds))
      ensures Settled(old(api.ds), StoppedAt(c, old(api.ds), now)) ==> api.ds == old(api.ds)
    {
      var ds := api.ds;
      var e := Expires(c, ds);
      var stopped := At(ds.annotations, STATE) != "running" || (e != 0 && e <= now);
      var legacy := GATE in ds.gates;
      LegacyIsMember(ds.gates);
      OverIffStopped(c, ds, now);
      NeedsIffUnsettled(c, ds, now);
      if legacy || (stopped && At(ds.selector, DISABLED) != "true") || (!stopped && DISABLED in ds.selector) ||
         (stopped && At(ds.annotations, EXPIRY) != "")
      {
        var state, expiry := "stopped", None;
        if !stopped {
          state := "running";
          if e != 0 { expiry := Some(e); }
        }
        var p := BuildPatch(c, ds, state, expiry, stopped);
        ReconciledSettles(c, ds, now);
        PatchKeepsOthers(c, ds, state, expiry, stopped);
        var ok := api.Serve(p);
      }
    }
  }

  lemma LegacyIsMember(gates: seq<string>)
    ensures Legacy(gates) <==> GATE in gates
  {
  }
}
