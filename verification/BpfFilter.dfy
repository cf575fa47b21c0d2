/** The in-kernel packet filter: a model of the classic BPF machine and of the
    code generator that turns the configured TCP and UDP port lists into a
    program for it. The main result is an if-and-only-if: the generated program
    decides exactly the packets it is documented to decide, for every packet,
    precisely when the two lists together hold at most 58 ports. */
module BpfFilter {
  import opened Basics

  const SNAP_LEN := 65536

  // ----- The machine ---------------------------------------------------------

  datatype Cond = JumpEqual | JumpBitsSet

  /** The five instruction forms the generator emits. */
  datatype Instr =
    | LoadAbsolute(off: nat, size: nat)
    | LoadIndirect(off: nat, size: nat)
    | LoadMemShift(off: nat)
    | JumpIf(cond: Cond, val: nat, skipTrue: nat, skipFalse: nat)
    | RetConstant(ret: nat)

  /** A program either returns a value or runs past its last instruction. */
  datatype Outcome = Verdict(val: nat) | OffEnd

  datatype Loaded = Value(v: nat) | Unreadable

  /** Bitwise and, one bit at a time. */
  function BitAnd(x: nat, y: nat): nat {
    if x == 0 || y == 0 then 0
    else 2 * BitAnd(x / 2, y / 2) + if x % 2 == 1 && y % 2 == 1 then 1 else 0
  }

  function Pow2(k: nat): (p: nat)
    ensures p > 0
  {
    if k == 0 then 1 else 2 * Pow2(k - 1)
  }

  /** Big-endian value of size bytes at off, when the packet is long enough. */
  function Load(pkt: seq<Byte>, off: nat, size: nat): Loaded {
    if off + size > |pkt| then Unreadable else Value(BigEndian(pkt[off..off + size]))
  }

  function BigEndian(s: seq<Byte>): nat {
    if s == [] then 0 else BigEndian(s[..|s| - 1]) * 256 + s[|s| - 1] as int
  }

  predicate Taken(cond: Cond, a: nat, val: nat) {
    match cond
    case JumpEqual => a == val
    case JumpBitsSet => BitAnd(a, val) != 0
  }

  /** What one instruction does: new registers and how many instructions to
      skip, or the end of the program. An unreadable load ends it with verdict 0. */
  datatype Effect = Next(a: nat, x: nat, skip: nat) | Halt(v: nat)

  function Step(i: Instr, pkt: seq<Byte>, a: nat, x: nat): Effect {
    match i
    case LoadAbsolute(off, size) =>
      (match Load(pkt, off, size)
       case Value(v) => Next(v, x, 0)
       case Unreadable => Halt(0))
    case LoadIndirect(off, size) =>
      (match Load(pkt, x + off, size)
       case Value(v) => Next(v, x, 0)
       case Unreadable => Halt(0))
    case LoadMemShift(off) =>
      (match Load(pkt, off, 1)
       case Value(v) => Next(a, 4 * BitAnd(v, 15), 0)
       case Unreadable => Halt(0))
    case JumpIf(cond, val, skipTrue, skipFalse) =>
      Next(a, x, if Taken(cond, a, val) then skipTrue else skipFalse)
    case RetConstant(v) => Halt(v)
  }

  /** The virtual machine: pc only ever moves forward. */
  function Run(prog: seq<Instr>, pkt: seq<Byte>, pc: nat, a: nat, x: nat): Outcome
    decreases |prog| - pc
  {
    if pc >= |prog| then OffEnd
    else match Step(prog[pc], pkt, a, x)
      case Next(a', x', skip) => Run(prog, pkt, pc + 1 + skip, a', x')
      case Halt(v) => Verdict(v)
  }

  predicate Accepts(prog: seq<Instr>, pkt: seq<Byte>) {
    match Run(prog, pkt, 0, 0, 0)
    case Verdict(v) => v != 0
    case OffEnd => false
  }

  /** Every instruction that does not return hands control to an instruction of
      the same code: no fall-through and no jump leaves it. */
  ghost predicate Closed(code: seq<Instr>) {
    forall i :: 0 <= i < |code| ==> StaysInside(code, i)
  }

  ghost predicate StaysInside(code: seq<Instr>, i: nat)
    requires i < |code|
  {
    match code[i]
    case JumpIf(_, _, t, f) => i + 1 + t < |code| && i + 1 + f < |code|
    case RetConstant(_) => true
    case _ => i + 1 < |code|
  }

  // ----- The generator -------------------------------------------------------

  const ACCEPT := RetConstant(SNAP_LEN)
  const REJECT := RetConstant(0)

  /** Go's uint8 and uint32 conversions. */
  function Uint8(n: int): (r: nat) { n % 256 }
  function Uint32(n: int): (r: nat) { n % 0x1_0000_0000 }

  function PortTests(ports: seq<int>): seq<Instr> {
    if ports == [] then []
    else [JumpIf(JumpEqual, Uint32(ports[0]), 0, 1), ACCEPT] + PortTests(ports[1..])
  }

  function PortMatch(loadSrc: Instr, loadDst: Instr, ports: seq<int>): seq<Instr> {
    [loadSrc] + PortTests(ports) + ([loadDst] + PortTests(ports))
  }

  const FRAG_GUARD := [LoadAbsolute(20, 2), JumpIf(JumpBitsSet, 0x1fff, 0, 1), REJECT]

  function Handle4(ports: seq<int>): seq<Instr> {
    FRAG_GUARD + [LoadMemShift(14)] + PortMatch(LoadIndirect(14, 2), LoadIndirect(16, 2), ports)
  }

  function Handle6(ports: seq<int>): seq<Instr> {
    PortMatch(LoadAbsolute(54, 2), LoadAbsolute(56, 2), ports)
  }

  function LastArm(protoOff: nat, icmp: nat): seq<Instr> {
    [LoadAbsolute(protoOff, 1), JumpIf(JumpEqual, icmp, 0, 1), ACCEPT, REJECT]
  }

  /** Dispatch on the protocol byte at protoOff: TCP, UDP, ICMP, else reject. */
  function Dispatch(protoOff: nat, tcp: seq<Instr>, udp: seq<Instr>, icmp: nat): seq<Instr> {
    [LoadAbsolute(protoOff, 1), JumpIf(JumpEqual, 6, 0, Uint8(|tcp|))] + tcp +
    ([LoadAbsolute(protoOff, 1), JumpIf(JumpEqual, 17, 0, Uint8(|udp|))] + udp +
     LastArm(protoOff, icmp))
  }

  function Block4(tcpPorts: seq<int>, udpPorts: seq<int>): seq<Instr> {
    Dispatch(23, Handle4(tcpPorts), Handle4(udpPorts), 1)
  }

  function Block6(tcpPorts: seq<int>, udpPorts: seq<int>): seq<Instr> {
    Dispatch(20, Handle6(tcpPorts), Handle6(udpPorts), 0x3a)
  }

  function L7Program(tcpPorts: seq<int>, udpPorts: seq<int>): seq<Instr> {
    var b4, b6 := Block4(tcpPorts, udpPorts), Block6(tcpPorts, udpPorts);
    [LoadAbsolute(12, 2), JumpIf(JumpEqual, 0x0800, 0, Uint8(|b4|))] + b4 +
    ([LoadAbsolute(12, 2), JumpIf(JumpEqual, 0x86dd, 0, Uint8(|b6|))] + b6 + [REJECT])
  }

  /** The generator's own loops: for each of the two loads, the load and then a
      test-and-accept pair per port. */
  method PortMatchInstrs(loadSrc: Instr, loadDst: Instr, ports: seq<int>) returns (out: seq<Instr>)
    ensures out == PortMatch(loadSrc, loadDst, ports)
  {
    out := [];
    var loads := [loadSrc, loadDst];
    for l := 0 to 2
      invariant l == 0 ==> out == []
      invariant l == 1 ==> out == [loadSrc] + PortTests(ports)
      invariant l == 2 ==> out == PortMatch(loadSrc, loadDst, ports)
    {
      ghost var before := out;
      out := out + [loads[l]];
      for i := 0 to |ports|
        invariant out == before + [loads[l]] + PortTests(ports[..i])
      {
        PortTestsSnoc(ports[..i], ports[i]);
        assert ports[..i] + [ports[i]] == ports[..i + 1];
        out := out + [JumpIf(JumpEqual, Uint32(ports[i]), 0, 1), ACCEPT];
      }
      assert ports[..|ports|] == ports;
    }
  }

  lemma {:induction false} PortTestsSnoc(ports: seq<int>, p: int)
    ensures PortTests(ports + [p]) == PortTests(ports) + [JumpIf(JumpEqual, Uint32(p), 0, 1), ACCEPT]
  {
    if ports == [] {
      assert [p][1..] == [];
    } else {
      assert (ports + [p])[1..] == ports[1..] + [p];
      PortTestsSnoc(ports[1..], p);
    }
  }

  // ----- What the filter is for ----------------------------------------------

  function U16(pkt: seq<Byte>, off: nat): nat
    requires off + 2 <= |pkt|
  {
    (pkt[off] as int) * 256 + pkt[off + 1] as int
  }

  ghost predicate Listed(port: nat, ports: seq<int>) {
    exists i :: 0 <= i < |ports| && Uint32(ports[i]) == port
  }

  /** A listed source port at off, or a listed destination port at off + 2,
      inside the packet. */
  ghost predicate PortHit(pkt: seq<Byte>, off: nat, ports: seq<int>) {
    || (off + 2 <= |pkt| && Listed(U16(pkt, off), ports))
    || (off + 4 <= |pkt| && Listed(U16(pkt, off + 2), ports))
  }

  /** Section 3.1 of RFC 791, behind a 14-byte Ethernet header: protocol at byte
      9, fragment offset in the low 13 bits at byte 6, header length in the low
      nibble of byte 0, counted in 32-bit words. */
  ghost predicate Wanted4(tcpPorts: seq<int>, udpPorts: seq<int>, pkt: seq<Byte>) {
    && |pkt| >= 24
    && (|| pkt[23] == 1
        || (&& (pkt[23] == 6 || pkt[23] == 17)
            && U16(pkt, 20) % 8192 == 0
            && PortHit(pkt, 14 + 4 * (pkt[14] % 16), if pkt[23] == 6 then tcpPorts else udpPorts)))
  }

  /** Section 3 of RFC 8200: next header at byte 6 of a fixed 40-byte header. */
  ghost predicate Wanted6(tcpPorts: seq<int>, udpPorts: seq<int>, pkt: seq<Byte>) {
    && |pkt| >= 21
    && (|| pkt[20] == 0x3a
        || ((pkt[20] == 6 || pkt[20] == 17) && PortHit(pkt, 54, if pkt[20] == 6 then tcpPorts else udpPorts)))
  }

  ghost predicate Wanted(tcpPorts: seq<int>, udpPorts: seq<int>, pkt: seq<Byte>) {
    && |pkt| >= 14
    && (|| (U16(pkt, 12) == 0x0800 && Wanted4(tcpPorts, udpPorts, pkt))
        || (U16(pkt, 12) == 0x86dd && Wanted6(tcpPorts, udpPorts, pkt)))
  }

  // ----- Lengths and closedness ----------------------------------------------

  lemma {:induction false} PortTestsLength(ports: seq<int>)
    ensures |PortTests(ports)| == 2 * |ports|
  {
    if ports != [] { PortTestsLength(ports[1..]); }
  }

  lemma Lengths(tcpPorts: seq<int>, udpPorts: seq<int>)
    ensures |Handle4(tcpPorts)| == 6 + 4 * |tcpPorts|
    ensures |Handle6(tcpPorts)| == 2 + 4 * |tcpPorts|
    ensures |Block4(tcpPorts, udpPorts)| == 20 + 4 * (|tcpPorts| + |udpPorts|)
    ensures |Block6(tcpPorts, udpPorts)| == 12 + 4 * (|tcpPorts| + |udpPorts|)
  {
    PortTestsLength(tcpPorts);
    PortTestsLength(udpPorts);
  }

  /** Jump targets at most one past the end: code that may fall through to
      whatever follows it. */
  ghost predicate ClosedUpTo(code: seq<Instr>, slack: nat) {
    forall i :: 0 <= i < |code| ==> TargetsUpTo(code, i, slack)
  }

  ghost predicate TargetsUpTo(code: seq<Instr>, i: nat, slack: nat)
    requires i < |code|
  {
    match code[i]
    case JumpIf(_, _, t, f) => i + 1 + t < |code| + slack && i + 1 + f < |code| + slack
    case RetConstant(_) => true
    case _ => i + 1 < |code| + slack
  }

  lemma ClosedConcat(s: seq<Instr>, t: seq<Instr>, k: nat, slack: nat)
    requires ClosedUpTo(s, k) && ClosedUpTo(t, slack)
    requires k <= |t| + slack
    ensures ClosedUpTo(s + t, slack)
  {
    forall i | 0 <= i < |s + t| ensures TargetsUpTo(s + t, i, slack) {
      if i < |s| {
        assert TargetsUpTo(s, i, k);
      } else {
        assert TargetsUpTo(t, i - |s|, slack);
      }
    }
  }

  lemma ClosedWeaken(code: seq<Instr>, j: nat, slack: nat)
    requires ClosedUpTo(code, j) && j <= slack
    ensures ClosedUpTo(code, slack)
  {
    forall i | 0 <= i < |code| ensures TargetsUpTo(code, i, slack) {
      assert TargetsUpTo(code, i, j);
    }
  }

  lemma {:induction false} PortTestsClosed(ports: seq<int>)
    ensures ClosedUpTo(PortTests(ports), 1)
  {
    if ports != [] {
      PortTestsClosed(ports[1..]);
      ClosedConcat([JumpIf(JumpEqual, Uint32(ports[0]), 0, 1), ACCEPT], PortTests(ports[1..]), 1, 1);
    }
  }

  lemma PortMatchClosed(src: Instr, dst: Instr, ports: seq<int>)
    requires !src.JumpIf? && !dst.JumpIf?
    ensures ClosedUpTo(PortMatch(src, dst, ports), 1)
  {
    PortTestsClosed(ports);
    ClosedConcat([src], PortTests(ports), 1, 1);
    ClosedConcat([dst], PortTests(ports), 1, 1);
    ClosedConcat([src] + PortTests(ports), [dst] + PortTests(ports), 1, 1);
  }

  lemma HandlesClosed(ports: seq<int>)
    ensures ClosedUpTo(Handle4(ports), 1)
    ensures ClosedUpTo(Handle6(ports), 1)
  {
    PortMatchClosed(LoadIndirect(14, 2), LoadIndirect(16, 2), ports);
    PortMatchClosed(LoadAbsolute(54, 2), LoadAbsolute(56, 2), ports);
    ClosedConcat(FRAG_GUARD + [LoadMemShift(14)],
                 PortMatch(LoadIndirect(14, 2), LoadIndirect(16, 2), ports), 1, 1);
  }

  lemma DispatchClosed(protoOff: nat, tcp: seq<Instr>, udp: seq<Instr>, icmp: nat)
    requires ClosedUpTo(tcp, 1) && ClosedUpTo(udp, 1)
    ensures ClosedUpTo(Dispatch(protoOff, tcp, udp, icmp), 0)
  {
    var h1 := [LoadAbsolute(protoOff, 1), JumpIf(JumpEqual, 6, 0, Uint8(|tcp|))];
    var h2 := [LoadAbsolute(protoOff, 1), JumpIf(JumpEqual, 17, 0, Uint8(|udp|))];
    var last := [LoadAbsolute(protoOff, 1), JumpIf(JumpEqual, icmp, 0, 1), ACCEPT, REJECT];
    ClosedConcat(h1, tcp, |tcp| + 1, 1);
    ClosedConcat(h2, udp, |udp| + 1, 1);
    ClosedConcat(h2 + udp, last, 1, 0);
    ClosedConcat(h1 + tcp, h2 + udp + last, 1, 0);
  }

  /** Every jump of every generated program stays inside it, however long the
      port lists are: a narrowed skip is only ever too short. */
  lemma ProgramClosed(tcpPorts: seq<int>, udpPorts: seq<int>)
    ensures Closed(L7Program(tcpPorts, udpPorts))
    ensures Closed(Block4(tcpPorts, udpPorts))
  {
    HandlesClosed(tcpPorts);
    HandlesClosed(udpPorts);
    var b4, b6 := Block4(tcpPorts, udpPorts), Block6(tcpPorts, udpPorts);
    DispatchClosed(23, Handle4(tcpPorts), Handle4(udpPorts), 1);
    DispatchClosed(20, Handle6(tcpPorts), Handle6(udpPorts), 0x3a);
    var h1 := [LoadAbsolute(12, 2), JumpIf(JumpEqual, 0x0800, 0, Uint8(|b4|))];
    var h2 := [LoadAbsolute(12, 2), JumpIf(JumpEqual, 0x86dd, 0, Uint8(|b6|))];
    ClosedWeaken(b4, 0, 1);
    ClosedWeaken(b6, 0, 1);
    ClosedConcat(h1, b4, |b4| + 1, 1);
    ClosedConcat(h2, b6, |b6| + 1, 1);
    ClosedConcat(h2 + b6, [REJECT], 1, 0);
    ClosedConcat(h1 + b4, h2 + b6 + [REJECT], 1, 0);
    var prog := L7Program(tcpPorts, udpPorts);
    forall i | 0 <= i < |prog| ensures StaysInside(prog, i) {
      assert TargetsUpTo(prog, i, 0);
    }
    forall i | 0 <= i < |b4| ensures StaysInside(b4, i) {
      assert TargetsUpTo(b4, i, 0);
    }
  }

  /** A closed program always returns: the machine never runs off its end. */
  lemma {:induction false} ClosedReturns(prog: seq<Instr>, pkt: seq<Byte>, pc: nat, a: nat, x: nat)
    requires Closed(prog) && pc < |prog|
    ensures Run(prog, pkt, pc, a, x).Verdict?
    decreases |prog| - pc
  {
    assert StaysInside(prog, pc);
    match Step(prog[pc], pkt, a, x)
    case Next(a', x', skip) => ClosedReturns(prog, pkt, pc + 1 + skip, a', x');
    case Halt(_) =>
  }

  // ----- Code at a position --------------------------------------------------

  /** The instructions of code sit in prog from pc on. */
  ghost predicate At(prog: seq<Instr>, pc: nat, code: seq<Instr>) {
    pc + |code| <= |prog| && forall i :: 0 <= i < |code| ==> prog[pc + i] == code[i]
  }

  lemma AtConcat(prog: seq<Instr>, pc: nat, s: seq<Instr>, t: seq<Instr>)
    requires At(prog, pc, s + t)
    ensures At(prog, pc, s) && At(prog, pc + |s|, t)
  {
    forall i | 0 <= i < |s| ensures prog[pc + i] == s[i] { assert (s + t)[i] == s[i]; }
    forall i | 0 <= i < |t| ensures prog[pc + |s| + i] == t[i] { assert (s + t)[|s| + i] == t[i]; }
  }

  /** A load and an equality test that guards body: enter it on a match, step
      over it otherwise. The skip must not have been narrowed. */
  lemma GuardRun(prog: seq<Instr>, pc: nat, load: Instr, key: nat, body: seq<Instr>,
                 pkt: seq<Byte>, a: nat, x: nat, v: nat)
    requires At(prog, pc, [load, JumpIf(JumpEqual, key, 0, Uint8(|body|))] + body)
    requires Step(load, pkt, a, x) == Next(v, x, 0) && |body| < 256
    ensures At(prog, pc + 2, body)
    ensures Run(prog, pkt, pc, a, x) == Run(prog, pkt, if v == key then pc + 2 else pc + 2 + |body|, v, x)
  {
    var jump := JumpIf(JumpEqual, key, 0, Uint8(|body|));
    AtConcat(prog, pc, [load, jump], body);
    assert prog[pc] == [load, jump][0];
    assert prog[pc + 1] == [load, jump][1];
    assert Run(prog, pkt, pc, a, x) == Run(prog, pkt, pc + 1, v, x);
  }

  // ----- Correctness of each piece -------------------------------------------

  lemma LoadByte(pkt: seq<Byte>, off: nat)
    requires off + 1 <= |pkt|
    ensures Load(pkt, off, 1) == Value(pkt[off])
  {
    var s := pkt[off..off + 1];
    assert s[..0] == [];
    assert s[0] == pkt[off];
    assert BigEndian(s) == BigEndian(s[..0]) * 256 + s[0] as int;
  }

  lemma LoadU16(pkt: seq<Byte>, off: nat)
    requires off + 2 <= |pkt|
    ensures Load(pkt, off, 2) == Value(U16(pkt, off))
  {
    var s := pkt[off..off + 2];
    assert s[..1] == pkt[off..off + 1];
    assert s[1] == pkt[off + 1];
    LoadByte(pkt, off);
    assert BigEndian(s) == BigEndian(s[..1]) * 256 + s[1] as int;
  }

  lemma {:induction false} LowMask(x: nat, k: nat)
    ensures BitAnd(x, Pow2(k) - 1) == x % Pow2(k)
  {
    if k > 0 {
      LowMask(x / 2, k - 1);
      var p := Pow2(k - 1);
      assert (2 * p - 1) / 2 == p - 1;
      ModDouble(x, p);
    }
  }

  lemma ModDouble(x: nat, p: nat)
    requires p > 0
    ensures x % (2 * p) == x % 2 + 2 * ((x / 2) % p)
  {
    var q, r := (x / 2) / p, (x / 2) % p;
    assert x == 2 * (q * p + r) + x % 2;
    assert x == q * (2 * p) + (2 * r + x % 2);
    ModUnique(x, 2 * p, q, 2 * r + x % 2);
  }

  lemma ModUnique(x: int, d: int, q: int, r: int)
    requires 0 <= r < d && x == q * d + r
    ensures x % d == r
  {
    var e := x / d - q;
    assert e * d == r - x % d;
    assert e >= 1 ==> e * d >= d;
    assert e <= -1 ==> e * d <= -d;
  }

  lemma Masks(x: nat)
    ensures BitAnd(x, 15) == x % 16
    ensures BitAnd(x, 0x1fff) == x % 8192
  {
    assert Pow2(4) == 16;
    assert Pow2(8) == 256;
    assert Pow2(13) == 8192;
    LowMask(x, 4);
    LowMask(x, 13);
  }

  lemma {:induction false} PortTestsRun(prog: seq<Instr>, pc: nat, ports: seq<int>, pkt: seq<Byte>, a: nat, x: nat)
    requires At(prog, pc, PortTests(ports))
    ensures Run(prog, pkt, pc, a, x) ==
            if Listed(a, ports) then Verdict(SNAP_LEN) else Run(prog, pkt, pc + 2 * |ports|, a, x)
    decreases |ports|
  {
    if ports != [] {
      var test := JumpIf(JumpEqual, Uint32(ports[0]), 0, 1);
      AtConcat(prog, pc, [test, ACCEPT], PortTests(ports[1..]));
      assert prog[pc] == [test, ACCEPT][0];
      assert prog[pc + 1] == [test, ACCEPT][1];
      PortTestsRun(prog, pc + 2, ports[1..], pkt, a, x);
      ListedCons(a, ports);
    }
  }

  lemma ListedCons(port: nat, ports: seq<int>)
    requires ports != []
    ensures Listed(port, ports) <==> port == Uint32(ports[0]) || Listed(port, ports[1..])
  {
    if Listed(port, ports[1..]) {
      var i :| 0 <= i < |ports[1..]| && Uint32(ports[1..][i]) == port;
      assert ports[i + 1] == ports[1..][i];
    }
    if Listed(port, ports) {
      var i :| 0 <= i < |ports| && Uint32(ports[i]) == port;
      assert i > 0 ==> ports[i] == ports[1..][i - 1];
    }
  }

  /** One load followed by its port tests. */
  lemma SideRun(prog: seq<Instr>, pc: nat, load: Instr, off: nat, ports: seq<int>, pkt: seq<Byte>, a: nat, x: nat)
    requires At(prog, pc, [load] + PortTests(ports))
    requires load == LoadAbsolute(off, 2) || (load.LoadIndirect? && load.size == 2 && x + load.off == off)
    ensures Run(prog, pkt, pc, a, x) ==
            if off + 2 > |pkt| then Verdict(0)
            else if Listed(U16(pkt, off), ports) then Verdict(SNAP_LEN)
            else Run(prog, pkt, pc + 1 + 2 * |ports|, U16(pkt, off), x)
  {
    AtConcat(prog, pc, [load], PortTests(ports));
    assert prog[pc] == [load][0];
    if off + 2 <= |pkt| {
      LoadU16(pkt, off);
      PortTestsRun(prog, pc + 1, ports, pkt, U16(pkt, off), x);
    }
  }

  lemma PortMatchRun(prog: seq<Instr>, pc: nat, src: Instr, dst: Instr, off: nat, ports: seq<int>,
                     pkt: seq<Byte>, a: nat, x: nat)
    requires At(prog, pc, PortMatch(src, dst, ports))
    requires src == LoadAbsolute(off, 2) || (src.LoadIndirect? && src.size == 2 && x + src.off == off)
    requires dst == LoadAbsolute(off + 2, 2) || (dst.LoadIndirect? && dst.size == 2 && x + dst.off == off + 2)
    ensures Run(prog, pkt, pc, a, x) ==
            if PortHit(pkt, off, ports) then Verdict(SNAP_LEN)
            else if off + 4 > |pkt| then Verdict(0)
            else Run(prog, pkt, pc + 2 + 4 * |ports|, U16(pkt, off + 2), x)
  {
    PortTestsLength(ports);
    AtConcat(prog, pc, [src] + PortTests(ports), [dst] + PortTests(ports));
    SideRun(prog, pc, src, off, ports, pkt, a, x);
    if off + 2 <= |pkt| {
      SideRun(prog, pc + 1 + 2 * |ports|, dst, off + 2, ports, pkt, U16(pkt, off), x);
    }
  }

  lemma FragGuardRun(prog: seq<Instr>, pc: nat, pkt: seq<Byte>, a: nat, x: nat)
    requires At(prog, pc, FRAG_GUARD + [LoadMemShift(14)])
    requires |pkt| >= 24
    ensures Run(prog, pkt, pc, a, x) ==
            if U16(pkt, 20) % 8192 != 0 then Verdict(0)
            else Run(prog, pkt, pc + 4, U16(pkt, 20), 4 * (pkt[14] % 16))
  {
    var v := U16(pkt, 20);
    LoadU16(pkt, 20);
    LoadByte(pkt, 14);
    Masks(v);
    Masks(pkt[14]);
    var code := FRAG_GUARD + [LoadMemShift(14)];
    assert prog[pc] == code[0] && prog[pc + 1] == code[1] && prog[pc + 2] == code[2] && prog[pc + 3] == code[3];
    assert Run(prog, pkt, pc, a, x) == Run(prog, pkt, pc + 1, v, x);
    assert Run(prog, pkt, pc + 1, v, x) == Run(prog, pkt, if v % 8192 != 0 then pc + 2 else pc + 3, v, x);
    assert Run(prog, pkt, pc + 3, v, x) == Run(prog, pkt, pc + 4, v, 4 * (pkt[14] % 16));
  }

  /** An IPv4 handler either decides the packet or falls through to what follows
      it; nobody downstream looks at the registers it leaves. */
  lemma Handle4Run(prog: seq<Instr>, pc: nat, ports: seq<int>, pkt: seq<Byte>, a: nat, x: nat) returns (a': nat, x': nat)
    requires At(prog, pc, Handle4(ports))
    requires |pkt| >= 24
    ensures var r := Run(prog, pkt, pc, a, x);
            if U16(pkt, 20) % 8192 != 0 then r == Verdict(0)
            else if PortHit(pkt, 14 + 4 * (pkt[14] % 16), ports) then r == Verdict(SNAP_LEN)
            else r == Verdict(0) || r == Run(prog, pkt, pc + |Handle4(ports)|, a', x')
  {
    Lengths(ports, ports);
    var off := 14 + 4 * (pkt[14] % 16);
    AtConcat(prog, pc, FRAG_GUARD + [LoadMemShift(14)], PortMatch(LoadIndirect(14, 2), LoadIndirect(16, 2), ports));
    FragGuardRun(prog, pc, pkt, a, x);
    x' := 4 * (pkt[14] % 16);
    PortMatchRun(prog, pc + 4, LoadIndirect(14, 2), LoadIndirect(16, 2), off, ports, pkt, U16(pkt, 20), x');
    a' := if off + 4 > |pkt| then 0 else U16(pkt, off + 2);
  }

  lemma Handle6Run(prog: seq<Instr>, pc: nat, ports: seq<int>, pkt: seq<Byte>, a: nat, x: nat) returns (a': nat, x': nat)
    requires At(prog, pc, Handle6(ports))
    ensures var r := Run(prog, pkt, pc, a, x);
            if PortHit(pkt, 54, ports) then r == Verdict(SNAP_LEN)
            else r == Verdict(0) || r == Run(prog, pkt, pc + |Handle6(ports)|, a', x')
  {
    Lengths(ports, ports);
    PortMatchRun(prog, pc, LoadAbsolute(54, 2), LoadAbsolute(56, 2), 54, ports, pkt, a, x);
    a', x' := if 58 > |pkt| then 0 else U16(pkt, 56), x;
  }

  /** One arm of the dispatch on the protocol byte. */
  lemma ArmRun(prog: seq<Instr>, pc: nat, protoOff: nat, proto: nat, handler: seq<Instr>, pkt: seq<Byte>, a: nat, x: nat)
    requires At(prog, pc, [LoadAbsolute(protoOff, 1), JumpIf(JumpEqual, proto, 0, Uint8(|handler|))] + handler)
    requires protoOff < |pkt| && |handler| < 256
    ensures At(prog, pc + 2, handler)
    ensures Run(prog, pkt, pc, a, x) ==
            Run(prog, pkt, if pkt[protoOff] == proto then pc + 2 else pc + 2 + |handler|, pkt[protoOff], x)
  {
    LoadByte(pkt, protoOff);
    GuardRun(prog, pc, LoadAbsolute(protoOff, 1), proto, handler, pkt, a, x, pkt[protoOff]);
  }

  lemma LastArmRun(prog: seq<Instr>, pc: nat, protoOff: nat, icmp: nat, pkt: seq<Byte>, a: nat, x: nat)
    requires At(prog, pc, LastArm(protoOff, icmp))
    requires protoOff < |pkt|
    ensures Run(prog, pkt, pc, a, x) == Verdict(if pkt[protoOff] == icmp then SNAP_LEN else 0)
  {
    var code := LastArm(protoOff, icmp);
    assert code == [LoadAbsolute(protoOff, 1), JumpIf(JumpEqual, icmp, 0, Uint8(1))] + [ACCEPT] + [REJECT];
    AtConcat(prog, pc, [LoadAbsolute(protoOff, 1), JumpIf(JumpEqual, icmp, 0, Uint8(1))] + [ACCEPT], [REJECT]);
    ArmRun(prog, pc, protoOff, icmp, [ACCEPT], pkt, a, x);
    assert prog[pc + 2] == [ACCEPT][0] && prog[pc + 3] == [REJECT][0];
  }

  /** Where the three arms of a dispatch sit. */
  lemma DispatchAt(prog: seq<Instr>, pc: nat, protoOff: nat, tcp: seq<Instr>, udp: seq<Instr>, icmp: nat)
    requires At(prog, pc, Dispatch(protoOff, tcp, udp, icmp))
    ensures At(prog, pc, [LoadAbsolute(protoOff, 1), JumpIf(JumpEqual, 6, 0, Uint8(|tcp|))] + tcp)
    ensures At(prog, pc + 2 + |tcp|, [LoadAbsolute(protoOff, 1), JumpIf(JumpEqual, 17, 0, Uint8(|udp|))] + udp)
    ensures At(prog, pc + 4 + |tcp| + |udp|, LastArm(protoOff, icmp))
  {
    var arm1 := [LoadAbsolute(protoOff, 1), JumpIf(JumpEqual, 6, 0, Uint8(|tcp|))] + tcp;
    var arm2 := [LoadAbsolute(protoOff, 1), JumpIf(JumpEqual, 17, 0, Uint8(|udp|))] + udp;
    AtConcat(prog, pc, arm1, arm2 + LastArm(protoOff, icmp));
    AtConcat(prog, pc + |arm1|, arm2, LastArm(protoOff, icmp));
  }

  /** A dispatch enters the handler of the packet's protocol. */
  lemma DispatchRun(prog: seq<Instr>, pc: nat, protoOff: nat, tcp: seq<Instr>, udp: seq<Instr>, icmp: nat,
                    pkt: seq<Byte>, a: nat, x: nat)
    requires At(prog, pc, Dispatch(protoOff, tcp, udp, icmp))
    requires protoOff < |pkt| && |tcp| < 256 && |udp| < 256
    ensures At(prog, pc + 2, tcp) && At(prog, pc + 4 + |tcp|, udp)
    ensures var proto := pkt[protoOff];
            Run(prog, pkt, pc, a, x) ==
            if proto == 6 then Run(prog, pkt, pc + 2, proto, x)
            else if proto == 17 then Run(prog, pkt, pc + 4 + |tcp|, proto, x)
            else Verdict(if proto == icmp then SNAP_LEN else 0)
  {
    var proto := pkt[protoOff];
    DispatchAt(prog, pc, protoOff, tcp, udp, icmp);
    ArmRun(prog, pc, protoOff, 6, tcp, pkt, a, x);
    ArmRun(prog, pc + 2 + |tcp|, protoOff, 17, udp, pkt, proto, x);
    LastArmRun(prog, pc + 4 + |tcp| + |udp|, protoOff, icmp, pkt, proto, x);
  }

  /** A handler that falls through ends in the final reject, whatever registers
      it leaves behind. */
  lemma FallThrough(prog: seq<Instr>, pc: nat, protoOff: nat, tcp: seq<Instr>, udp: seq<Instr>, icmp: nat,
                    pkt: seq<Byte>, a: nat, x: nat)
    requires At(prog, pc, Dispatch(protoOff, tcp, udp, icmp))
    requires protoOff < |pkt| && |udp| < 256 && pkt[protoOff] != icmp
    ensures pkt[protoOff] == 6 ==> Run(prog, pkt, pc + 2 + |tcp|, a, x) == Verdict(0)
    ensures Run(prog, pkt, pc + 4 + |tcp| + |udp|, a, x) == Verdict(0)
  {
    DispatchAt(prog, pc, protoOff, tcp, udp, icmp);
    ArmRun(prog, pc + 2 + |tcp|, protoOff, 17, udp, pkt, a, x);
    LastArmRun(prog, pc + 4 + |tcp| + |udp|, protoOff, icmp, pkt, pkt[protoOff], x);
    LastArmRun(prog, pc + 4 + |tcp| + |udp|, protoOff, icmp, pkt, a, x);
  }

  /** A block on a packet too short to hold the protocol byte. */
  lemma DispatchShort(prog: seq<Instr>, pc: nat, protoOff: nat, tcp: seq<Instr>, udp: seq<Instr>, icmp: nat,
                      pkt: seq<Byte>, a: nat, x: nat)
    requires At(prog, pc, Dispatch(protoOff, tcp, udp, icmp))
    requires protoOff >= |pkt|
    ensures Run(prog, pkt, pc, a, x) == Verdict(0)
  {
    assert prog[pc] == Dispatch(protoOff, tcp, udp, icmp)[0] == LoadAbsolute(protoOff, 1);
  }

  lemma Block4Run(prog: seq<Instr>, pc: nat, tcpPorts: seq<int>, udpPorts: seq<int>, pkt: seq<Byte>, a: nat, x: nat)
    requires At(prog, pc, Block4(tcpPorts, udpPorts))
    requires |tcpPorts| + |udpPorts| <= 58
    ensures Run(prog, pkt, pc, a, x) == Verdict(if Wanted4(tcpPorts, udpPorts, pkt) then SNAP_LEN else 0)
  {
    Lengths(tcpPorts, udpPorts);
    Lengths(udpPorts, tcpPorts);
    var tcp, udp := Handle4(tcpPorts), Handle4(udpPorts);
    if |pkt| < 24 {
      DispatchShort(prog, pc, 23, tcp, udp, 1, pkt, a, x);
    } else {
      DispatchRun(prog, pc, 23, tcp, udp, 1, pkt, a, x);
      if pkt[23] == 6 {
        var a', x' := Handle4Run(prog, pc + 2, tcpPorts, pkt, pkt[23], x);
        FallThrough(prog, pc, 23, tcp, udp, 1, pkt, a', x');
      } else if pkt[23] == 17 {
        var a', x' := Handle4Run(prog, pc + 4 + |tcp|, udpPorts, pkt, pkt[23], x);
        FallThrough(prog, pc, 23, tcp, udp, 1, pkt, a', x');
      }
    }
  }

  lemma Block6Run(prog: seq<Instr>, pc: nat, tcpPorts: seq<int>, udpPorts: seq<int>, pkt: seq<Byte>, a: nat, x: nat)
    requires At(prog, pc, Block6(tcpPorts, udpPorts))
    requires |tcpPorts| + |udpPorts| <= 58
    ensures Run(prog, pkt, pc, a, x) == Verdict(if Wanted6(tcpPorts, udpPorts, pkt) then SNAP_LEN else 0)
  {
    Lengths(tcpPorts, udpPorts);
    Lengths(udpPorts, tcpPorts);
    var tcp, udp := Handle6(tcpPorts), Handle6(udpPorts);
    if |pkt| < 21 {
      DispatchShort(prog, pc, 20, tcp, udp, 0x3a, pkt, a, x);
    } else {
      DispatchRun(prog, pc, 20, tcp, udp, 0x3a, pkt, a, x);
      if pkt[20] == 6 {
        var a', x' := Handle6Run(prog, pc + 2, tcpPorts, pkt, pkt[20], x);
        FallThrough(prog, pc, 20, tcp, udp, 0x3a, pkt, a', x');
      } else if pkt[20] == 17 {
        var a', x' := Handle6Run(prog, pc + 4 + |tcp|, udpPorts, pkt, pkt[20], x);
        FallThrough(prog, pc, 20, tcp, udp, 0x3a, pkt, a', x');
      }
    }
  }

  /** The ethertype dispatch. */
  lemma EtherRun(prog: seq<Instr>, pc: nat, ether: nat, block: seq<Instr>, pkt: seq<Byte>, a: nat, x: nat)
    requires At(prog, pc, [LoadAbsolute(12, 2), JumpIf(JumpEqual, ether, 0, Uint8(|block|))] + block)
    requires |pkt| >= 14 && |block| < 256
    ensures At(prog, pc + 2, block)
    ensures Run(prog, pkt, pc, a, x) ==
            Run(prog, pkt, if U16(pkt, 12) == ether then pc + 2 else pc + 2 + |block|, U16(pkt, 12), x)
  {
    LoadU16(pkt, 12);
    GuardRun(prog, pc, LoadAbsolute(12, 2), ether, block, pkt, a, x, U16(pkt, 12));
  }

  /** Where the two blocks and the final reject sit in a program. */
  lemma ProgramAt(tcpPorts: seq<int>, udpPorts: seq<int>)
    ensures var prog, b4, b6 := L7Program(tcpPorts, udpPorts), Block4(tcpPorts, udpPorts), Block6(tcpPorts, udpPorts);
            && At(prog, 0, [LoadAbsolute(12, 2), JumpIf(JumpEqual, 0x0800, 0, Uint8(|b4|))] + b4)
            && At(prog, 2 + |b4|, [LoadAbsolute(12, 2), JumpIf(JumpEqual, 0x86dd, 0, Uint8(|b6|))] + b6)
            && At(prog, 4 + |b4| + |b6|, [REJECT])
  {
    var prog, b4, b6 := L7Program(tcpPorts, udpPorts), Block4(tcpPorts, udpPorts), Block6(tcpPorts, udpPorts);
    var s := [LoadAbsolute(12, 2), JumpIf(JumpEqual, 0x0800, 0, Uint8(|b4|))] + b4;
    var t := [LoadAbsolute(12, 2), JumpIf(JumpEqual, 0x86dd, 0, Uint8(|b6|))] + b6;
    assert At(prog, 0, prog);
    AtConcat(prog, 0, s, t + [REJECT]);
    AtConcat(prog, |s|, t, [REJECT]);
  }

  lemma RejectRun(prog: seq<Instr>, pc: nat, pkt: seq<Byte>, a: nat, x: nat)
    requires At(prog, pc, [REJECT])
    ensures Run(prog, pkt, pc, a, x) == Verdict(0)
  {
    assert prog[pc] == [REJECT][0];
  }

  /** For every packet and all lists of integers, by what the conversions make of
      them. */
  lemma ProgramRun(tcpPorts: seq<int>, udpPorts: seq<int>, pkt: seq<Byte>)
    requires |tcpPorts| + |udpPorts| <= 58
    ensures Run(L7Program(tcpPorts, udpPorts), pkt, 0, 0, 0)
            == Verdict(if Wanted(tcpPorts, udpPorts, pkt) then SNAP_LEN else 0)
  {
    ProgramAt(tcpPorts, udpPorts);
    LaidOutRun(L7Program(tcpPorts, udpPorts), tcpPorts, udpPorts, pkt);
  }

  /** Any program with the two blocks where they belong. */
  lemma LaidOutRun(prog: seq<Instr>, tcpPorts: seq<int>, udpPorts: seq<int>, pkt: seq<Byte>)
    requires |tcpPorts| + |udpPorts| <= 58
    requires var b4, b6 := Block4(tcpPorts, udpPorts), Block6(tcpPorts, udpPorts);
             && At(prog, 0, [LoadAbsolute(12, 2), JumpIf(JumpEqual, 0x0800, 0, Uint8(|b4|))] + b4)
             && At(prog, 2 + |b4|, [LoadAbsolute(12, 2), JumpIf(JumpEqual, 0x86dd, 0, Uint8(|b6|))] + b6)
             && At(prog, 4 + |b4| + |b6|, [REJECT])
    ensures Run(prog, pkt, 0, 0, 0) == Verdict(if Wanted(tcpPorts, udpPorts, pkt) then SNAP_LEN else 0)
  {
    var b4, b6 := Block4(tcpPorts, udpPorts), Block6(tcpPorts, udpPorts);
    Lengths(tcpPorts, udpPorts);
    if |pkt| >= 14 {
      var e := U16(pkt, 12);
      EtherRun(prog, 0, 0x0800, b4, pkt, 0, 0);
      if e == 0x0800 {
        Block4Run(prog, 2, tcpPorts, udpPorts, pkt, e, 0);
      } else {
        EtherRun(prog, 2 + |b4|, 0x86dd, b6, pkt, e, 0);
        Block6OrReject(prog, 4 + |b4|, tcpPorts, udpPorts, pkt, e);
      }
    } else {
      ShortRun(prog, JumpIf(JumpEqual, 0x0800, 0, Uint8(|b4|)), b4, pkt);
    }
  }

  /** A frame too short for its ethertype is rejected by the first load. */
  lemma ShortRun(prog: seq<Instr>, test: Instr, body: seq<Instr>, pkt: seq<Byte>)
    requires At(prog, 0, [LoadAbsolute(12, 2), test] + body) && |pkt| < 14
    ensures Run(prog, pkt, 0, 0, 0) == Verdict(0)
  {
    assert ([LoadAbsolute(12, 2), test] + body)[0] == LoadAbsolute(12, 2);
    assert prog[0] == LoadAbsolute(12, 2);
  }

  lemma Block6OrReject(prog: seq<Instr>, pc: nat, tcpPorts: seq<int>, udpPorts: seq<int>, pkt: seq<Byte>, e: nat)
    requires |tcpPorts| + |udpPorts| <= 58
    requires At(prog, pc, Block6(tcpPorts, udpPorts)) && At(prog, pc + |Block6(tcpPorts, udpPorts)|, [REJECT])
    ensures Run(prog, pkt, if e == 0x86dd then pc else pc + |Block6(tcpPorts, udpPorts)|, e, 0)
            == Verdict(if e == 0x86dd && Wanted6(tcpPorts, udpPorts, pkt) then SNAP_LEN else 0)
  {
    if e == 0x86dd {
      Block6Run(prog, pc, tcpPorts, udpPorts, pkt, e, 0);
    } else {
      RejectRun(prog, pc + |Block6(tcpPorts, udpPorts)|, pkt, e, 0);
    }
  }

  // ----- The bound is exact --------------------------------------------------

  /** Two 21-byte IPv6 frames that differ only in the next-header byte. */
  function ShortV6(next: Byte): (pkt: seq<Byte>)
    ensures |pkt| == 21 && pkt[20] == next
    ensures forall i :: 0 <= i < 20 ==> pkt[i] == if i == 12 then 0x86 else if i == 13 then 0xdd else 0
  {
    seq(20, i => if i == 12 then 0x86 else if i == 13 then 0xdd else 0) + [next]
  }

  /** Loads of the IPv4 block, none of which can see byte 20 on its own. */
  ghost predicate BlindTo20(i: Instr) {
    match i
    case LoadAbsolute(off, size) => off + size <= 20 || off + size > 21
    case LoadIndirect(off, size) => off + size <= 20
    case LoadMemShift(off) => off == 14
    case _ => true
  }

  ghost predicate AllBlind(code: seq<Instr>) {
    forall i :: 0 <= i < |code| ==> BlindTo20(code[i])
  }

  lemma {:induction false} PortTestsBlind(ports: seq<int>)
    ensures AllBlind(PortTests(ports))
  {
    if ports != [] { PortTestsBlind(ports[1..]); }
  }

  lemma Block4Blind(tcpPorts: seq<int>, udpPorts: seq<int>)
    ensures AllBlind(Block4(tcpPorts, udpPorts))
  {
    PortTestsBlind(tcpPorts);
    PortTestsBlind(udpPorts);
    assert AllBlind(Handle4(tcpPorts));
    assert AllBlind(Handle4(udpPorts));
  }

  /** Code that is blind to byte 20 and never leaves itself cannot tell the two
      short frames apart. */
  lemma {:induction false} BlindRun(prog: seq<Instr>, lo: nat, code: seq<Instr>, pc: nat, a: nat, n1: Byte, n2: Byte)
    requires At(prog, lo, code)
    requires lo <= pc < lo + |code|
    requires Closed(code) && AllBlind(code)
    ensures Run(prog, ShortV6(n1), pc, a, 0) == Run(prog, ShortV6(n2), pc, a, 0)
    decreases lo + |code| - pc
  {
    var p1, p2 := ShortV6(n1), ShortV6(n2);
    var i := code[pc - lo];
    assert prog[pc] == i;
    assert StaysInside(code, pc - lo);
    assert BlindTo20(i);
    BlindStep(i, a, n1, n2);
    match Step(i, p1, a, 0)
    case Next(a', _, skip) => BlindRun(prog, lo, code, pc + 1 + skip, a', n1, n2);
    case Halt(_) =>
  }

  lemma BlindStep(i: Instr, a: nat, n1: Byte, n2: Byte)
    requires BlindTo20(i)
    ensures Step(i, ShortV6(n1), a, 0) == Step(i, ShortV6(n2), a, 0)
    ensures Step(i, ShortV6(n1), a, 0).Next? ==> Step(i, ShortV6(n1), a, 0).x == 0
  {
    var p1, p2 := ShortV6(n1), ShortV6(n2);
    match i
    case LoadAbsolute(off, size) =>
      if off + size <= 20 { assert p1[off..off + size] == p2[off..off + size]; }
    case LoadIndirect(off, size) =>
      assert p1[off..off + size] == p2[off..off + size];
    case LoadMemShift(off) =>
      LoadByte(p1, 14);
      LoadByte(p2, 14);
    case _ =>
  }

  /** The two instructions every program starts with, on a short IPv6 frame. */
  lemma MisroutedStart(prog: seq<Instr>, b4: seq<Instr>, next: Byte)
    requires At(prog, 0, [LoadAbsolute(12, 2), JumpIf(JumpEqual, 0x0800, 0, Uint8(|b4|))] + b4)
    ensures At(prog, 2, b4)
    ensures Run(prog, ShortV6(next), 0, 0, 0) == Run(prog, ShortV6(next), 2 + Uint8(|b4|), 0x86dd, 0)
  {
    var head := [LoadAbsolute(12, 2), JumpIf(JumpEqual, 0x0800, 0, Uint8(|b4|))];
    AtConcat(prog, 0, head, b4);
    LoadU16(ShortV6(next), 12);
    assert prog[0] == head[0] && prog[1] == head[1];
    assert Run(prog, ShortV6(next), 0, 0, 0) == Run(prog, ShortV6(next), 1, 0x86dd, 0);
  }

  lemma ShortWanted(tcpPorts: seq<int>, udpPorts: seq<int>)
    ensures Wanted(tcpPorts, udpPorts, ShortV6(0x3a)) && !Wanted(tcpPorts, udpPorts, ShortV6(0))
  {
  }

  /** Past the bound the narrowed skip drops every IPv6 frame into the middle of
      the IPv4 block, so an ICMPv6 frame and a frame of an unknown protocol get
      the same verdict. */
  lemma WrappedSkip(tcpPorts: seq<int>, udpPorts: seq<int>)
    requires |tcpPorts| + |udpPorts| > 58
    ensures Run(L7Program(tcpPorts, udpPorts), ShortV6(0x3a), 0, 0, 0)
            == Run(L7Program(tcpPorts, udpPorts), ShortV6(0), 0, 0, 0)
  {
    var prog, b4 := L7Program(tcpPorts, udpPorts), Block4(tcpPorts, udpPorts);
    ProgramAt(tcpPorts, udpPorts);
    MisroutedStart(prog, b4, 0x3a);
    MisroutedStart(prog, b4, 0);
    Lengths(tcpPorts, udpPorts);
    ProgramClosed(tcpPorts, udpPorts);
    Block4Blind(tcpPorts, udpPorts);
    BlindRun(prog, 2, b4, 2 + Uint8(|b4|), 0x86dd, 0x3a, 0);
  }

  // ----- In the packet's own terms -------------------------------------------

  /** Port numbers, as they are configured. */
  predicate Ports(ports: seq<int>) { forall i :: 0 <= i < |ports| ==> 0 <= ports[i] < 65536 }

  ghost predicate PortAt(pkt: seq<Byte>, off: nat, ports: seq<int>) {
    off + 2 <= |pkt| && 256 * pkt[off] as int + pkt[off + 1] as int in ports
  }

  /** An IPv4 frame: ICMP, or TCP or UDP that is no later fragment and has a listed
      source or destination port behind the header. */
  ghost predicate Documented4(tcpPorts: seq<int>, udpPorts: seq<int>, pkt: seq<Byte>)
    requires |pkt| >= 14
  {
    && pkt[12] == 0x08 && pkt[13] == 0x00 && |pkt| >= 24
    && (|| pkt[23] == 1
        || (pkt[20] % 32 == 0 && pkt[21] == 0 &&
            var at, ports := 14 + 4 * (pkt[14] % 16), if pkt[23] == 6 then tcpPorts else udpPorts;
            (pkt[23] == 6 || pkt[23] == 17) && (PortAt(pkt, at, ports) || PortAt(pkt, at + 2, ports))))
  }

  /** An IPv6 frame: ICMPv6, or TCP or UDP with a listed port. */
  ghost predicate Documented6(tcpPorts: seq<int>, udpPorts: seq<int>, pkt: seq<Byte>)
    requires |pkt| >= 14
  {
    && pkt[12] == 0x86 && pkt[13] == 0xdd && |pkt| >= 21
    && (|| pkt[20] == 58
        || (var ports := if pkt[20] == 6 then tcpPorts else udpPorts;
            (pkt[20] == 6 || pkt[20] == 17) && (PortAt(pkt, 54, ports) || PortAt(pkt, 56, ports))))
  }

  ghost predicate Documented(tcpPorts: seq<int>, udpPorts: seq<int>, pkt: seq<Byte>) {
    |pkt| >= 14 && (Documented4(tcpPorts, udpPorts, pkt) || Documented6(tcpPorts, udpPorts, pkt))
  }

  /** The conversion keeps port numbers, so being listed is being in the list. */
  lemma ListedIsMember(port: nat, ports: seq<int>)
    requires Ports(ports)
    ensures Listed(port, ports) <==> port in ports
  {
    forall i | 0 <= i < |ports| ensures Uint32(ports[i]) == ports[i] {}
  }

  lemma PortHitIsPortAt(pkt: seq<Byte>, off: nat, ports: seq<int>)
    requires Ports(ports)
    ensures PortHit(pkt, off, ports) <==> PortAt(pkt, off, ports) || PortAt(pkt, off + 2, ports)
  {
    if off + 2 <= |pkt| { ListedIsMember(U16(pkt, off), ports); }
    if off + 4 <= |pkt| { ListedIsMember(U16(pkt, off + 2), ports); }
  }

  lemma Bytes16(hi: Byte, lo: Byte)
    ensures var v := (hi as int) * 256 + lo as int;
            && (v == 0x0800 <==> hi == 0x08 && lo == 0x00) && (v == 0x86dd <==> hi == 0x86 && lo == 0xdd)
            && (v % 8192 == 0 <==> hi % 32 == 0 && lo == 0)
  {
  }

  lemma Wanted4IsDocumented(tcpPorts: seq<int>, udpPorts: seq<int>, pkt: seq<Byte>)
    requires Ports(tcpPorts) && Ports(udpPorts) && |pkt| >= 14
    ensures U16(pkt, 12) == 0x0800 && Wanted4(tcpPorts, udpPorts, pkt) <==> Documented4(tcpPorts, udpPorts, pkt)
  {
    Bytes16(pkt[12], pkt[13]);
    if |pkt| >= 24 {
      Bytes16(pkt[20], pkt[21]);
      PortHitIsPortAt(pkt, 14 + 4 * (pkt[14] % 16), if pkt[23] == 6 then tcpPorts else udpPorts);
    }
  }

  lemma Wanted6IsDocumented(tcpPorts: seq<int>, udpPorts: seq<int>, pkt: seq<Byte>)
    requires Ports(tcpPorts) && Ports(udpPorts) && |pkt| >= 14
    ensures U16(pkt, 12) == 0x86dd && Wanted6(tcpPorts, udpPorts, pkt) <==> Documented6(tcpPorts, udpPorts, pkt)
  {
    Bytes16(pkt[12], pkt[13]);
    if |pkt| >= 21 { PortHitIsPortAt(pkt, 54, if pkt[20] == 6 then tcpPorts else udpPorts); }
  }

  lemma WantedIsDocumented(tcpPorts: seq<int>, udpPorts: seq<int>, pkt: seq<Byte>)
    requires Ports(tcpPorts) && Ports(udpPorts)
    ensures Wanted(tcpPorts, udpPorts, pkt) <==> Documented(tcpPorts, udpPorts, pkt)
  {
    if |pkt| >= 14 {
      Wanted4IsDocumented(tcpPorts, udpPorts, pkt);
      Wanted6IsDocumented(tcpPorts, udpPorts, pkt);
    }
  }

  /** Compiler correctness, for every packet and all lists of at most 58 ports. */
  lemma ProgramCorrect(tcpPorts: seq<int>, udpPorts: seq<int>, pkt: seq<Byte>)
    requires Ports(tcpPorts) && Ports(udpPorts) && |tcpPorts| + |udpPorts| <= 58
    ensures Run(L7Program(tcpPorts, udpPorts), pkt, 0, 0, 0) == Verdict(if Documented(tcpPorts, udpPorts, pkt) then 65536 else 0)
  {
    ProgramRun(tcpPorts, udpPorts, pkt);
    WantedIsDocumented(tcpPorts, udpPorts, pkt);
  }

  /** The generator is correct exactly up to 58 ports. */
  lemma CorrectIffAtMost58Ports(tcpPorts: seq<int>, udpPorts: seq<int>)
    requires Ports(tcpPorts) && Ports(udpPorts)
    ensures (forall pkt: seq<Byte> :: Accepts(L7Program(tcpPorts, udpPorts), pkt) <==> Documented(tcpPorts, udpPorts, pkt))
            <==> |tcpPorts| + |udpPorts| <= 58
  {
    if |tcpPorts| + |udpPorts| <= 58 {
      forall pkt: seq<Byte>
        ensures Accepts(L7Program(tcpPorts, udpPorts), pkt) <==> Documented(tcpPorts, udpPorts, pkt)
      {
        ProgramCorrect(tcpPorts, udpPorts, pkt);
      }
    } else {
      WrappedSkip(tcpPorts, udpPorts);
      ShortWanted(tcpPorts, udpPorts);
      WantedIsDocumented(tcpPorts, udpPorts, ShortV6(0x3a));
      WantedIsDocumented(tcpPorts, udpPorts, ShortV6(0));
    }
  }

  /** The same bound for lists of any integers, by what the conversions make of them. */
  lemma DecidesIffAtMost58(tcpPorts: seq<int>, udpPorts: seq<int>)
    ensures (forall pkt: seq<Byte> :: Accepts(L7Program(tcpPorts, udpPorts), pkt) <==> Wanted(tcpPorts, udpPorts, pkt))
            <==> |tcpPorts| + |udpPorts| <= 58
  {
    if |tcpPorts| + |udpPorts| <= 58 {
      forall pkt: seq<Byte>
        ensures Accepts(L7Program(tcpPorts, udpPorts), pkt) <==> Wanted(tcpPorts, udpPorts, pkt)
      {
        ProgramRun(tcpPorts, udpPorts, pkt);
      }
    } else {
      WrappedSkip(tcpPorts, udpPorts);
      ShortWanted(tcpPorts, udpPorts);
    }
  }
}
