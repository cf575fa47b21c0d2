/** What a comparison of the filter language tests: the matchers the hub builds
    once per filter, against a direct reading of the same comparison. Regular
    expressions, CIDR containment, number parsing and the field tables are
    parameters; the tables of the numeric fields and a representative part of the
    others are given. */
module FilterMatch {
  import opened Basics
  import opened FilterLexer

  /** The parts of a captured entry the modelled fields read; an absent
      sub-object is None. */
  datatype Entry = Entry(
    protocol: string, node: string, status: string,
    srcIp: string, srcPort: int, srcName: string, srcNamespace: string,
    dstIp: string, dstPort: int, dstName: string, dstNamespace: string,
    requestMethod: string, path: string, headers: map<string, string>,
    elapsedMs: int, statusCode: int, bytes: int, packets: int, requestSize: int, responseSize: int,
    deliveryTag: int, rowCount: int, ttfbMs: Option<int>, mysqlError: Option<int>,
    redis: Option<Redis>, l4: Option<L4>)

  datatype Redis = Redis(db: int, pipelineDepth: int)

  datatype L4 = L4(
    ttl: int, retransmits: int, window: int, mss: int, durationMs: int, clientBytes: int, serverBytes: int,
    ipVersion: int, seqStart: int, ackStart: int, clientPackets: int, serverPackets: int)

  type Pred = Entry -> bool

  datatype IpTest = NotAnAddress | Outside | Inside

  datatype Library = Library(
    num: ParseNumber,
    regex: string -> Option<string -> bool>,
    cidr: string -> Option<string -> IpTest>,
    fields: string -> Option<Entry -> string>,
    numericFields: string -> Option<Entry -> Option<int>>)

  // ----- Decimal numerals ----------------------------------------------------

  function Digits(n: nat): (s: string)
    ensures s != ""
  {
    if n < 10 then ["0123456789"[n]] else Digits(n / 10) + ["0123456789"[n % 10]]
  }

  function Itoa(n: int): string { if n < 0 then "-" + Digits(-n) else Digits(n) }

  /** What the code relies on of the number parser: it reads back what the
      number formatters wrote, and an absent value is no number. */
  ghost predicate ReadsNumerals(lib: Library) {
    lib.num("") == None && forall n: int :: lib.num(Itoa(n)) == Some(n as real)
  }

  /** Every typed field is a field, and both accessors read the same number. */
  ghost predicate FieldsAgree(lib: Library) {
    forall field, e :: lib.numericFields(field).Some? ==> BothRead(lib, field, e)
  }

  ghost predicate BothRead(lib: Library, field: string, e: Entry)
    requires lib.numericFields(field).Some?
  {
    lib.fields(field).Some? && lib.fields(field).value(e) == OrEmpty(lib.numericFields(field).value(e))
  }

  ghost predicate Sound(lib: Library) { ReadsNumerals(lib) && FieldsAgree(lib) }

  function ParseDigits(s: string): Option<nat> {
    if s == "" then Some(0)
    else
      var c, before := s[|s| - 1], ParseDigits(s[..|s| - 1]);
      if before.Some? && '0' <= c <= '9' then Some(10 * before.value + (c - '0') as nat) else None
  }

  function ParseDecimal(s: string): Option<real> {
    if s == "" then None
    else if s[0] == '-' then (var r := ParseDigits(s[1..]); if r.Some? && |s| > 1 then Some(0.0 - r.value as real) else None)
    else (var r := ParseDigits(s); if r.Some? then Some(r.value as real) else None)
  }

  lemma {:induction false} DigitsReadBack(n: nat)
    ensures ParseDigits(Digits(n)) == Some(n) && Digits(n)[0] != '-'
  {
    if n >= 10 {
      var s := Digits(n);
      DigitsReadBack(n / 10);
      assert s[..|s| - 1] == Digits(n / 10);
    } else {
      assert ParseDigits("") == Some(0);
      assert Digits(n)[..0] == "";
    }
  }

  /** A plain decimal reader is such a number parser. */
  lemma DecimalReadsNumerals(lib: Library)
    requires lib.num == ParseDecimal
    ensures ReadsNumerals(lib)
  {
    forall n: int ensures lib.num(Itoa(n)) == Some(n as real) {
      DigitsReadBack(if n < 0 then -n else n);
      if n < 0 { assert Itoa(n)[1..] == Digits(-n); }
    }
  }

  // ----- Fields --------------------------------------------------------------

  function OrEmpty(n: Option<int>): string { if n.Some? then Itoa(n.value) else "" }

  const REQUEST_HEADER := "request.header."

  predicate HeaderField(low: string) { REQUEST_HEADER < low }

  /** The string accessor of a field, if there is such a field. */
  function FieldGetter(field: string): Option<Entry -> string> {
    var low := Lower(field);
    if HeaderField(low) then
      var name := low[|REQUEST_HEADER|..];
      Some((e: Entry) => if name in e.headers then e.headers[name] else "")
    else NamedGetter(low)
  }

  function NamedGetter(low: string): Option<Entry -> string> {
    if EntryText(low).Some? then EntryText(low) else if DetailText(low).Some? then DetailText(low)
    else if L4Text(low).Some? then L4Text(low) else TextGetter(low)
  }

  /** Numeric fields of the entry itself, as text. */
  function EntryText(low: string): Option<Entry -> string> {
    if low == "elapsedms" || low == "elapsed" || low == "latency" then Some((e: Entry) => Itoa(e.elapsedMs))
    else if low == "src.port" then Some((e: Entry) => Itoa(e.srcPort))
    else if low == "dst.port" then Some((e: Entry) => Itoa(e.dstPort))
    else if low == "http.status" || low == "response.status" || low == "status.code" || low == "statuscode" then
      Some((e: Entry) => Itoa(e.statusCode))
    else if low == "bytes" then Some((e: Entry) => Itoa(e.bytes))
    else if low == "packets" then Some((e: Entry) => Itoa(e.packets))
    else if low == "request.size" then Some((e: Entry) => Itoa(e.requestSize))
    else if low == "response.size" || low == "size" then Some((e: Entry) => Itoa(e.responseSize))
    else None
  }

  /** Numeric fields of the protocol details, as text. */
  function DetailText(low: string): Option<Entry -> string> {
    if low == "redis.db" then Some((e: Entry) => if e.redis.Some? then Itoa(e.redis.value.db) else "")
    else if low == "mysql.error" then
      Some((e: Entry) => if e.mysqlError.Some? && e.mysqlError.value != 0 then Itoa(e.mysqlError.value) else "")
    else if low == "amqp.deliverytag" || low == "deliverytag" then Some((e: Entry) => Itoa(e.deliveryTag))
    else if low == "redis.pipelinedepth" then
      Some((e: Entry) => if e.redis.Some? then Itoa(e.redis.value.pipelineDepth) else "")
    else if low == "postgres.rowcount" || low == "rowcount" then Some((e: Entry) => Itoa(e.rowCount))
    else if low == "http.ttfbms" then Some((e: Entry) => OrEmpty(e.ttfbMs))
    else None
  }

  /** "" (not "0") when the entry has no L4 part. */
  function L4Int(e: Entry, get: L4 -> int): string { if e.l4.None? then "" else Itoa(get(e.l4.value)) }

  function L4Text(low: string): Option<Entry -> string> {
    if low == "l4.ttl" then Some((e: Entry) => L4Int(e, (l: L4) => l.ttl))
    else if low == "l4.retransmits" then Some((e: Entry) => L4Int(e, (l: L4) => l.retransmits))
    else if low == "l4.window" then Some((e: Entry) => L4Int(e, (l: L4) => l.window))
    else if low == "l4.mss" then Some((e: Entry) => L4Int(e, (l: L4) => l.mss))
    else if low == "l4.durationms" then Some((e: Entry) => L4Int(e, (l: L4) => l.durationMs))
    else if low == "l4.clientbytes" then Some((e: Entry) => L4Int(e, (l: L4) => l.clientBytes))
    else if low == "l4.serverbytes" then Some((e: Entry) => L4Int(e, (l: L4) => l.serverBytes))
    else if low == "l4.ipversion" then Some((e: Entry) => L4Int(e, (l: L4) => l.ipVersion))
    else if low == "l4.seqstart" then Some((e: Entry) => L4Int(e, (l: L4) => l.seqStart))
    else if low == "l4.ackstart" then Some((e: Entry) => L4Int(e, (l: L4) => l.ackStart))
    else if low == "l4.clientpackets" then Some((e: Entry) => L4Int(e, (l: L4) => l.clientPackets))
    else if low == "l4.serverpackets" then Some((e: Entry) => L4Int(e, (l: L4) => l.serverPackets))
    else None
  }

  function TextGetter(low: string): Option<Entry -> string> {
    if low == "namespace" || low == "ns" then
      Some((e: Entry) => if e.srcNamespace != "" then e.srcNamespace else e.dstNamespace)
    else if low == "protocol" then Some((e: Entry) => e.protocol)
    else if low == "node" then Some((e: Entry) => e.node)
    else if low == "status" then Some((e: Entry) => e.status)
    else if low == "src.ip" then Some((e: Entry) => e.srcIp)
    else if low == "src.name" then Some((e: Entry) => e.srcName)
    else if low == "src.namespace" || low == "src.ns" then Some((e: Entry) => e.srcNamespace)
    else if low == "dst.ip" then Some((e: Entry) => e.dstIp)
    else if low == "dst.name" then Some((e: Entry) => e.dstName)
    else if low == "dst.namespace" || low == "dst.ns" then Some((e: Entry) => e.dstNamespace)
    else if low == "http.method" || low == "request.method" || low == "method" then Some((e: Entry) => e.requestMethod)
    else if low == "http.path" || low == "request.path" || low == "path" then Some((e: Entry) => e.path)
    else None
  }

  /** The typed accessor of a numeric field. */
  function NumericFieldGetter(field: string): Option<Entry -> Option<int>> { NumericGetter(Lower(field)) }

  function NumericGetter(low: string): Option<Entry -> Option<int>> {
    if EntryNumber(low).Some? then EntryNumber(low) else if DetailNumber(low).Some? then DetailNumber(low) else L4Number(low)
  }

  function EntryNumber(low: string): Option<Entry -> Option<int>> {
    if low == "elapsedms" || low == "elapsed" || low == "latency" then Some((e: Entry) => Some(e.elapsedMs))
    else if low == "src.port" then Some((e: Entry) => Some(e.srcPort))
    else if low == "dst.port" then Some((e: Entry) => Some(e.dstPort))
    else if low == "response.status" || low == "http.status" || low == "status.code" || low == "statuscode" then
      Some((e: Entry) => Some(e.statusCode))
    else if low == "bytes" then Some((e: Entry) => Some(e.bytes))
    else if low == "packets" then Some((e: Entry) => Some(e.packets))
    else if low == "request.size" then Some((e: Entry) => Some(e.requestSize))
    else if low == "response.size" || low == "size" then Some((e: Entry) => Some(e.responseSize))
    else None
  }

  function DetailNumber(low: string): Option<Entry -> Option<int>> {
    if low == "redis.db" then Some((e: Entry) => if e.redis.None? then None else Some(e.redis.value.db))
    else if low == "redis.pipelinedepth" then
      Some((e: Entry) => if e.redis.None? then None else Some(e.redis.value.pipelineDepth))
    else if low == "mysql.error" then
      Some((e: Entry) => if e.mysqlError.None? || e.mysqlError.value == 0 then None else e.mysqlError)
    else if low == "amqp.deliverytag" || low == "deliverytag" then Some((e: Entry) => Some(e.deliveryTag))
    else if low == "postgres.rowcount" || low == "rowcount" then Some((e: Entry) => Some(e.rowCount))
    else if low == "http.ttfbms" then Some((e: Entry) => e.ttfbMs)
    else None
  }

  function OfL4(e: Entry, get: L4 -> int): Option<int> { if e.l4.None? then None else Some(get(e.l4.value)) }

  function L4Number(low: string): Option<Entry -> Option<int>> {
    if low == "l4.ttl" then Some((e: Entry) => OfL4(e, (l: L4) => l.ttl))
    else if low == "l4.retransmits" then Some((e: Entry) => OfL4(e, (l: L4) => l.retransmits))
    else if low == "l4.window" then Some((e: Entry) => OfL4(e, (l: L4) => l.window))
    else if low == "l4.mss" then Some((e: Entry) => OfL4(e, (l: L4) => l.mss))
    else if low == "l4.durationms" then Some((e: Entry) => OfL4(e, (l: L4) => l.durationMs))
    else if low == "l4.clientbytes" then Some((e: Entry) => OfL4(e, (l: L4) => l.clientBytes))
    else if low == "l4.serverbytes" then Some((e: Entry) => OfL4(e, (l: L4) => l.serverBytes))
    else if low == "l4.ipversion" then Some((e: Entry) => OfL4(e, (l: L4) => l.ipVersion))
    else if low == "l4.seqstart" then Some((e: Entry) => OfL4(e, (l: L4) => l.seqStart))
    else if low == "l4.ackstart" then Some((e: Entry) => OfL4(e, (l: L4) => l.ackStart))
    else if low == "l4.clientpackets" then Some((e: Entry) => OfL4(e, (l: L4) => l.clientPackets))
    else if low == "l4.serverpackets" then Some((e: Entry) => OfL4(e, (l: L4) => l.serverPackets))
    else None
  }

  /** A name with an accessor in one table has it in the other, and both read the
      same number. */
  ghost predicate SameNumber(text: Option<Entry -> string>, number: Option<Entry -> Option<int>>, e: Entry) {
    text.Some? == number.Some? && (text.Some? ==> text.value(e) == OrEmpty(number.value(e)))
  }

  lemma EntryAgrees(low: string, e: Entry)
    ensures SameNumber(EntryText(low), EntryNumber(low), e) && (EntryText(low).Some? ==> |low| <= 15)
  {
  }

  lemma DetailAgrees(low: string, e: Entry)
    ensures SameNumber(DetailText(low), DetailNumber(low), e) && (DetailText(low).Some? ==> low[3] != 'u')
  {
  }

  lemma L4Agrees(low: string, e: Entry)
    ensures SameNumber(L4Text(low), L4Number(low), e) && (L4Text(low).Some? ==> low[3] != 'u')
  {
  }

  lemma HeaderStart(low: string)
    requires HeaderField(low)
    ensures |low| > 15 && low[3] == 'u'
  {
    assert low[3] == REQUEST_HEADER[3];
  }

  lemma NumericIsNamed(low: string, e: Entry)
    requires NumericGetter(low).Some?
    ensures !HeaderField(low)
    ensures NamedGetter(low).Some? && NamedGetter(low).value(e) == OrEmpty(NumericGetter(low).value(e))
  {
    EntryAgrees(low, e);
    DetailAgrees(low, e);
    L4Agrees(low, e);
    if HeaderField(low) { HeaderStart(low); }
  }

  /** With the hub's tables every typed field agrees with its text. */
  lemma HubFieldsAgree(lib: Library)
    requires lib.fields == FieldGetter && lib.numericFields == NumericFieldGetter
    ensures FieldsAgree(lib)
  {
    forall field, e | lib.numericFields(field).Some? ensures BothRead(lib, field, e) {
      NumericIsNamed(Lower(field), e);
    }
  }

  /** Which number each numeric field reads; a field of an absent sub-object, or a
      MySQL error code of zero, reads none. */
  lemma EntryFieldsRead(low: string, e: Entry)
    ensures EntryNumber(low).Some? ==>
              EntryNumber(low).value(e) == Some(
                if low in {"elapsedms", "elapsed", "latency"} then e.elapsedMs
                else if low == "src.port" then e.srcPort
                else if low == "dst.port" then e.dstPort
                else if low in {"response.status", "http.status", "status.code", "statuscode"} then e.statusCode
                else if low == "bytes" then e.bytes
                else if low == "packets" then e.packets
                else if low == "request.size" then e.requestSize
                else e.responseSize)
  {
  }

  lemma DetailFieldsRead(low: string, e: Entry)
    ensures DetailNumber(low).Some? ==>
              DetailNumber(low).value(e) ==
                if low == "redis.db" then (if e.redis.Some? then Some(e.redis.value.db) else None)
                else if low == "redis.pipelinedepth" then (if e.redis.Some? then Some(e.redis.value.pipelineDepth) else None)
                else if low == "mysql.error" then (if e.mysqlError == Some(0) then None else e.mysqlError)
                else if low in {"amqp.deliverytag", "deliverytag"} then Some(e.deliveryTag)
                else if low in {"postgres.rowcount", "rowcount"} then Some(e.rowCount)
                else e.ttfbMs
  {
  }

  lemma L4FieldsRead(low: string, e: Entry)
    ensures L4Number(low).Some? ==>
              L4Number(low).value(e) ==
                if e.l4.None? then None
                else
                  var l := e.l4.value;
                  Some(
                    if low == "l4.ttl" then l.ttl else if low == "l4.retransmits" then l.retransmits
                    else if low == "l4.window" then l.window else if low == "l4.mss" then l.mss
                    else if low == "l4.durationms" then l.durationMs else if low == "l4.clientbytes" then l.clientBytes
                    else if low == "l4.serverbytes" then l.serverBytes else if low == "l4.ipversion" then l.ipVersion
                    else if low == "l4.seqstart" then l.seqStart else if low == "l4.ackstart" then l.ackStart
                    else if low == "l4.clientpackets" then l.clientPackets else l.serverPackets)
  {
  }

  // ----- Matchers, built once per filter -------------------------------------

  datatype Relation = Eq | Ne | Gt | Lt | Ge | Le | Contains | Matches | StartsWith

  predicate Relational(op: Relation) { op in {Gt, Lt, Ge, Le} }

  function Compare(op: Relation, v: real, w: real): bool {
    match op case Gt => v > w case Lt => v < w case Ge => v >= w case _ => v <= w
  }

  function EqualFold(a: string, b: string): (r: bool)
    ensures r <==> SameText(a, b)
  {
    FoldText(a, b);
    Lower(a) == Lower(b)
  }

  predicate OccursAt(s: string, sub: string, i: int) { 0 <= i && i + |sub| <= |s| && s[i..i + |sub|] == sub }

  predicate Within(s: string, sub: string) { exists i :: 0 <= i <= |s| && OccursAt(s, sub, i) }

  function EitherSide(field: string): (r: bool)
    ensures r <==> OnNamespace(field)
  {
    KeywordFold(field, "namespace");
    KeywordFold(field, "ns");
    Lower(field) == "namespace" || Lower(field) == "ns"
  }

  const MAX_REGEX := 256

  function ValueMatcher(lib: Library, op: Relation, want: string): Option<string -> bool> {
    match op
    case Eq =>
      if lib.cidr(want).Some? then (var test := lib.cidr(want).value; Some(actual => test(actual) == Inside))
      else Some(actual => EqualFold(actual, want))
    case Ne =>
      if lib.cidr(want).Some? then
        (var test := lib.cidr(want).value; Some(actual => test(actual) == NotAnAddress || test(actual) == Outside))
      else Some(actual => !EqualFold(actual, want))
    case Contains =>
      var low := Lower(want);
      Some(actual => Within(actual, low) || Within(Lower(actual), low))
    case Matches => None
    case StartsWith => None
    case _ =>
      if lib.num(want).None? then None
      else
        var w, num := lib.num(want).value, lib.num;
        Some(actual => num(actual).Some? && Compare(op, num(actual).value, w))
  }

  function NumericValueMatcher(lib: Library, op: Relation, want: string, getter: Entry -> Option<int>): Option<Pred> {
    if lib.num(want).None? then None
    else
      var w := lib.num(want).value;
      Some((e: Entry) => getter(e).Some? && Compare(op, getter(e).value as real, w))
  }

  function BuildFieldPredicate(lib: Library, field: string, matcher: string -> bool): Option<Pred> {
    if EitherSide(field) then Some((e: Entry) => matcher(e.srcNamespace) || matcher(e.dstNamespace))
    else
      var g := lib.fields(field);
      if g.None? then None else (var getter := g.value; Some((e: Entry) => matcher(getter(e))))
  }

  function CompileComparison(lib: Library, field: string, op: Relation, val: string): Option<Pred> {
    if op == Matches then
      if |val| > MAX_REGEX || lib.regex(val).None? then None else BuildFieldPredicate(lib, field, lib.regex(val).value)
    else if op == StartsWith then
      BuildFieldPredicate(lib, field, actual => |actual| >= |val| && EqualFold(actual[..|val|], val))
    else if EitherSide(field) then CompileEitherSide(lib, op, val)
    else
      var g, ng := lib.fields(field), lib.numericFields(field);
      if g.None? then None
      else if ng.Some? && Relational(op) then NumericValueMatcher(lib, op, val, ng.value)
      else
        var m := ValueMatcher(lib, op, val);
        if m.None? then None else (var getter, matcher := g.value, m.value; Some((e: Entry) => matcher(getter(e))))
  }

  /** The namespace pseudo-field; != excludes an entry either side of which matches. */
  function CompileEitherSide(lib: Library, op: Relation, val: string): Option<Pred> {
    var m := ValueMatcher(lib, if op == Ne then Eq else op, val);
    if m.None? then None
    else
      var matcher := m.value;
      if op == Ne then Some((e: Entry) => !matcher(e.srcNamespace) && !matcher(e.dstNamespace))
      else Some((e: Entry) => matcher(e.srcNamespace) || matcher(e.dstNamespace))
  }

  predicate OneOf(values: seq<string>, actual: string) { exists i :: 0 <= i < |values| && EqualFold(actual, values[i]) }

  function CompileIn(lib: Library, field: string, values: seq<string>): Option<Pred> {
    BuildFieldPredicate(lib, field, actual => OneOf(values, actual))
  }

  /** The lower-cased text a bare literal is looked up in. */
  function Fulltext(e: Entry): string {
    Lower(e.protocol) + " " + Lower(e.node) + " " + Lower(e.srcIp) + " " + Lower(e.srcName) + " " + Lower(e.dstIp) + " " +
    Lower(e.dstName) + " " + Lower(e.requestMethod) + " " + Lower(e.path)
  }

  // ----- The direct reading --------------------------------------------------

  /** The pseudo-field that stands for both namespaces of an entry. */
  predicate OnNamespace(field: string) { SameText(field, "namespace") || SameText(field, "ns") }

  /** The values a comparison on this field looks at. */
  function ValuesOf(lib: Library, field: string, e: Entry): seq<string>
    requires Known(lib, field)
  {
    if OnNamespace(field) then [e.srcNamespace, e.dstNamespace] else [lib.fields(field).value(e)]
  }

  predicate Known(lib: Library, field: string) { OnNamespace(field) || lib.fields(field).Some? }

  /** Whether one value stands in the relation to the literal: as texts whatever the
      case, as an address in a range, or as real numbers. */
  predicate Test(lib: Library, op: Relation, want: string, actual: string)
    requires Meaningful(lib, op, want)
  {
    match op
    case Contains => Mentions(actual, want)
    case Matches => lib.regex(want).value(actual)
    case StartsWith => SameAt(actual, 0, want)
    case Eq => EqualTest(lib, want, actual)
    case Ne => !EqualTest(lib, want, actual)
    case Gt => lib.num(actual).Some? && lib.num(actual).value > lib.num(want).value
    case Lt => lib.num(actual).Some? && lib.num(actual).value < lib.num(want).value
    case Ge => lib.num(actual).Some? && lib.num(actual).value >= lib.num(want).value
    case Le => lib.num(actual).Some? && lib.num(actual).value <= lib.num(want).value
  }

  predicate EqualTest(lib: Library, want: string, actual: string) {
    if lib.cidr(want).Some? then lib.cidr(want).value(actual) == Inside else SameText(actual, want)
  }

  /** The literal makes sense for the relation. */
  predicate Meaningful(lib: Library, op: Relation, want: string) {
    && (op == Gt || op == Lt || op == Ge || op == Le ==> lib.num(want).Some?)
    && (op == Matches ==> |want| <= 256 && lib.regex(want).Some?)
  }

  predicate ComparisonOk(lib: Library, field: string, op: Relation, want: string) {
    Known(lib, field) && Meaningful(lib, op, want)
  }

  /** != asks it of every value, any other relation of some value. */
  predicate Holds(lib: Library, field: string, op: Relation, want: string, e: Entry)
    requires ComparisonOk(lib, field, op, want)
  {
    var vs := ValuesOf(lib, field, e);
    if op == Ne then forall i :: 0 <= i < |vs| ==> Test(lib, op, want, vs[i])
    else exists i :: 0 <= i < |vs| && Test(lib, op, want, vs[i])
  }

  predicate HoldsIn(lib: Library, field: string, values: seq<string>, e: Entry)
    requires Known(lib, field)
  {
    var vs := ValuesOf(lib, field, e);
    exists i, j :: 0 <= i < |vs| && 0 <= j < |values| && SameText(vs[i], values[j])
  }

  /** The text a bare literal is looked up in. */
  function SearchText(e: Entry): string {
    e.protocol + " " + e.node + " " + e.srcIp + " " + e.srcName + " " + e.dstIp + " " + e.dstName + " " + e.requestMethod + " " + e.path
  }

  // ----- The matchers mean the direct reading --------------------------------

  /** A hit of the folded needle in the raw value is a hit in the folded one. */
  lemma FoldedHit(actual: string, want: string)
    ensures Within(actual, Lower(want)) ==> Within(Lower(actual), Lower(want))
  {
    var low := Lower(want);
    if Within(actual, low) {
      var i :| 0 <= i <= |actual| && OccursAt(actual, low, i);
      forall k | 0 <= k < |low| ensures Lower(actual)[i + k] == low[k] {
        assert actual[i..i + |low|][k] == low[k];
      }
      assert Lower(actual)[i..i + |low|] == low;
      assert OccursAt(Lower(actual), low, i);
    }
  }

  lemma PrefixFold(actual: string, want: string)
    ensures |actual| >= |want| && EqualFold(actual[..|want|], want) <==> SameAt(actual, 0, want)
  {
  }

  /** Looking the folded literal up in the folded value finds it in any case. */
  lemma FoldedSearch(actual: string, want: string)
    ensures Within(Lower(actual), Lower(want)) <==> Mentions(actual, want)
  {
    var s, w := Lower(actual), Lower(want);
    forall i | 0 <= i <= |actual| ensures OccursAt(s, w, i) <==> SameAt(actual, i, want) {
      if i + |want| <= |actual| { FoldAt(actual, i, want); }
    }
  }

  lemma LowerJoin(a: string, b: string)
    ensures Lower(a) + " " + Lower(b) == Lower(a + " " + b)
  {
  }

  lemma FulltextIsLower(e: Entry)
    ensures Fulltext(e) == Lower(SearchText(e))
  {
    var s := e.protocol;
    LowerJoin(s, e.node);
    s := s + " " + e.node;
    LowerJoin(s, e.srcIp);
    s := s + " " + e.srcIp;
    LowerJoin(s, e.srcName);
    s := s + " " + e.srcName;
    LowerJoin(s, e.dstIp);
    s := s + " " + e.dstIp;
    LowerJoin(s, e.dstName);
    s := s + " " + e.dstName;
    LowerJoin(s, e.requestMethod);
    s := s + " " + e.requestMethod;
    LowerJoin(s, e.path);
  }

  /** A bare literal is found anywhere in the text, whatever the case. */
  lemma FulltextMeans(e: Entry, needle: string)
    ensures Within(Fulltext(e), Lower(needle)) <==> Mentions(SearchText(e), needle)
  {
    FulltextIsLower(e);
    FoldedSearch(SearchText(e), needle);
  }

  lemma ValueMatcherMeans(lib: Library, op: Relation, want: string, actual: string)
    requires op != Matches && op != StartsWith
    ensures ValueMatcher(lib, op, want).Some? <==> Meaningful(lib, op, want)
    ensures Meaningful(lib, op, want) ==> ValueMatcher(lib, op, want).value(actual) == Test(lib, op, want, actual)
  {
    FoldedHit(actual, want);
    FoldedSearch(actual, want);
  }

  /** The typed numeric path is the parse-the-string path. */
  lemma TypedPathAgrees(lib: Library, field: string, op: Relation, want: string, e: Entry)
    requires Sound(lib) && lib.numericFields(field).Some? && Relational(op)
    ensures lib.fields(field).Some?
    ensures var typed, texts := NumericValueMatcher(lib, op, want, lib.numericFields(field).value), ValueMatcher(lib, op, want);
            typed.Some? == texts.Some? &&
            (typed.Some? ==> typed.value(e) == texts.value(lib.fields(field).value(e)))
  {
    assert BothRead(lib, field, e);
    var v := lib.numericFields(field).value(e);
    assert v.Some? ==> lib.num(Itoa(v.value)) == Some(v.value as real);
  }

  lemma FieldPredicateMeans(lib: Library, field: string, matcher: string -> bool, e: Entry)
    ensures BuildFieldPredicate(lib, field, matcher).Some? <==> Known(lib, field)
    ensures Known(lib, field) ==>
      (BuildFieldPredicate(lib, field, matcher).value(e) <==>
       exists i :: 0 <= i < |ValuesOf(lib, field, e)| && matcher(ValuesOf(lib, field, e)[i]))
  {
    if Known(lib, field) {
      var vs := ValuesOf(lib, field, e);
      assert vs[0] == vs[0];
      assert EitherSide(field) ==> vs[1] == e.dstNamespace;
    }
  }

  /** A field predicate is right as soon as its matcher is right on every value. */
  lemma ViaField(lib: Library, field: string, op: Relation, want: string, matcher: string -> bool, e: Entry)
    requires op != Ne && Meaningful(lib, op, want)
    requires forall actual :: matcher(actual) == Test(lib, op, want, actual)
    ensures BuildFieldPredicate(lib, field, matcher).Some? <==> Known(lib, field)
    ensures Known(lib, field) ==> BuildFieldPredicate(lib, field, matcher).value(e) == Holds(lib, field, op, want, e)
  {
    FieldPredicateMeans(lib, field, matcher, e);
  }

  lemma EitherSideMeans(lib: Library, field: string, op: Relation, want: string, e: Entry)
    requires EitherSide(field) && op != Matches && op != StartsWith
    ensures CompileEitherSide(lib, op, want).Some? <==> ComparisonOk(lib, field, op, want)
    ensures ComparisonOk(lib, field, op, want) ==>
              CompileEitherSide(lib, op, want).value(e) == Holds(lib, field, op, want, e)
  {
    var base := if op == Ne then Eq else op;
    ValueMatcherMeans(lib, base, want, e.srcNamespace);
    ValueMatcherMeans(lib, base, want, e.dstNamespace);
    var vs := ValuesOf(lib, field, e);
    assert vs[0] == e.srcNamespace && vs[1] == e.dstNamespace;
  }

  lemma OneValueMeans(lib: Library, field: string, op: Relation, want: string, e: Entry)
    requires !EitherSide(field) && lib.fields(field).Some? && Meaningful(lib, op, want)
    ensures Holds(lib, field, op, want, e) == Test(lib, op, want, lib.fields(field).value(e))
  {
    var vs := ValuesOf(lib, field, e);
    assert |vs| == 1 && vs[0] == lib.fields(field).value(e);
  }

  lemma PlainFieldMeans(lib: Library, field: string, op: Relation, want: string, e: Entry)
    requires Sound(lib) && !EitherSide(field) && op != Matches && op != StartsWith
    ensures CompileComparison(lib, field, op, want).Some? <==> ComparisonOk(lib, field, op, want)
    ensures ComparisonOk(lib, field, op, want) ==>
              CompileComparison(lib, field, op, want).value(e) == Holds(lib, field, op, want, e)
  {
    var g := lib.fields(field);
    if g.Some? {
      ValueMatcherMeans(lib, op, want, g.value(e));
      if Meaningful(lib, op, want) { OneValueMeans(lib, field, op, want, e); }
      if lib.numericFields(field).Some? && Relational(op) { TypedPathAgrees(lib, field, op, want, e); }
    }
  }

  /** A comparison compiles exactly when its field is known and its literal makes
      sense, and the compiled predicate is the direct reading. */
  lemma ComparisonMeans(lib: Library, field: string, op: Relation, want: string, e: Entry)
    requires Sound(lib)
    ensures CompileComparison(lib, field, op, want).Some? <==> ComparisonOk(lib, field, op, want)
    ensures ComparisonOk(lib, field, op, want) ==>
              CompileComparison(lib, field, op, want).value(e) == Holds(lib, field, op, want, e)
  {
    if op == Matches {
      if Meaningful(lib, op, want) { ViaField(lib, field, op, want, lib.regex(want).value, e); }
    } else if op == StartsWith {
      var matcher := (actual: string) => |actual| >= |want| && EqualFold(actual[..|want|], want);
      forall actual ensures matcher(actual) == Test(lib, op, want, actual) { PrefixFold(actual, want); }
      ViaField(lib, field, op, want, matcher, e);
    } else if EitherSide(field) {
      EitherSideMeans(lib, field, op, want, e);
    } else {
      PlainFieldMeans(lib, field, op, want, e);
    }
  }

  lemma InMeans(lib: Library, field: string, values: seq<string>, e: Entry)
    ensures CompileIn(lib, field, values).Some? <==> Known(lib, field)
    ensures Known(lib, field) ==> CompileIn(lib, field, values).value(e) == HoldsIn(lib, field, values, e)
  {
    FieldPredicateMeans(lib, field, actual => OneOf(values, actual), e);
  }

  /** So an ordering test on a numeric field compares the numbers themselves, and
      never selects an entry that has no such number. */
  lemma OrderingSelects(lib: Library, field: string, want: string, n: real, e: Entry)
    requires Sound(lib) && !OnNamespace(field) && lib.numericFields(field).Some? && lib.num(want) == Some(n)
    ensures var v := lib.numericFields(field).value(e);
            && Chosen(lib, field, Gt, want, e) == (v.Some? && v.value as real > n)
            && Chosen(lib, field, Lt, want, e) == (v.Some? && v.value as real < n)
            && Chosen(lib, field, Ge, want, e) == (v.Some? && v.value as real >= n)
            && Chosen(lib, field, Le, want, e) == (v.Some? && v.value as real <= n)
  {
    assert BothRead(lib, field, e);
  }

  predicate Chosen(lib: Library, field: string, op: Relation, want: string, e: Entry) {
    CompileComparison(lib, field, op, want).Some? && CompileComparison(lib, field, op, want).value(e)
  }
}
