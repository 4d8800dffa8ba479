/** Default simulator objects generated from the active bundle, against the runtime's parser and
    constraint check. */
module SimulatorDefaults {
  import opened Text
  import opened Lists
  import opened MibMetadata
  import opened NotificationReplay

  datatype NodeType = Scalar | Column | OtherNode

  datatype Node = Node(
    name: string,
    nodeType: NodeType,
    accessible: bool,
    current: bool,
    oid: Oid,
    module_: string,
    syntax: string,
    constraints: Option<Constraint>,
    enums: seq<(string, int)>)

  /** A textual convention: the module it was found in, its base type ("" if none), its constraints. */
  datatype TypeRecord = TypeRecord(module_: string, baseType: string, constraints: Option<Constraint>)

  type TypeKey = (string, string)

  /** What the bundle's type lookup answers. */
  type Types = map<TypeKey, TypeRecord>

  const COUNTERS: set<string> := {"Counter", "Counter32", "Counter64"}
  const GAUGES: set<string> := {"Gauge32", "Gauge", "Unsigned32"}
  const TIMETICKS: set<string> := {"TimeTicks", "TimeStamp", "TimeTicks32"}
  const INTEGERS: set<string> := {"Integer32", "INTEGER", "Integer", "TruthValue"}
  const OIDS: set<string> := {"OBJECT IDENTIFIER", "AutonomousType", "ObjectIdentifier"}
  const ADDRESSES: set<string> := {"IpAddress", "InetAddress", "IpV4orV6Addr"}
  const STRINGS: set<string> :=
    {"OCTET STRING", "OctetString", "DisplayString", "SnmpAdminString", "DateAndTime", "PhysAddress", "MacAddress"}
  const WIRE_SYNTAXES: set<string> :=
    COUNTERS + GAUGES + TIMETICKS + INTEGERS + OIDS + {"IpAddress", "OCTET STRING", "OctetString", "BITS", "Opaque"}
  const TABLE_ROWS: nat := 2

  /* ---- node metadata ---- */

  function EffectiveConstraints(node: Node, types: Types): Option<Constraint> {
    if node.constraints.Some? then node.constraints
    else if node.syntax != [] && node.module_ != [] && (node.module_, node.syntax) in types then
      types[(node.module_, node.syntax)].constraints
    else None
  }

  predicate IsBitsNode(node: Node, types: Types) {
    node.syntax == "BITS"
    || EffectiveConstraints(node, types) == Some(Bits)
    || (node.syntax != [] && node.module_ != [] && (node.module_, node.syntax) in types
        && types[(node.module_, node.syntax)].baseType == "BITS")
  }

  function LastValue(labels: seq<(string, int)>, key: string): Option<int> {
    if labels == [] then None
    else if labels[|labels| - 1].0 == key then Some(labels[|labels| - 1].1)
    else LastValue(labels[..|labels| - 1], key)
  }

  function DropBlankLabels(labels: seq<(string, int)>): seq<(string, int)> {
    if labels == [] then []
    else (if Strip(labels[0].0) == [] then [] else [labels[0]]) + DropBlankLabels(labels[1..])
  }

  /** The first value of the label map: the first label, with the value assigned to it last. */
  function FirstEnumValue(node: Node): Option<int> {
    var labels :=
      if node.enums != [] then node.enums
      else match node.constraints
        case Some(Enumeration(ls)) => DropBlankLabels(ls)
        case _ => [];
    if labels == [] then None else LastValue(labels, labels[0].0)
  }

  /** A node's own constraints come before those of its declared type. */
  lemma OwnConstraintsFirst(node: Node, types: Types, record: TypeRecord)
    requires node.syntax != [] && node.module_ != [] && (node.module_, node.syntax) in types
    requires types[(node.module_, node.syntax)] == record
    ensures node.constraints.Some? ==> EffectiveConstraints(node, types) == node.constraints
    ensures node.constraints.None? ==> EffectiveConstraints(node, types) == record.constraints
    ensures record.baseType == "BITS" || node.syntax == "BITS" ==> IsBitsNode(node, types)
  {}

  lemma {:induction false} LastOfDistinct(labels: seq<(string, int)>, k: nat)
    requires k < |labels| && forall i, j | 0 <= i < j < |labels| :: labels[i].0 != labels[j].0
    ensures LastValue(labels, labels[k].0) == Some(labels[k].1)
  {
    if k < |labels| - 1 {
      LastOfDistinct(labels[..|labels| - 1], k);
    }
  }

  /** With distinct labels the value is that of the first label. */
  lemma FirstLabelCounts(node: Node)
    requires node.enums != [] && forall i, j | 0 <= i < j < |node.enums| :: node.enums[i].0 != node.enums[j].0
    ensures FirstEnumValue(node) == Some(node.enums[0].1)
  {
    LastOfDistinct(node.enums, 0);
  }

  /* ---- resolving textual conventions ---- */

  function BeforeParen(s: string): string {
    if s == [] || s[0] == '(' then [] else [s[0]] + BeforeParen(s[1..])
  }

  function BaseSyntax(s: string): string {
    Strip(BeforeParen(s))
  }

  /** One step of the chase: none from a wire syntax, an unknown name or a record without base. */
  function NextType(types: Types, wires: set<string>, at: TypeKey): Option<TypeKey> {
    if at.0 == [] || at.1 in wires || at !in types || types[at].baseType == [] then None
    else Some((types[at].module_, BaseSyntax(types[at].baseType)))
  }

  /** A walk along the aliases from start, without repeating a name before its end. */
  ghost predicate AliasWalk(types: Types, wires: set<string>, walk: seq<TypeKey>, start: TypeKey) {
    && walk != [] && walk[0] == start
    && (forall k | 0 <= k < |walk| - 1 :: NextType(types, wires, walk[k]) == Some(walk[k + 1]))
    && (forall i, j | 0 <= i < j < |walk| - 1 :: walk[i] != walk[j])
  }

  ghost predicate WalkEndsAt(types: Types, wires: set<string>, walk: seq<TypeKey>, start: TypeKey, wire: string) {
    && AliasWalk(types, wires, walk, start)
    && walk[|walk| - 1].1 == wire
    && (NextType(types, wires, walk[|walk| - 1]) == None || walk[|walk| - 1] in walk[..|walk| - 1])
  }

  /** The wire syntax is where the aliases end, or where they first repeat. */
  ghost predicate ResolvesTo(types: Types, start: TypeKey, wire: string) {
    exists walk :: WalkEndsAt(types, WIRE_SYNTAXES, walk, start, wire)
  }

  function Visited(walk: seq<TypeKey>): set<TypeKey> {
    set k | k in walk
  }

  method Chase(types: Types, wires: set<string>, start: TypeKey) returns (wire: string)
    ensures exists walk :: WalkEndsAt(types, wires, walk, start, wire)
  {
    var at := start;
    var seen: set<TypeKey> := {};
    ghost var walk := [at];
    while at.0 != [] && at.1 !in wires && at !in seen
      invariant AliasWalk(types, wires, walk, start) && walk[|walk| - 1] == at
      invariant seen == Visited(walk[..|walk| - 1])
      invariant seen <= types.Keys
      decreases types.Keys - seen
    {
      if at !in types || types[at].baseType == [] {
        break;
      }
      ghost var before := walk;
      seen := seen + {at};
      at := (types[at].module_, BaseSyntax(types[at].baseType));
      walk := walk + [at];
      assert walk[..|walk| - 1] == before;
      assert before == before[..|before| - 1] + [before[|before| - 1]];
    }
    wire := at.1;
    assert WalkEndsAt(types, wires, walk, start, wire);
  }

  method ChaseSyntax(types: Types, module_: string, syntax: string) returns (wire: string)
    ensures ResolvesTo(types, (module_, syntax), wire)
  {
    wire := Chase(types, WIRE_SYNTAXES, (module_, syntax));
  }

  lemma {:induction false} WalksAgree(types: Types, wires: set<string>, start: TypeKey, v: seq<TypeKey>, w: seq<TypeKey>, k: nat)
    requires AliasWalk(types, wires, v, start) && AliasWalk(types, wires, w, start) && k < |v| <= |w|
    ensures v[k] == w[k]
    ensures forall i | 0 <= i <= k :: v[i] == w[i]
  {
    if k > 0 {
      WalksAgree(types, wires, start, v, w, k - 1);
      assert NextType(types, wires, v[k - 1]) == Some(v[k]) && NextType(types, wires, w[k - 1]) == Some(w[k]);
    }
  }

  lemma WalkDoesNotRepeat(types: Types, wires: set<string>, start: TypeKey, w: seq<TypeKey>, n: nat)
    requires AliasWalk(types, wires, w, start) && n < |w| - 1
    ensures w[n] !in w[..n] && NextType(types, wires, w[n]) != None
  {
    assert NextType(types, wires, w[n]) == Some(w[n + 1]);
  }

  /** A walk that has ended cannot be continued. */
  lemma WalkIsLongest(types: Types, wires: set<string>, start: TypeKey, v: seq<TypeKey>, wire: string, w: seq<TypeKey>)
    requires WalkEndsAt(types, wires, v, start, wire) && AliasWalk(types, wires, w, start)
    ensures |w| <= |v|
  {
    if |v| < |w| {
      var n := |v| - 1;
      WalksAgree(types, wires, start, v, w, n);
      WalkDoesNotRepeat(types, wires, start, w, n);
    }
  }

  lemma WalksEndAlike(
      types: Types, wires: set<string>, start: TypeKey, v: seq<TypeKey>, a: string, w: seq<TypeKey>, b: string)
    requires WalkEndsAt(types, wires, v, start, a) && WalkEndsAt(types, wires, w, start, b)
    ensures a == b
  {
    WalkIsLongest(types, wires, start, v, a, w);
    WalkIsLongest(types, wires, start, w, b, v);
    WalksAgree(types, wires, start, v, w, |v| - 1);
  }

  /** Every chain of aliases, cyclic or not, resolves to exactly one wire syntax. */
  lemma ResolutionIsUnique(types: Types, start: TypeKey, a: string, b: string)
    requires ResolvesTo(types, start, a) && ResolvesTo(types, start, b)
    ensures a == b
  {
    var v :| WalkEndsAt(types, WIRE_SYNTAXES, v, start, a);
    var w :| WalkEndsAt(types, WIRE_SYNTAXES, w, start, b);
    WalksEndAlike(types, WIRE_SYNTAXES, start, v, a, w, b);
  }

  /* ---- the default of one object ---- */

  datatype NumberKind = IntegerNumber | Counter32Number | Counter64Number | Gauge32Number | TimeTicksNumber

  datatype Default =
    | Number(kind: NumberKind, n: int)
    | TextOctets(text: string)
    | HexOctets(octets: seq<Byte>)
    | OidDefault
    | AddressDefault(index: nat)
    | OpaqueDefault(index: nat)

  /** The families of wire syntaxes the generator tells apart. */
  datatype WireClass =
    | BitsClass | CounterClass(wide: bool) | GaugeClass | TicksClass | OidClass | AddressClass | OpaqueClass
    | IntegerClass | StringClass | OtherClass

  function ClassOf(wire: string): WireClass {
    if wire == "BITS" then BitsClass
    else if wire in COUNTERS then CounterClass(wire == "Counter64")
    else if wire in GAUGES then GaugeClass
    else if wire in TIMETICKS then TicksClass
    else if wire in OIDS then OidClass
    else if wire in ADDRESSES then AddressClass
    else if wire == "Opaque" then OpaqueClass
    else if wire in INTEGERS then IntegerClass
    else if wire in STRINGS || wire == [] then StringClass
    else OtherClass
  }

  function NumberKindOf(k: WireClass): NumberKind {
    match k
    case CounterClass(wide) => if wide then Counter64Number else Counter32Number
    case GaugeClass => Gauge32Number
    case TicksClass => TimeTicksNumber
    case _ => IntegerNumber
  }

  /** Where a value is drawn: bounds that reach zero are cut to their non-negative part. */
  function DrawRange(bounds: (int, int)): (int, int) {
    (if bounds.1 >= 0 && bounds.0 < 0 then 0 else bounds.0, bounds.1)
  }

  function UnboundedRange(k: WireClass): (int, int) {
    match k
    case CounterClass(_) => (1000, 999999)
    case GaugeClass => (1, 1000000000)
    case TicksClass => (0, 5000000)
    case _ => (1, 100)
  }

  function Bounds(c: Option<Constraint>, kind: BoundsKind): seq<(int, int)> {
    if c.Some? then BoundsForKind(c.value, kind) else []
  }

  /** Python's s[:k]. */
  function TakeUpTo<T>(s: seq<T>, k: int): seq<T> {
    if k >= |s| then s else if k >= 0 then s[..k] else if -k <= |s| then s[..|s| + k] else []
  }

  function Repeat<T>(x: T, n: int): (s: seq<T>)
    ensures |s| == if n > 0 then n else 0
  {
    seq(if n > 0 then n else 0, _ => x)
  }

  function ClampString(value: string, c: Option<Constraint>): string {
    var bounds := Bounds(c, SizeBounds);
    if bounds == [] then value
    else if |value| > bounds[0].1 then TakeUpTo(value, bounds[0].1)
    else if |value| < bounds[0].0 then TakeUpTo(value + Repeat('x', bounds[0].0), bounds[0].0)
    else value
  }

  function PadTo(octets: seq<Byte>, n: int): seq<Byte> {
    octets + Repeat(0, n - |octets|)
  }

  function ClampMac(octets: seq<Byte>, c: Option<Constraint>): seq<Byte> {
    var bounds := Bounds(c, SizeBounds);
    if bounds == [] then octets
    else PadTo(if |octets| > bounds[0].1 then TakeUpTo(octets, bounds[0].1) else octets, bounds[0].0)
  }

  /** The length nearest to a text's own within two bounds. */
  function Nearest(n: nat, low: int, high: int): int {
    if n > high then high else if n < low then low else n
  }

  /** Clamping cuts to the upper bound or pads with x to the lower one, and keeps the rest. */
  lemma ClampStringContents(value: string, c: Constraint, low: int, high: int)
    requires BoundsForKind(c, SizeBounds) != [] && BoundsForKind(c, SizeBounds)[0] == (low, high)
    requires low <= high && 0 <= high
    ensures var r := ClampString(value, Some(c));
      |r| == Nearest(|value|, low, high) && forall i | 0 <= i < |r| :: r[i] == if i < |value| then value[i] else 'x'
  {}

  lemma ClampMacContents(octets: seq<Byte>, c: Constraint, low: int, high: int)
    requires BoundsForKind(c, SizeBounds) != [] && BoundsForKind(c, SizeBounds)[0] == (low, high)
    requires low <= high && 0 <= high
    ensures var r := ClampMac(octets, Some(c));
      |r| == Nearest(|octets|, low, high) && forall i | 0 <= i < |r| :: r[i] == if i < |octets| then octets[i] else 0
  {}

  method ClampMacToSize(octets: seq<Byte>, c: Option<Constraint>) returns (r: seq<Byte>)
    ensures r == ClampMac(octets, c)
  {
    var bounds := Bounds(c, SizeBounds);
    r := octets;
    if bounds == [] {
      return;
    }
    if |r| > bounds[0].1 {
      r := TakeUpTo(r, bounds[0].1);
    }
    ghost var cut := r;
    while |r| < bounds[0].0
      invariant cut <= r && r == cut + Repeat(0, |r| - |cut|)
      invariant |r| > |cut| ==> |r| <= bounds[0].0
    {
      r := r + [0];
    }
  }

  predicate Contains(s: string, sub: string) {
    exists i | 0 <= i <= |s| :: sub <= s[i..]
  }

  /** Strings, and objects without a syntax, that look like hardware addresses. */
  predicate LooksLikeMac(node: Node) {
    var low, declared := Lower(node.name), BaseSyntax(node.syntax);
    Contains(low, "phys") || Contains(low, "mac") || declared == "PhysAddress" || declared == "MacAddress"
  }

  ghost predicate OccursIn(sub: string, s: string) {
    exists front, back :: s == front + sub + back
  }

  lemma {:induction false} ContainsExactlyWhen(s: string, sub: string)
    ensures Contains(s, sub) <==> OccursIn(sub, s)
  {
    if Contains(s, sub) {
      var i :| 0 <= i <= |s| && sub <= s[i..];
      assert s == s[..i] + sub + s[i + |sub|..];
    }
    if OccursIn(sub, s) {
      var front, back :| s == front + sub + back;
      assert s[|front|..] == sub + back;
    }
  }

  lemma {:induction false} LooksLikeMacExactlyWhen(node: Node)
    ensures LooksLikeMac(node) <==>
      || OccursIn("phys", Lower(node.name)) || OccursIn("mac", Lower(node.name))
      || BaseSyntax(node.syntax) == "PhysAddress" || BaseSyntax(node.syntax) == "MacAddress"
  {
    ContainsExactlyWhen(Lower(node.name), "phys");
    ContainsExactlyWhen(Lower(node.name), "mac");
  }

  function InstanceName(node: Node, index: nat): string {
    node.name + "-" + NatToString(index)
  }

  predicate DrawnFrom(d: Default, kind: NumberKind, range: (int, int)) {
    d.Number? && d.kind == kind && range.0 <= d.n <= range.1
  }

  /** Where a default comes from: one value, or a draw. */
  datatype Origin = Fixed(value: Default) | Drawn(kind: NumberKind, range: (int, int))

  function OriginOf(node: Node, types: Types, k: WireClass, index: nat): Origin
    requires index < 256
  {
    var c := EffectiveConstraints(node, types);
    var bounds := Bounds(c, RangeBounds);
    if k == BitsClass || IsBitsNode(node, types) then Fixed(TextOctets(""))
    else if FirstEnumValue(node).Some? then Fixed(Number(IntegerNumber, FirstEnumValue(node).value))
    else if bounds != [] then Drawn(NumberKindOf(k), DrawRange(bounds[0]))
    else
      match k
      case OidClass => Fixed(OidDefault)
      case AddressClass => Fixed(AddressDefault(index))
      case OpaqueClass => Fixed(OpaqueDefault(index))
      case StringClass =>
        if LooksLikeMac(node) then Fixed(HexOctets(ClampMac([0x00, 0x11, 0x22, 0x33, 0x44, index], c)))
        else Fixed(TextOctets(ClampString(InstanceName(node, index), c)))
      case _ => Drawn(NumberKindOf(k), UnboundedRange(k))
  }

  /** The defaults that may be generated for a node whose syntax resolved to a class. */
  predicate PossibleDefault(d: Default, node: Node, types: Types, k: WireClass, index: nat)
    requires index < 256
  {
    match OriginOf(node, types, k, index)
    case Fixed(value) => d == value
    case Drawn(kind, range) => DrawnFrom(d, kind, range)
  }

  method RandInt(range: (int, int)) returns (r: Result<int>)
    ensures r.Ok? <==> range.0 <= range.1
    ensures r.Ok? ==> range.0 <= r.value <= range.1
  {
    if range.0 > range.1 {
      return Err("empty range for randrange()");
    }
    var v: int :| range.0 <= v <= range.1;
    r := Ok(v);
  }

  method DrawNumber(kind: NumberKind, range: (int, int)) returns (r: Result<Default>)
    ensures r.Ok? <==> range.0 <= range.1
    ensures r.Ok? ==> DrawnFrom(r.value, kind, range)
  {
    var v := RandInt(range);
    r := match v case Ok(n) => Ok(Number(kind, n)) case Err(e) => Err(e);
  }

  /** The syntaxes and labels that leave the constraint to the draw or the clamp. */
  predicate LooksAtConstraint(node: Node, types: Types, k: WireClass) {
    k != BitsClass && !IsBitsNode(node, types) && FirstEnumValue(node).None?
  }

  /** The first declared range is drawn from, and has no value. */
  predicate EmptyDraw(node: Node, types: Types, k: WireClass) {
    var bounds := Bounds(EffectiveConstraints(node, types), RangeBounds);
    LooksAtConstraint(node, types, k) && bounds != [] && DrawRange(bounds[0]).0 > DrawRange(bounds[0]).1
  }

  method DefaultForClass(node: Node, types: Types, k: WireClass, index: nat) returns (r: Result<Default>)
    requires index < 256
    ensures r.Ok? ==> PossibleDefault(r.value, node, types, k, index)
    ensures r.Err? <==> EmptyDraw(node, types, k)
  {
    var c := EffectiveConstraints(node, types);
    if k == BitsClass || IsBitsNode(node, types) {
      return Ok(TextOctets(""));
    }
    var first := FirstEnumValue(node);
    if first.Some? {
      return Ok(Number(IntegerNumber, first.value));
    }
    var bounds := Bounds(c, RangeBounds);
    if bounds != [] {
      r := DrawNumber(NumberKindOf(k), DrawRange(bounds[0]));
      return;
    }
    match k {
      case OidClass =>
        r := Ok(OidDefault);
      case AddressClass =>
        r := Ok(AddressDefault(index));
      case OpaqueClass =>
        r := Ok(OpaqueDefault(index));
      case StringClass =>
        if LooksLikeMac(node) {
          var octets := ClampMacToSize([0x00, 0x11, 0x22, 0x33, 0x44, index], c);
          return Ok(HexOctets(octets));
        }
        r := Ok(TextOctets(ClampString(InstanceName(node, index), c)));
      case _ =>
        r := DrawNumber(NumberKindOf(k), UnboundedRange(k));
    }
  }

  /* ---- the payload of a default, syntax by syntax ---- */

  predicate IsCounterSyntax(wire: string) {
    wire == "Counter" || wire == "Counter32" || wire == "Counter64"
  }

  predicate IsGaugeSyntax(wire: string) {
    wire == "Gauge32" || wire == "Gauge" || wire == "Unsigned32"
  }

  predicate IsTicksSyntax(wire: string) {
    wire == "TimeTicks" || wire == "TimeStamp" || wire == "TimeTicks32"
  }

  predicate IsOidSyntax(wire: string) {
    wire == "OBJECT IDENTIFIER" || wire == "AutonomousType" || wire == "ObjectIdentifier"
  }

  predicate IsAddressSyntax(wire: string) {
    wire == "IpAddress" || wire == "InetAddress" || wire == "IpV4orV6Addr"
  }

  predicate IsIntegerSyntax(wire: string) {
    wire == "Integer32" || wire == "INTEGER" || wire == "Integer" || wire == "TruthValue"
  }

  predicate IsStringSyntax(wire: string) {
    || wire == "OCTET STRING" || wire == "OctetString" || wire == "DisplayString" || wire == "SnmpAdminString"
    || wire == "DateAndTime" || wire == "PhysAddress" || wire == "MacAddress" || wire == ""
  }

  lemma FamiliesOfSyntaxes(s: string)
    ensures s in COUNTERS <==> IsCounterSyntax(s)
    ensures s in GAUGES <==> IsGaugeSyntax(s)
    ensures s in TIMETICKS <==> IsTicksSyntax(s)
    ensures s in INTEGERS <==> IsIntegerSyntax(s)
    ensures s in OIDS <==> IsOidSyntax(s)
  {}

  /** The syntaxes at which a chain of aliases ends. */
  lemma WireSyntaxes(s: string)
    ensures s in WIRE_SYNTAXES <==>
      || IsCounterSyntax(s) || IsGaugeSyntax(s) || IsTicksSyntax(s) || IsIntegerSyntax(s) || IsOidSyntax(s)
      || s == "IpAddress" || s == "OCTET STRING" || s == "OctetString" || s == "BITS" || s == "Opaque"
  {
    FamiliesOfSyntaxes(s);
  }

  /** The SNMP type of a default: a declared range makes everything but the unsigned types an integer. */
  function TypeOfWire(wire: string, ranged: bool): string {
    if wire == "Counter64" then "counter64"
    else if IsCounterSyntax(wire) then "counter32"
    else if IsGaugeSyntax(wire) then "gauge32"
    else if IsTicksSyntax(wire) then "timeticks"
    else if ranged then "integer"
    else if IsOidSyntax(wire) then "object-identifier"
    else if IsAddressSyntax(wire) then "ip-address"
    else if wire == "Opaque" then "opaque"
    else if !IsIntegerSyntax(wire) && IsStringSyntax(wire) then "octet-string"
    else "integer"
  }

  /** Where the number of a type is drawn from when no range is declared. */
  function UnrangedDraw(kind: string): (int, int) {
    if kind == "counter64" || kind == "counter32" then (1000, 999999)
    else if kind == "gauge32" then (1, 1000000000)
    else if kind == "timeticks" then (0, 5000000)
    else (1, 100)
  }

  predicate IsNumberType(kind: string) {
    kind == "counter64" || kind == "counter32" || kind == "gauge32" || kind == "timeticks" || kind == "integer"
  }

  /** BITS and labelled integers come first: their payload has no draw and no clamp. */
  predicate IsOrdinary(node: Node, types: Types, wire: string) {
    wire != "BITS" && !IsBitsNode(node, types) && FirstEnumValue(node).None?
  }

  /** Within the first declared range, at zero or above if that reaches it; else within the draw of
      the type. */
  predicate NumberFits(n: int, ranges: seq<(int, int)>, kind: string) {
    if ranges == [] then UnrangedDraw(kind).0 <= n <= UnrangedDraw(kind).1
    else ranges[0].0 <= n <= ranges[0].1 && (ranges[0].1 >= 0 ==> n >= 0)
  }

  function NumberValue(kind: NumberKind, n: nat): Value {
    match kind
    case IntegerNumber => Integer(n)
    case Counter32Number => Counter32(n)
    case Counter64Number => Counter64(n)
    case Gauge32Number => Gauge32(n)
    case TimeTicksNumber => TimeTicks(n)
  }

  function NumberSpec(v: Value, n: int): map<string, Json> {
    map["type" := JStr(TypeName(v)), "value" := JInt(n)]
  }

  const DEFAULT_OID: Oid := [1, 3, 6, 1, 2, 1, 1]

  function OpaqueOctets(index: nat): seq<Byte>
    requires index < 256
  {
    [0, 0, 0, 0, 0, 0, 0, index]
  }

  /** The value payload handed to the runtime. */
  function ValueSpec(d: Default): map<string, Json>
    requires d.OpaqueDefault? ==> d.index < 256
  {
    match d
    case Number(kind, n) => NumberSpec(NumberValue(kind, 0), n)
    case TextOctets(text) => map["type" := JStr("octet-string"), "value" := JStr(text)]
    case HexOctets(octets) => map["type" := JStr("octet-string"), "value" := JStr(ToHex(octets)), "encoding" := JStr("hex")]
    case OidDefault => map["type" := JStr("object-identifier"), "value" := JStr(OidToStr(DEFAULT_OID))]
    case AddressDefault(index) => map["type" := JStr("ip-address"), "value" := JStr("127.0.0." + NatToString(index))]
    case OpaqueDefault(index) =>
      map["type" := JStr("opaque"), "value" := JStr(ToHex(OpaqueOctets(index))), "encoding" := JStr("hex")]
  }

  /** The value that the payload of an ordinary default holds. */
  predicate HoldsValue(d: Default, kind: string, node: Node, types: Types, index: nat)
    requires index < 256 && (d.OpaqueDefault? ==> d.index < 256)
  {
    var value, c := Get(ValueSpec(d), "value"), EffectiveConstraints(node, types);
    match d
    case Number(_, n) => value == JInt(n) && NumberFits(n, Bounds(c, RangeBounds), kind)
    case TextOctets(_) =>
      !LooksLikeMac(node) && value == JStr(ClampString(node.name + "-" + NatToString(index), c))
    case HexOctets(_) =>
      LooksLikeMac(node) && value.JStr? && FromHex(value.s) == Some(ClampMac([0x00, 0x11, 0x22, 0x33, 0x44, index], c))
    case OidDefault => value.JStr? && ParseNumericOid(value.s) == Ok([1, 3, 6, 1, 2, 1, 1])
    case AddressDefault(_) => value == JStr("127.0.0." + NatToString(index))
    case OpaqueDefault(_) => value.JStr? && FromHex(value.s) == Some([0, 0, 0, 0, 0, 0, 0, index])
  }

  /** The type and the value of the payload that a default makes, from the resolved syntax. */
  predicate ServedAs(d: Default, node: Node, types: Types, wire: string, index: nat)
    requires index < 256
  {
    && (d.OpaqueDefault? ==> d.index < 256)
    && var spec := ValueSpec(d);
      var kind := TypeOfWire(wire, Bounds(EffectiveConstraints(node, types), RangeBounds) != []);
      if wire == "BITS" || IsBitsNode(node, types) then spec == map["type" := JStr("octet-string"), "value" := JStr("")]
      else if FirstEnumValue(node).Some? then
        spec == map["type" := JStr("integer"), "value" := JInt(FirstEnumValue(node).value)]
      else Get(spec, "type") == JStr(kind) && HoldsValue(d, kind, node, types, index)
  }

  lemma UnsignedTypeNames(k: WireClass, wire: string, ranged: bool)
    requires k == ClassOf(wire) && (k.CounterClass? || k.GaugeClass? || k.TicksClass?)
    ensures TypeName(NumberValue(NumberKindOf(k), 0)) == TypeOfWire(wire, ranged)
  {}

  lemma IntegerTypeNames(k: WireClass, wire: string, ranged: bool)
    requires k == ClassOf(wire) && wire != "BITS" && !k.CounterClass? && !k.GaugeClass? && !k.TicksClass?
    requires ranged || k.IntegerClass? || k.OtherClass?
    ensures TypeName(NumberValue(NumberKindOf(k), 0)) == TypeOfWire(wire, ranged) == "integer"
  {}

  lemma NumberTypeNames(k: WireClass, wire: string, ranged: bool)
    requires k == ClassOf(wire) && wire != "BITS"
    requires ranged || k.CounterClass? || k.GaugeClass? || k.TicksClass? || k.IntegerClass? || k.OtherClass?
    ensures TypeName(NumberValue(NumberKindOf(k), 0)) == TypeOfWire(wire, ranged)
  {
    if k.CounterClass? || k.GaugeClass? || k.TicksClass? {
      UnsignedTypeNames(k, wire, ranged);
    } else {
      IntegerTypeNames(k, wire, ranged);
    }
  }

  lemma OtherTypeNames(k: WireClass, wire: string)
    requires k == ClassOf(wire)
    ensures k.OidClass? ==> TypeOfWire(wire, false) == "object-identifier"
    ensures k.AddressClass? ==> TypeOfWire(wire, false) == "ip-address"
    ensures k.OpaqueClass? ==> TypeOfWire(wire, false) == "opaque"
    ensures k.StringClass? ==> TypeOfWire(wire, false) == "octet-string"
  {}

  lemma NumberHoldsValue(d: Default, kind: string, node: Node, types: Types, k: WireClass, index: nat)
    requires index < 256 && PossibleDefault(d, node, types, k, index) && OriginOf(node, types, k, index).Drawn?
    requires kind == TypeName(NumberValue(NumberKindOf(k), 0)) && LooksAtConstraint(node, types, k)
    ensures Get(ValueSpec(d), "type") == JStr(kind) && HoldsValue(d, kind, node, types, index)
  {}

  lemma OidHoldsValue(node: Node, types: Types, index: nat)
    requires index < 256
    ensures Get(ValueSpec(OidDefault), "type") == JStr("object-identifier")
    ensures HoldsValue(OidDefault, "object-identifier", node, types, index)
  {
    OidRoundTrip(DEFAULT_OID);
  }

  lemma AddressHoldsValue(node: Node, types: Types, index: nat)
    requires index < 256
    ensures Get(ValueSpec(AddressDefault(index)), "type") == JStr("ip-address")
    ensures HoldsValue(AddressDefault(index), "ip-address", node, types, index)
  {}

  lemma OpaqueHoldsValue(node: Node, types: Types, index: nat)
    requires index < 256
    ensures Get(ValueSpec(OpaqueDefault(index)), "type") == JStr("opaque")
    ensures HoldsValue(OpaqueDefault(index), "opaque", node, types, index)
  {
    HexRoundTrip(OpaqueOctets(index));
  }

  lemma TextHoldsValue(d: Default, node: Node, types: Types, index: nat)
    requires index < 256 && LooksAtConstraint(node, types, StringClass)
    requires Bounds(EffectiveConstraints(node, types), RangeBounds) == []
    requires PossibleDefault(d, node, types, StringClass, index)
    ensures !d.OpaqueDefault? && Get(ValueSpec(d), "type") == JStr("octet-string")
    ensures HoldsValue(d, "octet-string", node, types, index)
  {
    if d.HexOctets? {
      HexRoundTrip(d.octets);
    }
  }

  lemma BitsIsItsOwnClass(wire: string)
    ensures ClassOf(wire) == BitsClass <==> wire == "BITS"
  {}

  lemma SpecialIsServedAs(d: Default, node: Node, types: Types, wire: string, index: nat)
    requires index < 256 && PossibleDefault(d, node, types, ClassOf(wire), index) && !IsOrdinary(node, types, wire)
    ensures ServedAs(d, node, types, wire, index)
  {
    BitsIsItsOwnClass(wire);
  }

  lemma DrawnIsServedAs(d: Default, node: Node, types: Types, wire: string, index: nat)
    requires index < 256 && PossibleDefault(d, node, types, ClassOf(wire), index)
    requires IsOrdinary(node, types, wire) && OriginOf(node, types, ClassOf(wire), index).Drawn?
    ensures ServedAs(d, node, types, wire, index)
  {
    var ranged := Bounds(EffectiveConstraints(node, types), RangeBounds) != [];
    BitsIsItsOwnClass(wire);
    NumberTypeNames(ClassOf(wire), wire, ranged);
    NumberHoldsValue(d, TypeOfWire(wire, ranged), node, types, ClassOf(wire), index);
  }

  lemma FixedIsServedAs(d: Default, node: Node, types: Types, wire: string, index: nat)
    requires index < 256 && PossibleDefault(d, node, types, ClassOf(wire), index)
    requires IsOrdinary(node, types, wire) && OriginOf(node, types, ClassOf(wire), index).Fixed?
    ensures ServedAs(d, node, types, wire, index)
  {
    BitsIsItsOwnClass(wire);
    OtherTypeNames(ClassOf(wire), wire);
    match ClassOf(wire)
    case OidClass => OidHoldsValue(node, types, index);
    case AddressClass => AddressHoldsValue(node, types, index);
    case OpaqueClass => OpaqueHoldsValue(node, types, index);
    case _ => TextHoldsValue(d, node, types, index);
  }

  lemma DefaultIsServedAs(d: Default, node: Node, types: Types, wire: string, index: nat)
    requires index < 256 && PossibleDefault(d, node, types, ClassOf(wire), index)
    ensures ServedAs(d, node, types, wire, index)
  {
    if !IsOrdinary(node, types, wire) {
      SpecialIsServedAs(d, node, types, wire, index);
    } else if OriginOf(node, types, ClassOf(wire), index).Drawn? {
      DrawnIsServedAs(d, node, types, wire, index);
    } else {
      FixedIsServedAs(d, node, types, wire, index);
    }
  }

  /** Every number of the draw may be generated. */
  lemma EveryDrawIsPossible(n: int, node: Node, types: Types, wire: string, index: nat) returns (d: Default)
    requires index < 256 && IsOrdinary(node, types, wire)
    requires var ranges := Bounds(EffectiveConstraints(node, types), RangeBounds);
      var kind := TypeOfWire(wire, ranges != []);
      IsNumberType(kind) && NumberFits(n, ranges, kind)
    ensures PossibleDefault(d, node, types, ClassOf(wire), index)
    ensures !d.OpaqueDefault? && Get(ValueSpec(d), "value") == JInt(n)
  {
    var ranges, k := Bounds(EffectiveConstraints(node, types), RangeBounds), ClassOf(wire);
    BitsIsItsOwnClass(wire);
    OtherTypeNames(k, wire);
    NumberTypeNames(k, wire, ranges != []);
    d := Number(NumberKindOf(k), n);
  }

  method DefaultValueForSyntax(node: Node, types: Types, index: nat) returns (r: Result<Default>, wire: string)
    requires index < 256
    ensures ResolvesTo(types, (node.module_, BaseSyntax(node.syntax)), wire)
    ensures r.Ok? ==> PossibleDefault(r.value, node, types, ClassOf(wire), index)
    ensures r.Err? <==> EmptyDraw(node, types, ClassOf(wire))
    ensures r.Ok? ==> ServedAs(r.value, node, types, wire, index)
  {
    wire := ChaseSyntax(types, node.module_, BaseSyntax(node.syntax));
    r := DefaultForClass(node, types, ClassOf(wire), index);
    if r.Ok? {
      DefaultIsServedAs(r.value, node, types, wire, index);
    }
  }

  /* ---- what the runtime makes of a default ---- */

  /** What the validator looks at; other types are not checked. */
  function CandidateOf(v: Value): Option<Candidate> {
    match v
    case Integer(i) => Some(Num(i))
    case Counter32(n) => Some(Num(n))
    case Counter64(n) => Some(Num(n))
    case Gauge32(n) => Some(Num(n))
    case TimeTicks(n) => Some(Num(n))
    case OctetString(octets) => Some(Len(|octets|))
    case _ => None
  }

  /** The runtime accepts a value payload for a node: it parses, and the parsed value satisfies the
      effective constraints. */
  predicate RuntimeAccepts(spec: map<string, Json>, c: Option<Constraint>, lib: Library) {
    match ParseValueSpec(spec, lib)
    case Err(_) => false
    case Ok(v) => c.None? || CandidateOf(v).None? || !Violates(CandidateOf(v).value, c.value)
  }

  predicate Ascii(s: string) {
    forall i | 0 <= i < |s| :: s[i] < '\U{80}'
  }

  lemma {:induction false} Utf8OfAscii(s: string)
    requires Ascii(s)
    ensures |Utf8(s)| == |s|
  {
    if s != [] {
      Utf8OfAscii(s[1..]);
      assert s[0] < '\U{80}';
    }
  }

  /** The candidate the validator sees for a default, if it looks at it. */
  function DefaultCandidate(d: Default): Option<Candidate> {
    match d
    case Number(_, n) => Some(Num(n))
    case TextOctets(text) => Some(Len(|text|))
    case HexOctets(octets) => Some(Len(|octets|))
    case _ => None
  }

  predicate Parses(d: Default) {
    d.Number? && d.kind != IntegerNumber ==> d.n >= 0
  }

  predicate ParsesAsNumber(r: Result<Value>, signed: bool, n: int) {
    (r.Ok? <==> signed || n >= 0) && (r.Ok? ==> CandidateOf(r.value) == Some(Num(n)))
  }

  lemma NumberParse(v: Value, n: int, lib: Library)
    requires v.Integer? || v.Counter32? || v.Counter64? || v.Gauge32? || v.TimeTicks?
    ensures ParsesAsNumber(ParseValueSpec(NumberSpec(v, n), lib), v.Integer?, n)
  {
    TypeNameIsCanonical(v);
    PlainSpecParse(TypeName(v), JInt(n), lib);
    TypedNumber(v, n, lib);
    var r := ParseTyped(TypeName(v), JInt(n), None, lib);
    assert ParsesAsNumber(r, v.Integer?, n);
  }

  lemma TextParse(text: string, lib: Library)
    requires Ascii(text)
    ensures var r := ParseValueSpec(ValueSpec(TextOctets(text)), lib);
      r.Ok? && CandidateOf(r.value) == Some(Len(|text|))
  {
    TypeNameIsCanonical(OctetString([]));
    PlainSpecParse("octet-string", JStr(text), lib);
    Utf8OfAscii(text);
  }

  lemma ReplayedFormParse(d: Default, v: Value, lib: Library)
    requires d.OpaqueDefault? ==> d.index < 256
    requires Replayable(v) && ValueSpec(d) == ReplayedInput(v, lib)
    ensures ParseValueSpec(ValueSpec(d), lib) == Ok(v)
  {
    ReplayedInputParse(v, lib);
    TypedParse(v, lib);
  }

  lemma LocalAddressText(index: nat)
    ensures var s := "127.0.0." + NatToString(index); s != [] && Trimmed(s)
  {
    var digits := NatToString(index);
    assert digits[|digits| - 1] in digits;
  }

  /** The parser and the validator read a default as generated. */
  ghost predicate ReadsAsGenerated(d: Default, lib: Library)
    requires d.OpaqueDefault? ==> d.index < 256
  {
    var r := ParseValueSpec(ValueSpec(d), lib);
    (r.Ok? <==> Parses(d)) && (r.Ok? ==> CandidateOf(r.value) == DefaultCandidate(d))
  }

  lemma HexDefaultParse(octets: seq<Byte>, lib: Library)
    ensures ReadsAsGenerated(HexOctets(octets), lib)
  {
    ReplayedFormParse(HexOctets(octets), OctetString(octets), lib);
  }

  lemma OidDefaultParse(lib: Library)
    ensures ReadsAsGenerated(OidDefault, lib)
  {
    ReplayedFormParse(OidDefault, ObjectIdentifier(DEFAULT_OID), lib);
  }

  lemma AddressDefaultParse(index: nat, lib: Library)
    ensures ReadsAsGenerated(AddressDefault(index), lib)
  {
    LocalAddressText(index);
    ReplayedFormParse(AddressDefault(index), IpAddress("127.0.0." + NatToString(index)), lib);
  }

  lemma OpaqueDefaultParse(index: nat, lib: Library)
    requires index < 256
    ensures ReadsAsGenerated(OpaqueDefault(index), lib)
  {
    ReplayedFormParse(OpaqueDefault(index), Opaque(OpaqueOctets(index)), lib);
  }

  /** A default parses unless it is a negative value of an unsigned type, and the validator then
      sees the number drawn or the length generated. */
  lemma DefaultParse(d: Default, lib: Library)
    requires d.OpaqueDefault? ==> d.index < 256
    requires d.TextOctets? ==> Ascii(d.text)
    ensures ReadsAsGenerated(d, lib)
  {
    match d
    case Number(kind, n) => NumberParse(NumberValue(kind, 0), n, lib);
    case TextOctets(text) => TextParse(text, lib);
    case HexOctets(octets) => HexDefaultParse(octets, lib);
    case OidDefault => OidDefaultParse(lib);
    case AddressDefault(index) => AddressDefaultParse(index, lib);
    case OpaqueDefault(index) => OpaqueDefaultParse(index, lib);
  }

  /* ---- every default is accepted ---- */

  /** The constraint shows what it can reject of a kind, and the first size bound, if any, can be met. */
  predicate Shows(c: Constraint, kind: BoundsKind) {
    var sizes := BoundsForKind(c, SizeBounds);
    !Hides(c, kind) && (kind == SizeBounds && sizes != [] ==> sizes[0].0 <= sizes[0].1 && 0 <= sizes[0].1)
  }

  lemma ClampedStringFits(value: string, c: Constraint)
    requires Shows(c, SizeBounds)
    ensures !Violates(Len(|ClampString(value, Some(c))|), c)
  {
    if BoundsForKind(c, SizeBounds) == [] {
      OpenAcceptsAll(c, Len(|value|));
    } else {
      WithinBoundsIsAccepted(Len(|ClampString(value, Some(c))|), c, 0);
    }
  }

  lemma ClampKeepsAscii(value: string, c: Option<Constraint>)
    requires Ascii(value)
    ensures Ascii(ClampString(value, c))
  {}

  /** A constraint that hides sizes refuses the default of every instance of a node under some ASCII
      name. */
  lemma HiddenSizesRefuseSomeName(c: Constraint, node: Node) returns (name: string)
    requires Hides(c, SizeBounds)
    ensures Ascii(name)
    ensures forall index: nat :: Violates(Len(|ClampString(InstanceName(node.(name := name), index), Some(c))|), c)
  {
    var high := HasCeiling(c);
    name := Repeat('x', high);
    forall index: nat
      ensures Violates(Len(|ClampString(InstanceName(node.(name := name), index), Some(c))|), c)
    {
      var text := InstanceName(node.(name := name), index);
      AllBelowMore(c, high, |text|);
      ClosedRejectsLarge(c, Len(|text|));
    }
  }

  /** Beyond ASCII the clamp counts characters and the validator bytes: an accented one-letter name
      has three characters and four bytes. */
  lemma NonAsciiNameOverflows()
    ensures var c := Size([Pair(1, 3)]);
      var text := ClampString("\U{E9}-0", Some(c));
      Violates(Len(|Utf8(text)|), c)
  {
    var c := Size([Pair(1, 3)]);
    var text := "\U{E9}-0";
    assert [Pair(1, 3)][..0] == [];
    assert BoundsPairs([Pair(1, 3)]) == [(1, 3)];
    assert ClampString(text, Some(c)) == text;
    assert text[1..] == "-0" && Ascii("-0");
    Utf8OfAscii("-0");
    assert Utf8(text) == Utf8Char(text[0]) + Utf8("-0");
  }

  lemma ClampedMacFits(octets: seq<Byte>, c: Constraint)
    requires Shows(c, SizeBounds)
    ensures !Violates(Len(|ClampMac(octets, Some(c))|), c)
  {
    if BoundsForKind(c, SizeBounds) == [] {
      OpenAcceptsAll(c, Len(|octets|));
    } else {
      WithinBoundsIsAccepted(Len(|ClampMac(octets, Some(c))|), c, 0);
    }
  }

  /** The two cases in which the generator does not look at the constraint, and the one in which
      it draws from a range that its wire type cannot hold. */
  predicate GeneratorIsBlind(node: Node, types: Types, k: WireClass) {
    var c := EffectiveConstraints(node, types);
    if k == BitsClass || IsBitsNode(node, types) then c.Some? && Violates(Len(0), c.value)
    else if FirstEnumValue(node).Some? then c.Some? && Violates(Num(FirstEnumValue(node).value), c.value)
    else Bounds(c, RangeBounds) != [] && Bounds(c, RangeBounds)[0].1 < 0 && NumberKindOf(k) != IntegerNumber
  }

  /** If the generator leaves the value to the constraint, the constraint shows what it rejects. */
  predicate ShownTo(d: Default, node: Node, types: Types, k: WireClass) {
    var c := EffectiveConstraints(node, types);
    LooksAtConstraint(node, types, k) && c.Some? && DefaultCandidate(d).Some? ==>
      Shows(c.value, KindOf(DefaultCandidate(d).value))
  }

  /** The value is of its type, and the constraint allows what the validator looks at. */
  predicate Allowed(d: Default, c: Option<Constraint>) {
    Parses(d) && (c.Some? && DefaultCandidate(d).Some? ==> !Violates(DefaultCandidate(d).value, c.value))
  }

  /** Whatever constraint the runtime finds for the target, it accepts a default exactly when that
      constraint allows it. */
  lemma AcceptedMeansAllowed(d: Default, c: Option<Constraint>, lib: Library)
    requires d.OpaqueDefault? ==> d.index < 256
    requires d.TextOctets? ==> Ascii(d.text)
    ensures RuntimeAccepts(ValueSpec(d), c, lib) <==> Allowed(d, c)
  {
    DefaultParse(d, lib);
  }

  lemma CandidateIsAllowed(d: Default, node: Node, types: Types, k: WireClass, index: nat)
    requires index < 256 && PossibleDefault(d, node, types, k, index) && ShownTo(d, node, types, k)
    requires EffectiveConstraints(node, types).Some? && DefaultCandidate(d).Some? && LooksAtConstraint(node, types, k)
    ensures !Violates(DefaultCandidate(d).value, EffectiveConstraints(node, types).value)
  {
    var c := EffectiveConstraints(node, types).value;
    if d.Number? {
      if BoundsForKind(c, RangeBounds) == [] {
        OpenAcceptsAll(c, Num(d.n));
      } else {
        WithinBoundsIsAccepted(Num(d.n), c, 0);
      }
    } else if d.TextOctets? {
      ClampedStringFits(InstanceName(node, index), c);
    } else {
      ClampedMacFits([0x00, 0x11, 0x22, 0x33, 0x44, index], c);
    }
  }

  lemma SpecialIsAllowedExactlyWhen(d: Default, node: Node, types: Types, k: WireClass, index: nat)
    requires index < 256 && PossibleDefault(d, node, types, k, index) && !LooksAtConstraint(node, types, k)
    ensures Allowed(d, EffectiveConstraints(node, types)) <==> !GeneratorIsBlind(node, types, k)
  {}

  lemma OrdinaryParsesExactlyWhen(d: Default, node: Node, types: Types, k: WireClass, index: nat)
    requires index < 256 && PossibleDefault(d, node, types, k, index) && LooksAtConstraint(node, types, k)
    ensures Parses(d) <==> !GeneratorIsBlind(node, types, k)
  {}

  lemma AllowedExactlyWhen(d: Default, node: Node, types: Types, k: WireClass, index: nat)
    requires index < 256 && PossibleDefault(d, node, types, k, index) && ShownTo(d, node, types, k)
    ensures Allowed(d, EffectiveConstraints(node, types)) <==> !GeneratorIsBlind(node, types, k)
  {
    if LooksAtConstraint(node, types, k) {
      OrdinaryParsesExactlyWhen(d, node, types, k, index);
      if EffectiveConstraints(node, types).Some? && DefaultCandidate(d).Some? {
        CandidateIsAllowed(d, node, types, k, index);
      }
    } else {
      SpecialIsAllowedExactlyWhen(d, node, types, k, index);
    }
  }

  lemma DefaultTextIsAscii(d: Default, node: Node, types: Types, k: WireClass, index: nat)
    requires index < 256 && PossibleDefault(d, node, types, k, index)
    requires Ascii(node.name)
    ensures d.TextOctets? ==> Ascii(d.text)
  {
    var digits := NatToString(index);
    assert forall i | 0 <= i < |digits| :: digits[i] in digits;
    assert Ascii(InstanceName(node, index));
    ClampKeepsAscii(InstanceName(node, index), EffectiveConstraints(node, types));
  }

  /** With an ASCII name, and a constraint that hides nothing from the generator, a default passes
      the runtime's parser and constraint check exactly when the generator is not blind to the
      constraint. */
  lemma DefaultIsAcceptedExactlyWhen(d: Default, node: Node, types: Types, k: WireClass, index: nat, lib: Library)
    requires index < 256 && PossibleDefault(d, node, types, k, index)
    requires Ascii(node.name) && ShownTo(d, node, types, k)
    ensures RuntimeAccepts(ValueSpec(d), EffectiveConstraints(node, types), lib) <==>
      !GeneratorIsBlind(node, types, k)
  {
    DefaultTextIsAscii(d, node, types, k, index);
    AcceptedMeansAllowed(d, EffectiveConstraints(node, types), lib);
    AllowedExactlyWhen(d, node, types, k, index);
  }

  /* ---- the whole bundle ---- */

  datatype SimObject = SimObject(oid: Oid, value: Default)

  /** An instance to be served: row 0 of a scalar, rows 1 and 2 of a column. */
  datatype Slot = Slot(node: Node, index: nat)

  predicate Served(node: Node) {
    !node.nodeType.OtherNode? && node.accessible && node.current
  }

  function IndexRange(node: Node): (nat, nat) {
    if node.nodeType.Scalar? then (0, 1) else (1, TABLE_ROWS + 1)
  }

  function SlotsUpTo(node: Node, stop: nat): seq<Slot>
    requires IndexRange(node).0 <= stop
  {
    var start := IndexRange(node).0;
    seq(stop - start, i requires 0 <= i < stop - start => Slot(node, start + i))
  }

  lemma OneMoreSlot(node: Node, index: nat)
    requires IndexRange(node).0 <= index
    ensures SlotsUpTo(node, index + 1) == SlotsUpTo(node, index) + [Slot(node, index)]
  {}

  lemma SlotRow(node: Node)
    requires Served(node)
    ensures IndexRange(node).0 <= IndexRange(node).1 <= 3 && SlotsUpTo(node, IndexRange(node).0) == []
  {}

  function Slots(node: Node): seq<Slot> {
    if Served(node) then SlotsUpTo(node, IndexRange(node).1) else []
  }

  function SlotsOf(): Node -> seq<Slot> {
    (node: Node) => Slots(node)
  }

  function ExpectedSlots(nodes: seq<Node>): seq<Slot> {
    FlatMap(nodes, SlotsOf())
  }

  function SlotOid(slot: Slot): Oid {
    slot.node.oid + [slot.index]
  }

  /** The row number replaces the default of a numeric index column when its constraints allow it. */
  predicate TakesRowNumber(slot: Slot, types: Types) {
    var c := EffectiveConstraints(slot.node, types);
    && slot.index > 0 && Contains(Lower(slot.node.name), "index")
    && FirstEnumValue(slot.node).None? && !(c.Some? && Violates(Num(slot.index), c.value))
  }

  /** Only rows of columns have a number, the first as well as the second. */
  lemma {:induction false} TakesRowNumberExactlyWhen(slot: Slot, types: Types)
    requires slot in Slots(slot.node)
    ensures var c := EffectiveConstraints(slot.node, types);
      TakesRowNumber(slot, types) <==>
        && slot.node.nodeType.Column? && OccursIn("index", Lower(slot.node.name)) && FirstEnumValue(slot.node).None?
        && (c.None? || !Violates(Num(slot.index), c.value))
  {
    ContainsExactlyWhen(Lower(slot.node.name), "index");
  }

  function Numbered(drawn: Default, slot: Slot, types: Types): Default {
    if drawn.Number? && TakesRowNumber(slot, types) then Number(drawn.kind, slot.index) else drawn
  }

  ghost predicate DrawnFor(drawn: Default, slot: Slot, types: Types, wire: string) {
    && slot.index < 256
    && ResolvesTo(types, (slot.node.module_, BaseSyntax(slot.node.syntax)), wire)
    && PossibleDefault(drawn, slot.node, types, ClassOf(wire), slot.index)
  }

  /** The values that may be generated for a slot. */
  ghost predicate SlotValue(d: Default, slot: Slot, types: Types) {
    exists wire, drawn :: DrawnFor(drawn, slot, types, wire) && d == Numbered(drawn, slot, types)
  }

  /** Object by object, the list holds the slots' own instances and values. */
  ghost predicate Fills(objects: seq<SimObject>, slots: seq<Slot>, types: Types) {
    && |objects| == |slots|
    && forall k | 0 <= k < |slots| :: objects[k].oid == SlotOid(slots[k]) && SlotValue(objects[k].value, slots[k], types)
  }

  method InstanceObject(slot: Slot, types: Types) returns (r: Result<Default>)
    requires slot.index < 256
    ensures r.Ok? ==> SlotValue(r.value, slot, types)
    ensures r.Err? ==> exists wire ::
      && ResolvesTo(types, (slot.node.module_, BaseSyntax(slot.node.syntax)), wire)
      && EmptyDraw(slot.node, types, ClassOf(wire))
  {
    var wire;
    r, wire := DefaultValueForSyntax(slot.node, types, slot.index);
    if r.Ok? {
      assert DrawnFor(r.value, slot, types, wire);
      r := Ok(Numbered(r.value, slot, types));
    }
  }

  lemma OneMoreFilled(objects: seq<SimObject>, slots: seq<Slot>, o: SimObject, slot: Slot, types: Types)
    requires Fills(objects, slots, types) && o.oid == SlotOid(slot) && SlotValue(o.value, slot, types)
    ensures Fills(objects + [o], slots + [slot], types)
  {}

  lemma MoreFilled(a: seq<SimObject>, s: seq<Slot>, b: seq<SimObject>, t: seq<Slot>, types: Types)
    requires Fills(a, s, types) && Fills(b, t, types)
    ensures Fills(a + b, s + t, types)
  {}

  /** No wire syntax of the node makes it draw from an empty range. */
  ghost predicate Drawable(node: Node, types: Types) {
    forall wire | ResolvesTo(types, (node.module_, BaseSyntax(node.syntax)), wire) :: !EmptyDraw(node, types, ClassOf(wire))
  }

  method NodeObjects(node: Node, types: Types) returns (r: Result<seq<SimObject>>)
    requires Served(node)
    ensures r.Ok? ==> Fills(r.value, Slots(node), types)
    ensures Drawable(node, types) ==> r.Ok?
  {
    var (start, stop) := IndexRange(node);
    var objects: seq<SimObject> := [];
    SlotRow(node);
    for index := start to stop
      invariant Fills(objects, SlotsUpTo(node, index), types)
    {
      var slot := Slot(node, index);
      var value := InstanceObject(slot, types);
      if value.Err? {
        return Err(value.error);
      }
      var instance := SimObject(SlotOid(slot), value.value);
      OneMoreFilled(objects, SlotsUpTo(node, index), instance, slot, types);
      OneMoreSlot(node, index);
      objects := objects + [instance];
    }
    r := Ok(objects);
  }

  ghost predicate ValueServedAs(d: Default, slot: Slot, types: Types, wire: string)
    requires slot.index < 256 && (d.OpaqueDefault? ==> d.index < 256)
  {
    var kind := TypeOfWire(wire, Bounds(EffectiveConstraints(slot.node, types), RangeBounds) != []);
    if IsOrdinary(slot.node, types, wire) && IsNumberType(kind) && TakesRowNumber(slot, types) then
      ValueSpec(d) == map["type" := JStr(kind), "value" := JInt(slot.index)]
    else ServedAs(d, slot.node, types, wire, slot.index)
  }

  /** What an object of the list is: the instance of its slot, and its row number under the type of
      the syntax where that is taken, or else the default of the node. */
  ghost predicate ObjectServedAs(o: SimObject, slot: Slot, types: Types) {
    && slot.index < 256 && o.oid == slot.node.oid + [slot.index]
    && (o.value.OpaqueDefault? ==> o.value.index < 256)
    && forall wire | ResolvesTo(types, (slot.node.module_, BaseSyntax(slot.node.syntax)), wire) ::
         ValueServedAs(o.value, slot, types, wire)
  }

  lemma TypesOfDefaults(d: Default)
    requires d.OpaqueDefault? ==> d.index < 256
    ensures ValueSpec(d)["type"].JStr? && (d.Number? <==> IsNumberType(ValueSpec(d)["type"].s))
  {}

  lemma NumberSpecOf(kind: NumberKind, n: int, m: int)
    ensures ValueSpec(Number(kind, n))["type"] == ValueSpec(Number(kind, m))["type"]
    ensures ValueSpec(Number(kind, n)) == map["type" := ValueSpec(Number(kind, m))["type"], "value" := JInt(n)]
  {}

  lemma NumberedIsServedAs(drawn: Default, slot: Slot, types: Types, wire: string)
    requires DrawnFor(drawn, slot, types, wire)
    ensures var d := Numbered(drawn, slot, types);
      (d.OpaqueDefault? ==> d.index < 256) && ValueServedAs(d, slot, types, wire)
  {
    DefaultIsServedAs(drawn, slot.node, types, wire, slot.index);
    TypesOfDefaults(drawn);
    if drawn.Number? && TakesRowNumber(slot, types) {
      NumberSpecOf(drawn.kind, slot.index, drawn.n);
    }
  }

  lemma SlotValueIsServedAs(d: Default, slot: Slot, types: Types, wire: string)
    requires SlotValue(d, slot, types) && ResolvesTo(types, (slot.node.module_, BaseSyntax(slot.node.syntax)), wire)
    ensures slot.index < 256 && (d.OpaqueDefault? ==> d.index < 256) && ValueServedAs(d, slot, types, wire)
  {
    var other, drawn :| DrawnFor(drawn, slot, types, other) && d == Numbered(drawn, slot, types);
    ResolutionIsUnique(types, (slot.node.module_, BaseSyntax(slot.node.syntax)), wire, other);
    NumberedIsServedAs(drawn, slot, types, wire);
  }

  lemma FilledAreServedAs(objects: seq<SimObject>, slots: seq<Slot>, types: Types)
    requires Fills(objects, slots, types)
    ensures forall k | 0 <= k < |objects| :: ObjectServedAs(objects[k], slots[k], types)
  {
    forall k | 0 <= k < |objects| ensures ObjectServedAs(objects[k], slots[k], types) {
      assert SlotValue(objects[k].value, slots[k], types);
      var other, drawn :| DrawnFor(drawn, slots[k], types, other) && objects[k].value == Numbered(drawn, slots[k], types);
      NumberedIsServedAs(drawn, slots[k], types, other);
      forall wire | ResolvesTo(types, (slots[k].node.module_, BaseSyntax(slots[k].node.syntax)), wire)
        ensures ValueServedAs(objects[k].value, slots[k], types, wire)
      {
        SlotValueIsServedAs(objects[k].value, slots[k], types, wire);
      }
    }
  }

  /** The instances of one node, and the lists one after another. */
  lemma SlotsOfNode(node: Node)
    ensures Slots(node) ==
      if !node.accessible || !node.current then []
      else match node.nodeType
        case Scalar => [Slot(node, 0)]
        case Column => [Slot(node, 1), Slot(node, 2)]
        case OtherNode => []
  {}

  lemma SlotsInOrder(a: seq<Node>, b: seq<Node>)
    ensures ExpectedSlots(a + b) == ExpectedSlots(a) + ExpectedSlots(b)
  {
    FlatMapConcat(a, b, SlotsOf());
  }

  /** The instances of a node, none unless it is served. */
  method InstancesOf(node: Node, types: Types) returns (r: Result<seq<SimObject>>)
    ensures r.Ok? ==> Fills(r.value, Slots(node), types)
    ensures !Served(node) || Drawable(node, types) ==> r.Ok?
  {
    if !Served(node) {
      return Ok([]);
    }
    r := NodeObjects(node, types);
  }

  lemma SlotsOneMore(nodes: seq<Node>, i: nat)
    requires i < |nodes|
    ensures ExpectedSlots(nodes[..i + 1]) == ExpectedSlots(nodes[..i]) + Slots(nodes[i])
  {
    assert nodes[..i + 1] == nodes[..i] + [nodes[i]];
    FlatMapOne(nodes[..i], nodes[i], SlotsOf());
  }

  lemma FilledOneMore(
      nodes: seq<Node>, i: nat, objects: seq<SimObject>, more: seq<SimObject>, types: Types)
    requires i < |nodes| && Fills(objects, ExpectedSlots(nodes[..i]), types) && Fills(more, Slots(nodes[i]), types)
    ensures Fills(objects + more, ExpectedSlots(nodes[..i + 1]), types)
  {
    SlotsOneMore(nodes, i);
    MoreFilled(objects, ExpectedSlots(nodes[..i]), more, Slots(nodes[i]), types);
  }

  method AllInstances(nodes: seq<Node>, types: Types) returns (r: Result<seq<SimObject>>)
    ensures r.Ok? ==> Fills(r.value, ExpectedSlots(nodes), types)
    ensures (forall node | node in nodes && Served(node) :: Drawable(node, types)) ==> r.Ok?
  {
    var objects: seq<SimObject> := [];
    for i := 0 to |nodes|
      invariant Fills(objects, ExpectedSlots(nodes[..i]), types)
    {
      var more := InstancesOf(nodes[i], types);
      if more.Err? {
        return more;
      }
      FilledOneMore(nodes, i, objects, more.value, types);
      objects := objects + more.value;
    }
    assert nodes[..|nodes|] == nodes;
    r := Ok(objects);
  }

  /** The generated list: for every served node in order its instances in order, each with a value
      of its own node. */
  method BundleObjects(nodes: seq<Node>, types: Types) returns (r: Result<seq<SimObject>>)
    ensures r.Ok? ==> Fills(r.value, ExpectedSlots(nodes), types)
    ensures r.Ok? ==> forall k | 0 <= k < |r.value| :: ObjectServedAs(r.value[k], ExpectedSlots(nodes)[k], types)
    ensures (forall node | node in nodes && Served(node) :: Drawable(node, types)) ==> r.Ok?
  {
    r := AllInstances(nodes, types);
    if r.Ok? {
      FilledAreServedAs(r.value, ExpectedSlots(nodes), types);
    }
  }

  /* ---- what the runtime makes of the list ---- */

  /** The node the bundle's OID lookup answers, if any. */
  type Lookup = Oid -> Option<Node>

  /** The constraints the runtime finds for a target. */
  function ConstraintsAt(lookup: Lookup, oid: Oid, types: Types): Option<Constraint> {
    match lookup(oid) case None => None case Some(node) => EffectiveConstraints(node, types)
  }

  ghost predicate RuntimeAcceptsObject(o: SimObject, lookup: Lookup, types: Types, lib: Library)
    requires o.value.OpaqueDefault? ==> o.value.index < 256
  {
    RuntimeAccepts(ValueSpec(o.value), ConstraintsAt(lookup, o.oid, types), lib)
  }

  /** What a node must satisfy for its defaults to be accepted. */
  ghost predicate Generable(node: Node, types: Types) {
    var c := EffectiveConstraints(node, types);
    && Ascii(node.name)
    && (c.Some? ==> Shows(c.value, RangeBounds) && Shows(c.value, SizeBounds))
    && forall wire | ResolvesTo(types, (node.module_, BaseSyntax(node.syntax)), wire) :: !GeneratorIsBlind(node, types, ClassOf(wire))
  }

  lemma SlotValueShape(d: Default, slot: Slot, types: Types)
    requires SlotValue(d, slot, types) && Ascii(slot.node.name)
    ensures d.OpaqueDefault? ==> d.index < 256
    ensures d.TextOctets? ==> Ascii(d.text)
  {
    var wire, drawn :| DrawnFor(drawn, slot, types, wire) && d == Numbered(drawn, slot, types);
    DefaultTextIsAscii(drawn, slot.node, types, ClassOf(wire), slot.index);
  }

  /** A value of a generable node is allowed by the node's own constraints. */
  lemma GenerableValueIsAllowed(d: Default, slot: Slot, types: Types)
    requires SlotValue(d, slot, types) && Generable(slot.node, types)
    ensures Allowed(d, EffectiveConstraints(slot.node, types))
  {
    var wire, drawn :| DrawnFor(drawn, slot, types, wire) && d == Numbered(drawn, slot, types);
    if !(drawn.Number? && TakesRowNumber(slot, types)) {
      AllowedExactlyWhen(drawn, slot.node, types, ClassOf(wire), slot.index);
    }
  }

  /** Where the lookup finds the generating node's constraints, the runtime accepts the object. */
  lemma BundleIsAccepted(objects: seq<SimObject>, slots: seq<Slot>, types: Types, lookup: Lookup, lib: Library, k: nat)
    requires Fills(objects, slots, types) && k < |objects|
    requires Generable(slots[k].node, types)
    requires ConstraintsAt(lookup, SlotOid(slots[k]), types) == EffectiveConstraints(slots[k].node, types)
    ensures objects[k].value.OpaqueDefault? ==> objects[k].value.index < 256
    ensures RuntimeAcceptsObject(objects[k], lookup, types, lib)
  {
    SlotValueShape(objects[k].value, slots[k], types);
    GenerableValueIsAllowed(objects[k].value, slots[k], types);
    AcceptedMeansAllowed(objects[k].value, EffectiveConstraints(slots[k].node, types), lib);
  }

  /** The constraints found allow whatever the slot may be given: its one value, or its row number,
      or the whole range that is drawn from. */
  ghost predicate AllowsSlot(found: Option<Constraint>, slot: Slot, types: Types, k: WireClass)
    requires slot.index < 256
  {
    match OriginOf(slot.node, types, k, slot.index)
    case Fixed(value) => Allowed(value, found)
    case Drawn(kind, range) =>
      if TakesRowNumber(slot, types) then range.0 <= range.1 ==> Allowed(Number(kind, slot.index), found)
      else forall n | range.0 <= n <= range.1 :: Allowed(Number(kind, n), found)
  }

  ghost predicate AcceptedAs(d: Default, found: Option<Constraint>, lib: Library) {
    (d.OpaqueDefault? ==> d.index < 256) && RuntimeAccepts(ValueSpec(d), found, lib)
  }

  /** A fixed value is never replaced by the row number. */
  lemma FixedStays(slot: Slot, types: Types, k: WireClass)
    requires slot.index < 256 && OriginOf(slot.node, types, k, slot.index).Fixed?
    ensures var d := OriginOf(slot.node, types, k, slot.index).value;
      Numbered(d, slot, types) == d
  {}

  /** The values of a slot under its one wire syntax. */
  lemma SlotValues(slot: Slot, types: Types, wire: string, d: Default)
    requires slot.index < 256 && ResolvesTo(types, (slot.node.module_, BaseSyntax(slot.node.syntax)), wire)
    ensures SlotValue(d, slot, types) <==>
      exists drawn :: PossibleDefault(drawn, slot.node, types, ClassOf(wire), slot.index) && d == Numbered(drawn, slot, types)
  {
    if SlotValue(d, slot, types) {
      var other, drawn :| DrawnFor(drawn, slot, types, other) && d == Numbered(drawn, slot, types);
      ResolutionIsUnique(types, (slot.node.module_, BaseSyntax(slot.node.syntax)), wire, other);
    }
    if drawn :| PossibleDefault(drawn, slot.node, types, ClassOf(wire), slot.index) && d == Numbered(drawn, slot, types) {
      assert DrawnFor(drawn, slot, types, wire);
    }
  }

  ghost predicate AllAllowed(found: Option<Constraint>, slot: Slot, types: Types, k: WireClass)
    requires slot.index < 256
  {
    forall d | PossibleDefault(d, slot.node, types, k, slot.index) :: Allowed(Numbered(d, slot, types), found)
  }

  lemma DrawnAreAllowed(found: Option<Constraint>, slot: Slot, types: Types, k: WireClass, d: Default)
    requires slot.index < 256 && OriginOf(slot.node, types, k, slot.index).Drawn?
    requires AllowsSlot(found, slot, types, k) && PossibleDefault(d, slot.node, types, k, slot.index)
    ensures Allowed(Numbered(d, slot, types), found)
  {
    assert d == Number(d.kind, d.n);
  }

  lemma AllowedDraws(found: Option<Constraint>, slot: Slot, types: Types, k: WireClass)
    requires slot.index < 256 && OriginOf(slot.node, types, k, slot.index).Drawn?
    requires AllAllowed(found, slot, types, k)
    ensures AllowsSlot(found, slot, types, k)
  {
    var o := OriginOf(slot.node, types, k, slot.index);
    forall n | o.range.0 <= n <= o.range.1
      ensures Allowed(Numbered(Number(o.kind, n), slot, types), found)
    {
      assert PossibleDefault(Number(o.kind, n), slot.node, types, k, slot.index);
    }
    if TakesRowNumber(slot, types) && o.range.0 <= o.range.1 {
      assert Allowed(Numbered(Number(o.kind, o.range.0), slot, types), found);
    }
  }

  /** Every possible value of a class is allowed exactly when the class's origin is. */
  lemma PossibleAreAllowedExactlyWhen(found: Option<Constraint>, slot: Slot, types: Types, k: WireClass)
    requires slot.index < 256
    ensures AllAllowed(found, slot, types, k) <==> AllowsSlot(found, slot, types, k)
  {
    match OriginOf(slot.node, types, k, slot.index)
    case Fixed(value) =>
      FixedStays(slot, types, k);
      assert PossibleDefault(value, slot.node, types, k, slot.index);
    case Drawn(_, _) =>
      if AllAllowed(found, slot, types, k) {
        AllowedDraws(found, slot, types, k);
      }
      if AllowsSlot(found, slot, types, k) {
        forall d | PossibleDefault(d, slot.node, types, k, slot.index) ensures Allowed(Numbered(d, slot, types), found) {
          DrawnAreAllowed(found, slot, types, k, d);
        }
      }
  }

  /** Whatever constraints the lookup finds, the runtime accepts every value the slot may be given
      exactly when they allow its one value, its row number, or its whole draw range. */
  lemma SlotIsAcceptedExactlyWhen(slot: Slot, types: Types, wire: string, found: Option<Constraint>, lib: Library)
    requires slot.index < 256 && ResolvesTo(types, (slot.node.module_, BaseSyntax(slot.node.syntax)), wire)
    requires Ascii(slot.node.name)
    ensures (forall d | SlotValue(d, slot, types) :: AcceptedAs(d, found, lib)) <==>
      AllowsSlot(found, slot, types, ClassOf(wire))
  {
    forall d | SlotValue(d, slot, types) ensures AcceptedAs(d, found, lib) <==> Allowed(d, found) {
      SlotValueShape(d, slot, types);
      AcceptedMeansAllowed(d, found, lib);
    }
    forall d ensures SlotValue(d, slot, types) <==>
      exists drawn :: PossibleDefault(drawn, slot.node, types, ClassOf(wire), slot.index) && d == Numbered(drawn, slot, types)
    {
      SlotValues(slot, types, wire, d);
    }
    PossibleAreAllowedExactlyWhen(found, slot, types, ClassOf(wire));
    if AllAllowed(found, slot, types, ClassOf(wire)) {
      forall d | SlotValue(d, slot, types) ensures Allowed(d, found) {
        var drawn :| PossibleDefault(drawn, slot.node, types, ClassOf(wire), slot.index) && d == Numbered(drawn, slot, types);
      }
    }
    if forall d | SlotValue(d, slot, types) :: AcceptedAs(d, found, lib) {
      forall drawn | PossibleDefault(drawn, slot.node, types, ClassOf(wire), slot.index)
        ensures Allowed(Numbered(drawn, slot, types), found)
      {
        assert SlotValue(Numbered(drawn, slot, types), slot, types);
      }
    }
  }

  /** Whatever the lookup finds, an object is accepted exactly when the constraints found allow its
      value. */
  lemma ObjectIsAcceptedExactlyWhen(o: SimObject, slot: Slot, types: Types, lookup: Lookup, lib: Library)
    requires Fills([o], [slot], types) && Ascii(slot.node.name)
    ensures o.value.OpaqueDefault? ==> o.value.index < 256
    ensures RuntimeAcceptsObject(o, lookup, types, lib) <==> Allowed(o.value, ConstraintsAt(lookup, SlotOid(slot), types))
  {
    assert [o][0] == o && [slot][0] == slot;
    SlotValueShape(o.value, slot, types);
    AcceptedMeansAllowed(o.value, ConstraintsAt(lookup, SlotOid(slot), types), lib);
  }

  /** An Integer32 scalar with a range of one value. */
  function OneValueScalar(module_: string, n: int): Node {
    Node("load", Scalar, true, true, [1, 3, 6], module_, "Integer32", Some(Range([Pair(n, n)])), [])
  }

  lemma {:induction false} BeforeParenOfPlain(s: string)
    requires '(' !in s
    ensures BeforeParen(s) == s
  {
    if s != [] {
      BeforeParenOfPlain(s[1..]);
      assert s[0] in s && s == [s[0]] + s[1..];
    }
  }

  /** A wire syntax resolves to itself. */
  lemma WireResolvesToItself(types: Types, start: TypeKey)
    requires start.1 in WIRE_SYNTAXES
    ensures ResolvesTo(types, start, start.1)
  {
    assert WalkEndsAt(types, WIRE_SYNTAXES, [start], start, start.1);
  }

  lemma PlainIsBase(s: string)
    requires '(' !in s && Trimmed(s)
    ensures BaseSyntax(s) == s
  {
    BeforeParenOfPlain(s);
    StripFixedPoints(s);
  }

  lemma Integer32IsBase()
    ensures BaseSyntax("Integer32") == "Integer32"
  {
    var s := "Integer32";
    assert '(' !in s && Trimmed(s);
    PlainIsBase(s);
  }

  lemma Integer32IsNoNumber()
    ensures "Integer32" !in COUNTERS && "Integer32" !in GAUGES && "Integer32" !in TIMETICKS
  {
    assert "Integer32"[0] == 'I';
    assert forall t | t in COUNTERS :: t[0] == 'C';
    assert forall t | t in GAUGES :: t[0] == 'G' || t[0] == 'U';
    assert forall t | t in TIMETICKS :: t[0] == 'T';
  }

  lemma Integer32IsNoOther()
    ensures "Integer32" !in OIDS && "Integer32" !in ADDRESSES
  {
    assert "Integer32"[0] == 'I' && |"Integer32"| == 9 && "Integer32"[1] == 'n';
    assert forall t | t in OIDS :: t[0] == 'O' || t[0] == 'A';
    assert forall t | t in ADDRESSES :: |t| != 9 || t[1] == 'p';
  }

  lemma Integer32IsInteger()
    ensures "Integer32" in INTEGERS && "Integer32" in WIRE_SYNTAXES
    ensures ClassOf("Integer32") == IntegerClass
  {
    Integer32IsNoNumber();
    Integer32IsNoOther();
    assert "Integer32"[0] != "BITS"[0] && "Integer32"[0] != "Opaque"[0];
  }

  lemma OnePairBounds(n: int)
    ensures BoundsPairs([Pair(n, n)]) == [(n, n)]
  {
    assert [Pair(n, n)][..0] == [];
  }

  lemma OneValueOrigin(module_: string, n: nat)
    ensures OriginOf(OneValueScalar(module_, n), map[], IntegerClass, 0) == Drawn(IntegerNumber, (n, n))
  {
    OnePairBounds(n);
    assert "Integer32"[0] != "BITS"[0];
  }

  /** The scalar's only value is its number. */
  lemma OneValueIsGenerated(module_: string, n: nat)
    ensures SlotValue(Number(IntegerNumber, n), Slot(OneValueScalar(module_, n), 0), map[])
  {
    var slot := Slot(OneValueScalar(module_, n), 0);
    var d := Number(IntegerNumber, n);
    Integer32IsBase();
    Integer32IsInteger();
    WireResolvesToItself(map[], (module_, "Integer32"));
    OneValueOrigin(module_, n);
    assert PossibleDefault(d, slot.node, map[], ClassOf("Integer32"), 0);
    assert DrawnFor(d, slot, map[], "Integer32");
  }

  lemma OneValueAllowed(module_: string, n: int, m: int)
    ensures Allowed(Number(IntegerNumber, m), OneValueScalar(module_, n).constraints) <==> m == n
  {
    OnePairBounds(n);
    assert BoundsPairs([Pair(n, n)])[0] == (n, n);
  }

  /** Where the lookup finds a one-value scalar, the runtime accepts exactly its number. */
  lemma OneValueAccepted(o: SimObject, found: Node, module_: string, n: int, m: int, lib: Library)
    requires found == OneValueScalar(module_, n) && o.value == Number(IntegerNumber, m)
    ensures RuntimeAcceptsObject(o, _ => Some(found), map[], lib) <==> m == n
  {
    OneValueAllowed(module_, n, m);
    AcceptedMeansAllowed(o.value, found.constraints, lib);
  }

  /** Two modules that declare one OID with ranges 1..1 and 5..5: the value generated for the first
      is accepted under its own node and refused where the lookup finds the other. */
  lemma OtherOwnerRefuses(lib: Library)
    ensures var first, second := OneValueScalar("A", 1), OneValueScalar("B", 5);
      var o := SimObject(SlotOid(Slot(first, 0)), Number(IntegerNumber, 1));
      && first.oid == second.oid && Fills([o], [Slot(first, 0)], map[])
      && RuntimeAcceptsObject(o, _ => Some(first), map[], lib)
      && !RuntimeAcceptsObject(o, _ => Some(second), map[], lib)
  {
    var first, second := OneValueScalar("A", 1), OneValueScalar("B", 5);
    var o := SimObject(SlotOid(Slot(first, 0)), Number(IntegerNumber, 1));
    OneValueIsGenerated("A", 1);
    OneValueAccepted(o, first, "A", 1, 1, lib);
    OneValueAccepted(o, second, "B", 5, 1, lib);
  }
}
