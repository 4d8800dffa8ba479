/** Recording a notification as JSON and replaying it: value, OID and varbind serialization
    against the parser that rebuilds the varbinds for sending. */
module NotificationReplay {
  import opened Text
  import opened Lists

  type Byte = b: int | 0 <= b < 256

  type Oid = seq<int>

  datatype Value =
    | Integer(i: int)
    | OctetString(octets: seq<Byte>)
    | Null
    | ObjectIdentifier(oid: Oid)
    | IpAddress(address: string)
    | Counter32(n: nat)
    | Gauge32(n: nat)
    | TimeTicks(n: nat)
    | Opaque(octets: seq<Byte>)
    | Counter64(n: nat)
    | NoSuchObject
    | NoSuchInstance
    | EndOfMibView

  datatype Varbind = Varbind(oid: Oid, value: Value)

  datatype Json =
    | JNull
    | JBool(b: bool)
    | JInt(i: int)
    | JStr(s: string)
    | JArr(items: seq<Json>)
    | JObj(fields: map<string, Json>)

  /** What the SNMP library and the active bundle contribute. */
  datatype Library = Library(
    display: Value -> string,
    symbolic: Oid -> Json,
    resolve: string -> Option<Oid>,
    base64: string -> Option<seq<Byte>>,
    accepts: (Oid, Value) -> bool)

  const SYS_UPTIME: Oid := [1, 3, 6, 1, 2, 1, 1, 3, 0]
  const SNMP_TRAP_OID: Oid := [1, 3, 6, 1, 6, 3, 1, 1, 4, 1, 0]

  function Get(fields: map<string, Json>, key: string): Json {
    if key in fields then fields[key] else JNull
  }

  /** Python truthiness. */
  predicate Truthy(j: Json) {
    match j
    case JNull => false
    case JBool(b) => b
    case JInt(i) => i != 0
    case JStr(s) => s != []
    case JArr(items) => items != []
    case JObj(fields) => fields != map[]
  }

  function Or(a: Json, b: Json): Json {
    if Truthy(a) then a else b
  }

  predicate NonBlank(j: Json) {
    j.JStr? && Strip(j.s) != []
  }

  /* ---- hexadecimal ---- */

  function HexChar(d: nat): char
    requires d < 16
  {
    if d < 10 then ('0' as int + d) as char else ('a' as int + d - 10) as char
  }

  function HexValue(c: char): Option<nat> {
    if '0' <= c <= '9' then Some(c as int - '0' as int)
    else if 'a' <= c <= 'f' then Some(c as int - 'a' as int + 10)
    else if 'A' <= c <= 'F' then Some(c as int - 'A' as int + 10)
    else None
  }

  function ToHex(octets: seq<Byte>): string {
    if octets == [] then [] else [HexChar(octets[0] / 16), HexChar(octets[0] % 16)] + ToHex(octets[1..])
  }

  /** Python's bytes.fromhex: whitespace is allowed between bytes, not inside one. */
  function FromHex(s: string): Option<seq<Byte>> {
    if s == [] then Some([])
    else if s[0] == ' ' || '\t' <= s[0] <= '\r' then FromHex(s[1..])
    else if |s| < 2 then None
    else
      match (HexValue(s[0]), HexValue(s[1]), FromHex(s[2..]))
      case (Some(hi), Some(lo), Some(rest)) => Some([16 * hi + lo] + rest)
      case _ => None
  }

  function DropSpaces(s: string): string {
    if s == [] then [] else (if s[0] == ' ' then [] else [s[0]]) + DropSpaces(s[1..])
  }

  function DecodeHex(text: string): Option<seq<Byte>> {
    var t := DropSpaces(Strip(text));
    FromHex(if "0x" <= t then t[2..] else t)
  }

  predicate HexText(s: string) {
    forall i | 0 <= i < |s| :: HexValue(s[i]).Some?
  }

  lemma HexDigits(octet: Byte)
    ensures HexValue(HexChar(octet / 16)) == Some(octet / 16) && HexValue(HexChar(octet % 16)) == Some(octet % 16)
    ensures HexChar(octet / 16) != ' ' && !('\t' <= HexChar(octet / 16) <= '\r')
  {}

  lemma FromHexPair(hi: char, lo: char, rest: string)
    requires HexValue(hi).Some? && HexValue(lo).Some? && FromHex(rest).Some?
    ensures FromHex([hi, lo] + rest) == Some([16 * HexValue(hi).value + HexValue(lo).value] + FromHex(rest).value)
  {
    assert ([hi, lo] + rest)[2..] == rest;
  }

  lemma {:induction false} ToHexIsHexText(octets: seq<Byte>)
    ensures HexText(ToHex(octets))
  {
    if octets != [] {
      ToHexIsHexText(octets[1..]);
      HexDigits(octets[0]);
    }
  }

  lemma ToHexCons(octet: Byte, rest: seq<Byte>)
    ensures ToHex([octet] + rest) == [HexChar(octet / 16), HexChar(octet % 16)] + ToHex(rest)
  {
    assert ([octet] + rest)[1..] == rest;
  }

  lemma OneMoreOctet(octet: Byte, rest: seq<Byte>)
    requires FromHex(ToHex(rest)) == Some(rest)
    ensures FromHex(ToHex([octet] + rest)) == Some([octet] + rest)
  {
    HexDigits(octet);
    ToHexCons(octet, rest);
    FromHexPair(HexChar(octet / 16), HexChar(octet % 16), ToHex(rest));
  }

  lemma {:induction false} HexRoundTrip(octets: seq<Byte>)
    ensures FromHex(ToHex(octets)) == Some(octets)
  {
    if octets != [] {
      HexRoundTrip(octets[1..]);
      OneMoreOctet(octets[0], octets[1..]);
      assert octets == [octets[0]] + octets[1..];
    }
  }

  lemma {:induction false} HexTextIsPlain(s: string)
    requires HexText(s)
    ensures DropSpaces(s) == s && Trimmed(s) && !("0x" <= s)
  {
    if s != [] {
      HexTextIsPlain(s[1..]);
      assert HexValue(s[0]).Some? && HexValue(s[|s| - 1]).Some?;
      assert |s| >= 2 ==> HexValue(s[1]).Some?;
    }
  }

  lemma StripOfTrimmed(s: string)
    requires Trimmed(s)
    ensures Strip(s) == s
  {
    StripFixedPoints(s);
  }

  /** Any bytes survive the trip through their hex text, the empty string included. */
  lemma DecodeOfToHex(octets: seq<Byte>)
    ensures DecodeHex(ToHex(octets)) == Some(octets)
  {
    HexRoundTrip(octets);
    ToHexIsHexText(octets);
    HexTextIsPlain(ToHex(octets));
    StripOfTrimmed(ToHex(octets));
  }

  /* ---- dotted decimals ---- */

  function Decimals(oid: Oid): (r: seq<string>)
    ensures |r| == |oid| && forall k | 0 <= k < |oid| :: r[k] == IntToString(oid[k])
  {
    seq(|oid|, k requires 0 <= k < |oid| => IntToString(oid[k]))
  }

  function OidToStr(oid: Oid): string {
    Join(Decimals(oid), '.')
  }

  function DropDots(s: string): string {
    if s != [] && s[0] == '.' then DropDots(s[1..]) else s
  }

  function ParseParts(parts: seq<string>): Result<Oid> {
    if parts == [] then Ok([])
    else
      match (ParseInt(parts[0]), ParseParts(parts[1..]))
      case (Some(i), Ok(rest)) => Ok([i] + rest)
      case _ => Err("OID values must be dotted numeric strings")
  }

  function ParseNumericOid(text: string): Result<Oid> {
    var stripped := DropDots(text);
    var parts := Split(stripped, '.');
    if stripped == [] || exists k | 0 <= k < |parts| :: parts[k] == [] then
      Err("OID values must be dotted numeric strings")
    else ParseParts(parts)
  }

  /** The characters of a printed number: digits, after a possible minus sign. */
  predicate NumberText(s: string) {
    s != [] && forall i | 0 <= i < |s| :: s[i] == '-' || IsDigit(s[i])
  }

  lemma IntToStringIsNumberText(i: int)
    ensures NumberText(IntToString(i))
  {
    var digits := NatToString(if i < 0 then -i else i);
    assert forall k | 0 <= k < |digits| :: digits[k] in digits;
  }

  lemma {:induction false} ParsePartsOfDecimals(oid: Oid)
    ensures ParseParts(Decimals(oid)) == Ok(oid)
  {
    if oid != [] {
      ParseIntOfInt(oid[0]);
      ParsePartsOfDecimals(oid[1..]);
      assert Decimals(oid)[1..] == Decimals(oid[1..]);
      assert oid == [oid[0]] + oid[1..];
    }
  }

  predicate DottedText(s: string) {
    forall i | 0 <= i < |s| :: s[i] == '.' || s[i] == '-' || IsDigit(s[i])
  }

  lemma {:induction false} OidTextShape(oid: Oid)
    requires oid != []
    ensures var s := OidToStr(oid);
      DottedText(s) && s != [] && s[0] != '.' && s[|s| - 1] != '.'
  {
    var parts := Decimals(oid);
    IntToStringIsNumberText(oid[0]);
    if |oid| > 1 {
      OidTextShape(oid[1..]);
      assert parts[1..] == Decimals(oid[1..]);
      assert OidToStr(oid) == parts[0] + ['.'] + OidToStr(oid[1..]);
    }
  }

  /** The dotted text of an OID is clean: nothing to strip, and its parts are the numbers. */
  lemma OidTextParts(oid: Oid)
    requires oid != []
    ensures var s := OidToStr(oid);
      Strip(s) == s && DropDots(s) == s && Split(s, '.') == Decimals(oid)
    ensures forall k | 0 <= k < |oid| :: Decimals(oid)[k] != []
  {
    OidTextShape(oid);
    StripFixedPoints(OidToStr(oid));
    forall k | 0 <= k < |oid| ensures '.' !in Decimals(oid)[k] && Decimals(oid)[k] != [] {
      IntToStringIsNumberText(oid[k]);
    }
    SplitOfJoin(Decimals(oid), '.');
  }

  /** Printing an OID and parsing it back gives the OID, exactly when it is not empty. */
  lemma OidRoundTrip(oid: Oid)
    ensures ParseNumericOid(OidToStr(oid)) == Ok(oid) <==> oid != []
  {
    if oid != [] {
      OidTextParts(oid);
      OidTextShape(oid);
      ParsePartsOfDecimals(oid);
    }
  }

  predicate HasDoubleColon(s: string) {
    exists i | 0 <= i < |s| - 1 :: s[i] == ':' && s[i + 1] == ':'
  }

  function CoerceParts(items: seq<Json>): Result<Oid> {
    if items == [] then Ok([])
    else
      var head := match items[0]
        case JInt(i) => Some(i)
        case JBool(b) => Some(if b then 1 else 0)
        case JStr(s) => ParseInt(s)
        case _ => None;
      match (head, CoerceParts(items[1..]))
      case (Some(i), Ok(rest)) => Ok([i] + rest)
      case _ => Err("Object identifier arrays must contain integers")
  }

  /** A dotted string, a symbolic name that the bundle resolves, or an integer array. */
  function CoerceOid(j: Json, resolve: string -> Option<Oid>): Result<Oid> {
    match j
    case JStr(s) =>
      var stripped := Strip(s);
      if stripped == [] then Err("value must contain a non-empty object identifier")
      else if HasDoubleColon(stripped) then
        (match resolve(stripped)
         case Some(oid) => Ok(oid)
         case None => Err("unknown symbol"))
      else ParseNumericOid(stripped)
    case JArr(items) => CoerceParts(items)
    case _ => Err("value must be a dotted OID string, symbolic target, or integer array")
  }

  lemma CoerceOidOfText(oid: Oid, resolve: string -> Option<Oid>)
    ensures CoerceOid(JStr(OidToStr(oid)), resolve) == Ok(oid) <==> oid != []
    ensures oid != [] ==> Strip(OidToStr(oid)) == OidToStr(oid) != []
  {
    OidRoundTrip(oid);
    if oid != [] {
      OidTextShape(oid);
      StripFixedPoints(OidToStr(oid));
    } else {
      assert OidToStr(oid) == [] && Strip([]) == [];
    }
  }

  /* ---- values ---- */

  function TypeName(v: Value): string {
    match v
    case Integer(_) => "integer"
    case OctetString(_) => "octet-string"
    case Null => "null"
    case ObjectIdentifier(_) => "object-identifier"
    case IpAddress(_) => "ip-address"
    case Counter32(_) => "counter32"
    case Gauge32(_) => "gauge32"
    case TimeTicks(_) => "timeticks"
    case Opaque(_) => "opaque"
    case Counter64(_) => "counter64"
    case NoSuchObject => "no-such-object"
    case NoSuchInstance => "no-such-instance"
    case EndOfMibView => "end-of-mib-view"
  }

  function SerializeValue(v: Value, lib: Library): map<string, Json> {
    var base := map["type" := JStr(TypeName(v)), "display" := JStr(lib.display(v))];
    match v
    case Integer(i) => base["value" := JInt(i)]
    case Counter32(n) => base["value" := JInt(n)]
    case Gauge32(n) => base["value" := JInt(n)]
    case TimeTicks(n) => base["value" := JInt(n)]
    case Counter64(n) => base["value" := JInt(n)]
    case OctetString(octets) => base["value" := JStr(lib.display(v))]["hex" := JStr(ToHex(octets))]
    case Opaque(octets) => base["value" := JStr(ToHex(octets))]["hex" := JStr(ToHex(octets))]
    case ObjectIdentifier(oid) => base["value" := JStr(OidToStr(oid))]
    case IpAddress(address) => base["value" := JStr(address)]
    case _ => base["value" := JNull]
  }

  function ReplayValueInput(payload: Json): Result<map<string, Json>> {
    if !payload.JObj? then Err("Stored notification event is missing a serialized value payload.")
    else
      var fields := payload.fields;
      if !NonBlank(Get(fields, "type")) then Err("Stored notification event is missing a serialized value type.")
      else
        var kind := Lower(Strip(Get(fields, "type").s));
        var hex := Get(fields, "hex");
        if kind == "octet-string" then
          if hex.JStr? then Ok(map["type" := JStr("octet-string"), "value" := hex, "encoding" := JStr("hex")])
          else Ok(map["type" := JStr("octet-string"), "value" := if "value" in fields then fields["value"] else JStr("")])
        else if kind == "opaque" then
          if !hex.JStr? then Err("Stored notification event is missing opaque hex data.")
          else Ok(map["type" := JStr("opaque"), "value" := hex, "encoding" := JStr("hex")])
        else Ok(map["type" := JStr(kind), "value" := Get(fields, "value")])
  }

  function Alias(kind: string): string {
    if kind == "int" || kind == "integer32" then "integer"
    else if kind == "string" || kind == "octets" || kind == "octet_string" || kind == "octetstring" then "octet-string"
    else if kind == "oid" || kind == "object_identifier" || kind == "objectidentifier" then "object-identifier"
    else if kind == "ip" || kind == "ipaddress" then "ip-address"
    else if kind == "counter" then "counter32"
    else if kind == "gauge" then "gauge32"
    else if kind == "time-ticks" || kind == "ticks" then "timeticks"
    else kind
  }

  function Utf8Char(c: char): seq<Byte> {
    var p := c as int;
    if p < 0x80 then [p]
    else if p < 0x800 then [0xC0 + p / 64, 0x80 + p % 64]
    else if p < 0x10000 then [0xE0 + p / 4096, 0x80 + p / 64 % 64, 0x80 + p % 64]
    else [0xF0 + p / 262144, 0x80 + p / 4096 % 64, 0x80 + p / 64 % 64, 0x80 + p % 64]
  }

  function Utf8(s: string): seq<Byte> {
    if s == [] then [] else Utf8Char(s[0]) + Utf8(s[1..])
  }

  function ByteArray(items: seq<Json>): Result<seq<Byte>> {
    if items == [] then Ok([])
    else
      match (items[0], ByteArray(items[1..]))
      case (JInt(i), Ok(rest)) =>
        if 0 <= i < 256 then (var b: Byte := i; Ok([b] + rest))
        else Err("Byte array values must contain integers from 0 to 255")
      case _ => Err("Byte array values must contain integers from 0 to 255")
  }

  function DecodeBytes(value: Json, encoding: string, lib: Library): Result<seq<Byte>> {
    if encoding == "utf-8" || encoding == "text" then
      match value
      case JStr(s) => Ok(Utf8(s))
      case JArr(items) => ByteArray(items)
      case _ => Err("Text-encoded SNMP byte values must be a string or byte array")
    else if !value.JStr? then Err("value must be a string")
    else if encoding == "hex" then
      match DecodeHex(value.s)
      case Some(octets) => Ok(octets)
      case None => Err("Hex-encoded byte values must contain valid hexadecimal text")
    else
      match lib.base64(Strip(value.s))
      case Some(octets) => Ok(octets)
      case None => Err("Base64-encoded byte values must contain valid base64 text")
  }

  function CoerceUint(value: Json): Result<nat> {
    if !value.JInt? then Err("value must be an integer")
    else if value.i < 0 then Err("value must be zero or greater")
    else Ok(value.i)
  }

  function MapResult<A, B>(r: Result<A>, f: A -> B): Result<B> {
    match r case Ok(a) => Ok(f(a)) case Err(e) => Err(e)
  }

  predicate KnownEncoding(e: string) {
    e == "utf-8" || e == "text" || e == "hex" || e == "base64"
  }

  function ParseTyped(kind: string, value: Json, encoding: Option<string>, lib: Library): Result<Value> {
    if kind == "integer" then
      if value.JInt? then Ok(Integer(value.i)) else Err("value must be an integer")
    else if kind == "octet-string" then
      MapResult(DecodeBytes(value, if encoding.Some? then encoding.value else "utf-8", lib), b => OctetString(b))
    else if kind == "null" then Ok(Null)
    else if kind == "object-identifier" then MapResult(CoerceOid(value, lib.resolve), o => ObjectIdentifier(o))
    else if kind == "ip-address" then
      if NonBlank(value) then Ok(IpAddress(Strip(value.s))) else Err("value must be a non-empty string")
    else if kind == "counter32" then MapResult(CoerceUint(value), n => Counter32(n))
    else if kind == "gauge32" then MapResult(CoerceUint(value), n => Gauge32(n))
    else if kind == "timeticks" then MapResult(CoerceUint(value), n => TimeTicks(n))
    else if kind == "opaque" then
      MapResult(DecodeBytes(value, if encoding.Some? then encoding.value else "hex", lib), b => Opaque(b))
    else if kind == "counter64" then MapResult(CoerceUint(value), n => Counter64(n))
    else Err("Unsupported SNMP value type.")
  }

  function ParseValueSpec(spec: map<string, Json>, lib: Library): Result<Value> {
    if !NonBlank(Get(spec, "type")) then Err("Value payload must include a non-empty type")
    else
      var kind := Alias(Lower(Strip(Get(spec, "type").s)));
      match Get(spec, "encoding")
      case JNull => ParseTyped(kind, Get(spec, "value"), None, lib)
      case JStr(e) =>
        if KnownEncoding(Lower(Strip(e))) then ParseTyped(kind, Get(spec, "value"), Some(Lower(Strip(e))), lib)
        else Err("encoding must be one of: utf-8, text, hex, base64")
      case _ => Err("encoding must be one of: utf-8, text, hex, base64")
  }

  /** The values that can be sent again: one of the ten parseable types, a non-empty OID, an
      address text that is neither blank nor padded. */
  predicate Replayable(v: Value) {
    match v
    case NoSuchObject => false
    case NoSuchInstance => false
    case EndOfMibView => false
    case ObjectIdentifier(oid) => oid != []
    case IpAddress(address) => address != [] && Trimmed(address)
    case _ => true
  }

  /** What the parser makes of a recorded value. */
  function ReplayValue(payload: Json, lib: Library): Result<Value> {
    match ReplayValueInput(payload)
    case Err(e) => Err(e)
    case Ok(spec) => ParseValueSpec(spec, lib)
  }

  lemma PlainTextIsFixed(t: string)
    requires IsLower(t) && Trimmed(t)
    ensures Lower(Strip(t)) == t
  {
    StripFixedPoints(t);
    LowerIsIdentityOnLower(t);
  }

  /** A type name that both parsers read as itself. */
  predicate CanonicalKind(kind: string) {
    Strip(kind) == kind && kind != [] && Lower(kind) == kind && Alias(kind) == kind
  }

  lemma PlainKindIsCanonical(kind: string)
    requires IsLower(kind) && Trimmed(kind) && kind != [] && Alias(kind) == kind
    ensures CanonicalKind(kind)
  {
    StripFixedPoints(kind);
    LowerIsIdentityOnLower(kind);
  }

  lemma NumberNameIsCanonical(v: Value)
    requires v.Counter32? || v.Gauge32? || v.TimeTicks? || v.Counter64?
    ensures CanonicalKind(TypeName(v))
  {
    PlainKindIsCanonical(TypeName(v));
  }

  lemma BasicNameIsCanonical(v: Value)
    requires v.Integer? || v.OctetString? || v.Null? || v.Opaque?
    ensures CanonicalKind(TypeName(v))
  {
    PlainKindIsCanonical(TypeName(v));
  }

  lemma TextNameIsCanonical(v: Value)
    requires v.ObjectIdentifier? || v.IpAddress?
    ensures CanonicalKind(TypeName(v))
  {
    PlainKindIsCanonical(TypeName(v));
  }

  lemma ExceptionNameIsCanonical(v: Value)
    requires v.NoSuchObject? || v.NoSuchInstance? || v.EndOfMibView?
    ensures CanonicalKind(TypeName(v))
  {
    PlainKindIsCanonical(TypeName(v));
  }

  lemma TypeNameIsCanonical(v: Value)
    ensures CanonicalKind(TypeName(v))
  {
    match v
    case Counter32(_) => NumberNameIsCanonical(v);
    case Gauge32(_) => NumberNameIsCanonical(v);
    case TimeTicks(_) => NumberNameIsCanonical(v);
    case Counter64(_) => NumberNameIsCanonical(v);
    case ObjectIdentifier(_) => TextNameIsCanonical(v);
    case IpAddress(_) => TextNameIsCanonical(v);
    case NoSuchObject => ExceptionNameIsCanonical(v);
    case NoSuchInstance => ExceptionNameIsCanonical(v);
    case EndOfMibView => ExceptionNameIsCanonical(v);
    case _ => BasicNameIsCanonical(v);
  }

  /** Only the two byte types are replayed from their hex text. */
  lemma BytesTypeNames(v: Value)
    ensures TypeName(v) == "octet-string" <==> v.OctetString?
    ensures TypeName(v) == "opaque" <==> v.Opaque?
  {}

  /** A payload under a canonical type name, with no encoding, reaches that type's parser. */
  lemma PlainSpecParse(kind: string, value: Json, lib: Library)
    requires CanonicalKind(kind)
    ensures ParseValueSpec(map["type" := JStr(kind), "value" := value], lib) == ParseTyped(kind, value, None, lib)
  {
    var spec := map["type" := JStr(kind), "value" := value];
    assert Get(spec, "type") == JStr(kind) && Get(spec, "encoding") == JNull && Get(spec, "value") == value;
  }

  lemma HexSpecParse(kind: string, value: Json, lib: Library)
    requires CanonicalKind(kind)
    ensures ParseValueSpec(map["type" := JStr(kind), "value" := value, "encoding" := JStr("hex")], lib)
         == ParseTyped(kind, value, Some("hex"), lib)
  {
    var spec := map["type" := JStr(kind), "value" := value, "encoding" := JStr("hex")];
    assert Get(spec, "type") == JStr(kind) && Get(spec, "value") == value && Get(spec, "encoding") == JStr("hex");
    PlainTextIsFixed("hex");
    assert KnownEncoding("hex");
  }

  /** The input that replay builds from a recorded value. */
  function ReplayedInput(v: Value, lib: Library): map<string, Json> {
    var kind := JStr(TypeName(v));
    match v
    case OctetString(octets) => map["type" := kind, "value" := JStr(ToHex(octets)), "encoding" := JStr("hex")]
    case Opaque(octets) => map["type" := kind, "value" := JStr(ToHex(octets)), "encoding" := JStr("hex")]
    case _ => map["type" := kind, "value" := Get(SerializeValue(v, lib), "value")]
  }

  lemma ReplayInputOfKind(kind: string, fields: map<string, Json>)
    requires CanonicalKind(kind) && Get(fields, "type") == JStr(kind)
    ensures kind != "octet-string" && kind != "opaque" ==>
      ReplayValueInput(JObj(fields)) == Ok(map["type" := JStr(kind), "value" := Get(fields, "value")])
    ensures (kind == "octet-string" || kind == "opaque") && Get(fields, "hex").JStr? ==>
      ReplayValueInput(JObj(fields)) == Ok(map["type" := JStr(kind), "value" := Get(fields, "hex"), "encoding" := JStr("hex")])
  {}

  lemma RecordedFields(v: Value, lib: Library)
    ensures Get(SerializeValue(v, lib), "type") == JStr(TypeName(v))
    ensures v.OctetString? || v.Opaque? ==> Get(SerializeValue(v, lib), "hex") == JStr(ToHex(v.octets))
  {}

  lemma RecordedValueInput(v: Value, lib: Library)
    ensures ReplayValueInput(JObj(SerializeValue(v, lib))) == Ok(ReplayedInput(v, lib))
  {
    TypeNameIsCanonical(v);
    BytesTypeNames(v);
    RecordedFields(v, lib);
    ReplayInputOfKind(TypeName(v), SerializeValue(v, lib));
  }

  function ReplayedEncoding(v: Value): Option<string> {
    if v.OctetString? || v.Opaque? then Some("hex") else None
  }

  /** The replayed input reaches the parser of the value's own type. */
  lemma ReplayedInputParse(v: Value, lib: Library)
    ensures var spec := ReplayedInput(v, lib);
      ParseValueSpec(spec, lib) == ParseTyped(TypeName(v), Get(spec, "value"), ReplayedEncoding(v), lib)
  {
    TypeNameIsCanonical(v);
    if v.OctetString? || v.Opaque? {
      HexSpecParse(TypeName(v), JStr(ToHex(v.octets)), lib);
    } else {
      PlainSpecParse(TypeName(v), Get(SerializeValue(v, lib), "value"), lib);
    }
  }

  /** Parsing an integer under the type of a numeric value: the unsigned types refuse negatives. */
  lemma TypedNumber(v: Value, i: int, lib: Library)
    requires v.Integer? || v.Counter32? || v.Counter64? || v.Gauge32? || v.TimeTicks?
    ensures var r := ParseTyped(TypeName(v), JInt(i), None, lib);
      && (r.Ok? <==> v.Integer? || i >= 0)
      && (r.Ok? ==> match r.value
            case Integer(j) => j == i
            case Counter32(n) => n == i
            case Counter64(n) => n == i
            case Gauge32(n) => n == i
            case TimeTicks(n) => n == i
            case _ => false)
  {
    match v
    case Integer(_) =>
    case Counter32(_) =>
    case Counter64(_) =>
    case Gauge32(_) =>
    case TimeTicks(_) =>
  }

  /** Parsing the replayed input of a value under its own type. */
  function ParsedBack(v: Value, lib: Library): Result<Value> {
    ParseTyped(TypeName(v), Get(ReplayedInput(v, lib), "value"), ReplayedEncoding(v), lib)
  }

  lemma HexEncodedBytes(octets: seq<Byte>, lib: Library)
    ensures DecodeBytes(JStr(ToHex(octets)), "hex", lib) == Ok(octets)
  {
    DecodeOfToHex(octets);
  }

  lemma TypedOctetsParse(octets: seq<Byte>, lib: Library)
    ensures ParseTyped("octet-string", JStr(ToHex(octets)), Some("hex"), lib) == Ok(OctetString(octets))
  {
    HexEncodedBytes(octets, lib);
  }

  lemma TypedOpaqueParse(octets: seq<Byte>, lib: Library)
    ensures ParseTyped("opaque", JStr(ToHex(octets)), Some("hex"), lib) == Ok(Opaque(octets))
  {
    HexEncodedBytes(octets, lib);
  }

  lemma TypedBytesParse(v: Value, lib: Library)
    requires v.OctetString? || v.Opaque?
    ensures ParsedBack(v, lib) == Ok(v)
  {
    assert Get(ReplayedInput(v, lib), "value") == JStr(ToHex(v.octets));
    if v.OctetString? {
      TypedOctetsParse(v.octets, lib);
    } else {
      TypedOpaqueParse(v.octets, lib);
    }
  }

  lemma TypedTextParse(v: Value, lib: Library)
    requires v.ObjectIdentifier? || v.IpAddress?
    ensures ParsedBack(v, lib) == Ok(v) <==> Replayable(v)
  {
    match v
    case ObjectIdentifier(oid) => CoerceOidOfText(oid, lib.resolve);
    case IpAddress(address) => StripFixedPoints(address);
  }

  lemma TypedParse(v: Value, lib: Library)
    ensures ParsedBack(v, lib) == Ok(v) <==> Replayable(v)
  {
    if v.OctetString? || v.Opaque? {
      TypedBytesParse(v, lib);
    } else if v.ObjectIdentifier? || v.IpAddress? {
      TypedTextParse(v, lib);
    }
  }

  /** Recording a value and replaying it yields the same value exactly when it is replayable. */
  lemma ValueReplaysExactlyWhen(v: Value, lib: Library)
    ensures ReplayValue(JObj(SerializeValue(v, lib)), lib) == Ok(v) <==> Replayable(v)
  {
    RecordedValueInput(v, lib);
    ReplayedInputParse(v, lib);
    TypedParse(v, lib);
  }

  /* ---- events ---- */

  datatype Input = Input(target: string, value: map<string, Json>)

  function SerializeVarbind(v: Varbind, lib: Library): Json {
    JObj(map[
      "oid" := JStr(OidToStr(v.oid)),
      "symbolic" := lib.symbolic(v.oid),
      "value" := JObj(SerializeValue(v.value, lib))])
  }

  function SerializeVarbinds(vs: seq<Varbind>, lib: Library): (r: seq<Json>)
    ensures |r| == |vs|
  {
    if vs == [] then [] else [SerializeVarbind(vs[0], lib)] + SerializeVarbinds(vs[1..], lib)
  }

  function RecordEvent(direction: string, vs: seq<Varbind>, lib: Library): map<string, Json> {
    map["direction" := JStr(direction), "varbinds" := JArr(SerializeVarbinds(vs, lib))]
  }

  /** Only an event recorded as sent is replayed with every varbind. */
  predicate KeepsAll(event: map<string, Json>) {
    var d := Get(event, "direction");
    d.JStr? && Lower(Strip(d.s)) == "sent"
  }

  predicate AutoOid(oid: Oid) {
    oid == SYS_UPTIME || oid == SNMP_TRAP_OID
  }

  predicate IsAutoTarget(target: string) {
    var r := CoerceOid(JStr(target), _ => None);
    r.Ok? && AutoOid(r.value)
  }

  /** One stored varbind: skipped, refused, or turned into an input. */
  function ReplayItem(item: Json, keepsAll: bool): Result<Option<Input>> {
    if !item.JObj? then Err("Stored notification event has an invalid varbind payload.")
    else
      var target := Or(Get(item.fields, "oid"), Get(item.fields, "symbolic"));
      if !NonBlank(target) then Err("Stored notification event is missing a varbind target.")
      else if !keepsAll && IsAutoTarget(target.s) then Ok(None)
      else
        match ReplayValueInput(Get(item.fields, "value"))
        case Err(e) => Err(e)
        case Ok(value) => Ok(Some(Input(Strip(target.s), value)))
  }

  function ItemStep(keepsAll: bool): Json -> Result<Option<Input>> {
    item => ReplayItem(item, keepsAll)
  }

  function ReplayInputs(event: map<string, Json>): Result<seq<Input>> {
    match Get(event, "varbinds")
    case JNull => Ok([])
    case JArr(items) => Collect(items, ItemStep(KeepsAll(event)))
    case _ => Err("Stored notification event has an invalid varbind payload.")
  }

  method ReplayVarbindInputs(event: map<string, Json>) returns (r: Result<seq<Input>>)
    ensures r == ReplayInputs(event)
  {
    var raw := Get(event, "varbinds");
    match raw {
      case JNull => r := Ok([]);
      case JArr(items) => r := CollectLoop(items, ItemStep(KeepsAll(event)));
      case _ => r := Err("Stored notification event has an invalid varbind payload.");
    }
  }

  /** One input on its way out again: target, value, declared constraints. */
  function ParseInput(input: Input, lib: Library): Result<Varbind> {
    if Strip(input.target) == [] then Err("target must contain a non-empty OID or symbolic target")
    else
      match (CoerceOid(JStr(Strip(input.target)), lib.resolve), ParseValueSpec(input.value, lib))
      case (Ok(oid), Ok(value)) =>
        if lib.accepts(oid, value) then Ok(Varbind(oid, value)) else Err("value is outside the declared constraints")
      case (Err(e), _) => Err(e)
      case (_, Err(e)) => Err(e)
  }

  function InputParse(lib: Library): Input -> Result<Varbind> {
    input => ParseInput(input, lib)
  }

  function Replay(event: map<string, Json>, lib: Library): Result<seq<Varbind>> {
    match ReplayInputs(event)
    case Err(e) => Err(e)
    case Ok(inputs) => ParseAll(inputs, InputParse(lib))
  }

  /** The varbinds a replay is meant to resend, and those that can be resent. */
  function KeepTest(keepsAll: bool): Varbind -> bool {
    (v: Varbind) => keepsAll || !AutoOid(v.oid)
  }

  function ResendTest(lib: Library): Varbind -> bool {
    (v: Varbind) => Replayable(v.value) && lib.accepts(v.oid, v.value)
  }

  lemma {:induction false} SerializeVarbindsAt(vs: seq<Varbind>, lib: Library, k: nat)
    requires k < |vs|
    ensures SerializeVarbinds(vs, lib)[k] == SerializeVarbind(vs[k], lib)
  {
    if k > 0 {
      SerializeVarbindsAt(vs[1..], lib, k - 1);
    }
  }

  lemma AutoTargetOfText(oid: Oid)
    requires oid != []
    ensures IsAutoTarget(OidToStr(oid)) <==> AutoOid(oid)
  {
    CoerceOidOfText(oid, _ => None);
    OidTextShape(oid);
    OidRoundTrip(oid);
    StripFixedPoints(OidToStr(oid));
    assert !HasDoubleColon(OidToStr(oid));
  }

  /** The input made from a recorded varbind. */
  lemma RecordedItem(v: Varbind, keepsAll: bool, lib: Library)
    requires v.oid != []
    ensures ReplayItem(SerializeVarbind(v, lib), keepsAll) ==
      if keepsAll || !AutoOid(v.oid) then Ok(Some(Input(OidToStr(v.oid), ReplayedInput(v.value, lib)))) else Ok(None)
  {
    var item := SerializeVarbind(v, lib);
    CoerceOidOfText(v.oid, lib.resolve);
    AutoTargetOfText(v.oid);
    RecordedValueInput(v.value, lib);
    assert Get(item.fields, "oid") == JStr(OidToStr(v.oid));
    assert Get(item.fields, "value") == JObj(SerializeValue(v.value, lib));
  }

  /** Parsing that input gives the varbind back exactly when it can be resent. */
  lemma RecordedInputParse(v: Varbind, lib: Library)
    requires v.oid != []
    ensures ParseInput(Input(OidToStr(v.oid), ReplayedInput(v.value, lib)), lib) == Ok(v) <==>
      Replayable(v.value) && lib.accepts(v.oid, v.value)
  {
    CoerceOidOfText(v.oid, lib.resolve);
    ReplayedInputParse(v.value, lib);
    TypedParse(v.value, lib);
  }

  lemma RecordedEventInputs(direction: string, vs: seq<Varbind>, lib: Library)
    ensures ReplayInputs(RecordEvent(direction, vs, lib)) ==
      Collect(SerializeVarbinds(vs, lib), ItemStep(Lower(Strip(direction)) == "sent"))
  {
    var event := RecordEvent(direction, vs, lib);
    assert Get(event, "varbinds") == JArr(SerializeVarbinds(vs, lib));
    assert Get(event, "direction") == JStr(direction);
    assert KeepsAll(event) == (Lower(Strip(direction)) == "sent");
  }

  lemma ItemsReplay(vs: seq<Varbind>, items: seq<Json>, keepsAll: bool, lib: Library)
    requires items == SerializeVarbinds(vs, lib)
    requires forall k | 0 <= k < |vs| :: vs[k].oid != []
    ensures Collect(items, ItemStep(keepsAll)).Ok?
    ensures ParseAll(Collect(items, ItemStep(keepsAll)).value, InputParse(lib)) == Ok(Filter(vs, KeepTest(keepsAll))) <==>
      forall k | 0 <= k < |vs| && KeepTest(keepsAll)(vs[k]) :: ResendTest(lib)(vs[k])
  {
    forall k | 0 <= k < |vs|
      ensures ItemStep(keepsAll)(items[k]) == if KeepTest(keepsAll)(vs[k])
        then Ok(Some(Input(OidToStr(vs[k].oid), ReplayedInput(vs[k].value, lib)))) else Ok(None)
      ensures InputParse(lib)(Input(OidToStr(vs[k].oid), ReplayedInput(vs[k].value, lib))) == Ok(vs[k]) <==>
        ResendTest(lib)(vs[k])
    {
      SerializeVarbindsAt(vs, lib, k);
      RecordedItem(vs[k], keepsAll, lib);
      RecordedInputParse(vs[k], lib);
    }
    CollectThenParse(vs, items, ItemStep(keepsAll), InputParse(lib), KeepTest(keepsAll), ResendTest(lib));
  }

  /** Replaying a recorded event resends the same OIDs and values in order: all of them for a sent
      event, exactly the non-automatic ones otherwise. It does so exactly when each of those is
      replayable and still satisfies the declared constraints. */
  lemma ReplayResendsRecordedVarbinds(direction: string, vs: seq<Varbind>, lib: Library)
    requires forall k | 0 <= k < |vs| :: vs[k].oid != []
    ensures var keep := KeepTest(Lower(Strip(direction)) == "sent");
      Replay(RecordEvent(direction, vs, lib), lib) == Ok(Filter(vs, keep)) <==>
        forall k | 0 <= k < |vs| && keep(vs[k]) :: ResendTest(lib)(vs[k])
  {
    RecordedEventInputs(direction, vs, lib);
    ItemsReplay(vs, SerializeVarbinds(vs, lib), Lower(Strip(direction)) == "sent", lib);
  }

  /** A sent event keeps every varbind; another keeps each non-automatic one as often as it occurs. */
  lemma KeptVarbinds(vs: seq<Varbind>)
    ensures Filter(vs, KeepTest(true)) == vs
    ensures var kept := Filter(vs, KeepTest(false));
      && (forall v :: v in kept ==> v.oid != [1, 3, 6, 1, 2, 1, 1, 3, 0] && v.oid != [1, 3, 6, 1, 6, 3, 1, 1, 4, 1, 0])
      && (forall v: Varbind | v.oid != [1, 3, 6, 1, 2, 1, 1, 3, 0] && v.oid != [1, 3, 6, 1, 6, 3, 1, 1, 4, 1, 0] ::
            multiset(kept)[v] == multiset(vs)[v])
  {
    FilterAll(vs, KeepTest(true));
    FilterMembers(vs, KeepTest(false));
  }

  /* ---- other inputs the parser meets ---- */

  /** The other names under which a type may be written. */
  lemma TextAliases()
    ensures Alias("string") == Alias("octets") == Alias("octet_string") == Alias("octetstring") == "octet-string"
    ensures Alias("ip") == Alias("ipaddress") == "ip-address"
  {}

  lemma OidAliases()
    ensures Alias("oid") == Alias("object_identifier") == Alias("objectidentifier") == "object-identifier"
  {}

  lemma NumberAliases()
    ensures Alias("int") == Alias("integer32") == "integer"
    ensures Alias("counter") == "counter32" && Alias("gauge") == "gauge32"
  {}

  lemma TicksAliases()
    ensures Alias("time-ticks") == Alias("ticks") == "timeticks"
  {}

  lemma PrefixedIsTrimmed(t: string)
    requires HexText(t)
    ensures Strip("0x" + t) == "0x" + t
  {
    assert t != [] ==> HexValue(t[|t| - 1]).Some?;
    assert ("0x" + t)[|t| + 1] == if t == [] then 'x' else t[|t| - 1];
    StripFixedPoints("0x" + t);
  }

  lemma DropSpacesOfPrefixed(t: string)
    requires DropSpaces(t) == t
    ensures DropSpaces("0x" + t) == "0x" + t
  {
    assert ("0x" + t)[1..] == "x" + t && ("x" + t)[1..] == t;
    assert DropSpaces("x" + t) == ['x'] + DropSpaces(t);
    assert DropSpaces("0x" + t) == ['0'] + DropSpaces("x" + t);
  }

  /** A leading 0x is dropped from hexadecimal text. */
  lemma PrefixedHex(octets: seq<Byte>)
    ensures DecodeHex("0x" + ToHex(octets)) == Some(octets)
  {
    var t := ToHex(octets);
    HexRoundTrip(octets);
    ToHexIsHexText(octets);
    HexTextIsPlain(t);
    PrefixedIsTrimmed(t);
    DropSpacesOfPrefixed(t);
    assert ("0x" + t)[2..] == t;
  }

  /** A digit pair is sixteen times the first plus the second, in small or capital letters. */
  lemma HexDigitValues(c: char)
    ensures '0' <= c <= '9' ==> HexValue(c) == Some(c as int - '0' as int)
    ensures c in "abcdef" ==> HexValue(c) == Some(c as int - 'a' as int + 10)
    ensures c in "ABCDEF" ==> HexValue(c) == Some(c as int - 'A' as int + 10)
    ensures !('0' <= c <= '9') && c !in "abcdef" && c !in "ABCDEF" ==> HexValue(c) == None
  {}

  /** An array of integers is an OID as it stands; true and false count as 1 and 0. */
  lemma {:induction false} OidOfIntegers(oid: Oid, items: seq<Json>, resolve: string -> Option<Oid>)
    requires |items| == |oid|
    requires forall k | 0 <= k < |oid| ::
      items[k] == JInt(oid[k]) || (oid[k] == 1 && items[k] == JBool(true)) || (oid[k] == 0 && items[k] == JBool(false))
    ensures CoerceOid(JArr(items), resolve) == Ok(oid)
  {
    if oid != [] {
      OidOfIntegers(oid[1..], items[1..], resolve);
      assert oid == [oid[0]] + oid[1..];
    }
  }

  /** A recorded opaque value without its hex text is refused. */
  lemma OpaqueNeedsHex(fields: map<string, Json>)
    requires Get(fields, "type") == JStr("opaque") && !Get(fields, "hex").JStr?
    ensures ReplayValueInput(JObj(fields)).Err?
  {
    BasicNameIsCanonical(Opaque([]));
  }

  lemma TextIsKept(fields: map<string, Json>)
    requires Get(fields, "type") == JStr("octet-string") && !Get(fields, "hex").JStr? && "value" in fields
    ensures ReplayValueInput(JObj(fields)) == Ok(map["type" := JStr("octet-string"), "value" := fields["value"]])
  {
    BasicNameIsCanonical(OctetString([]));
  }

  lemma TextIsEncoded(spec: map<string, Json>, lib: Library)
    requires Get(spec, "type") == JStr("octet-string") && Get(spec, "encoding") == JNull && Get(spec, "value").JStr?
    ensures ParseValueSpec(spec, lib) == Ok(OctetString(Utf8(Get(spec, "value").s)))
  {
    BasicNameIsCanonical(OctetString([]));
  }

  /** A recorded string without its hex text is resent as the UTF-8 bytes of its text. */
  lemma TextWithoutHex(fields: map<string, Json>, text: string, lib: Library)
    requires Get(fields, "type") == JStr("octet-string") && !Get(fields, "hex").JStr? && Get(fields, "value") == JStr(text)
    ensures ReplayValue(JObj(fields), lib) == Ok(OctetString(Utf8(text)))
  {
    var spec := map["type" := JStr("octet-string"), "value" := fields["value"]];
    TextIsKept(fields);
    TextIsEncoded(spec, lib);
  }

  /** The value recorded beside the null type is ignored. */
  lemma NullIgnoresValue(value: Json, lib: Library)
    ensures ReplayValue(JObj(map["type" := JStr("null"), "value" := value]), lib) == Ok(Null)
  {
    var fields := map["type" := JStr("null"), "value" := value];
    BasicNameIsCanonical(Null);
    assert ReplayValueInput(JObj(fields)) == Ok(fields);
  }

  /** What is resent goes to a stripped, non-blank target. */
  lemma TargetsAreStripped(item: Json, keepsAll: bool)
    requires ReplayItem(item, keepsAll).Ok? && ReplayItem(item, keepsAll).value.Some?
    ensures ReplayItem(item, keepsAll).value.value.target != [] && Trimmed(ReplayItem(item, keepsAll).value.value.target)
  {
    StripFixedPoints(Or(Get(item.fields, "oid"), Get(item.fields, "symbolic")).s);
  }

  /** An event without varbinds replays as none; anything but a list of objects is refused. */
  lemma MalformedEvents(event: map<string, Json>)
    ensures "varbinds" !in event ==> ReplayInputs(event) == Ok([])
    ensures "varbinds" in event && !event["varbinds"].JNull? && !event["varbinds"].JArr? ==> ReplayInputs(event).Err?
  {}

  /** One bad item refuses the whole event: an item that is no object, or that has neither an OID nor
      a symbolic name, or, when it is kept, no value type. */
  lemma {:induction false} BadItemRefusesEvent(items: seq<Json>, k: nat, keepsAll: bool)
    requires k < |items| && ReplayItem(items[k], keepsAll).Err?
    ensures Collect(items, ItemStep(keepsAll)).Err?
  {
    if k < |items| - 1 {
      BadItemRefusesEvent(items[..|items| - 1], k, keepsAll);
    }
  }

  lemma BadItems(fields: map<string, Json>, j: Json, keepsAll: bool)
    ensures !j.JObj? ==> ReplayItem(j, keepsAll).Err?
    ensures "oid" !in fields && "symbolic" !in fields ==> ReplayItem(JObj(fields), keepsAll).Err?
    ensures keepsAll && "value" !in fields ==> ReplayItem(JObj(fields), keepsAll).Err?
  {}

  /** Without an OID the symbolic name is the target. */
  lemma SymbolicTarget(name: string, value: map<string, Json>, lib: Library)
    requires Trimmed(name) && name != []
    ensures var item := JObj(map["symbolic" := JStr(name), "value" := JObj(value)]);
      ReplayItem(item, true) ==
        match ReplayValueInput(JObj(value)) case Err(e) => Err(e) case Ok(spec) => Ok(Some(Input(name, spec)))
  {
    var fields := map["symbolic" := JStr(name), "value" := JObj(value)];
    StripFixedPoints(name);
    assert Get(fields, "oid") == JNull && Get(fields, "symbolic") == JStr(name) && Get(fields, "value") == JObj(value);
  }
}
