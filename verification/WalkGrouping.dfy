/** Grouping a walk into rows: decoding instance indexes and keying rows by their owner. */
module WalkGrouping {
  import opened Text
  import opened Lists
  import opened NotificationReplay
  import opened Utf8Text
  import opened Grouping

  datatype IndexKind = IntegerIndex | StringIndex | Undecodable

  /** Bytes to text; the service's own is DecodeUtf8, with replacement characters. */
  type Decoder = seq<Byte> -> string

  /* ---- index syntaxes ---- */

  const INTEGER_MARKERS: seq<string> :=
    ["integer", "interfaceindex", "rowstatus", "truthvalue", "counter", "gauge", "timeticks"]
  const STRING_MARKERS: seq<string> :=
    ["octetstring", "displaystring", "snmpadminstring", "physaddress", "macaddress", "datandtime",
     "printablestring", "ia5string", "utf8string", "string"]

  function NotOneOf(drop: set<char>): char -> bool {
    (c: char) => c !in drop
  }

  function Without(s: string, drop: set<char>): string {
    Filter(s, NotOneOf(drop))
  }

  predicate HasMarker(syntax: string, markers: seq<string>) {
    var normalized := Without(Lower(syntax), {'-', ' '});
    exists k, i | 0 <= k < |markers| && 0 <= i <= |normalized| :: markers[k] <= normalized[i..]
  }

  function KindOfSyntax(syntax: string): IndexKind {
    if HasMarker(syntax, INTEGER_MARKERS) then IntegerIndex
    else if HasMarker(syntax, STRING_MARKERS) then StringIndex
    else Undecodable
  }

  /* ---- the kinds of common syntaxes ---- */

  /** A syntax without dashes or blanks, in lower case. */
  lemma PlainNormalized(syntax: string, t: string)
    requires |t| == |syntax| && forall i | 0 <= i < |t| :: LowerChar(syntax[i]) == t[i] && t[i] != '-' && t[i] != ' '
    ensures Without(Lower(syntax), {'-', ' '}) == t
  {
    assert Lower(syntax) == t;
    FilterAll(t, NotOneOf({'-', ' '}));
  }

  predicate Occurs(marker: string, text: string) {
    exists i | 0 <= i <= |text| :: marker <= text[i..]
  }

  lemma Absent(marker: string, text: string)
    requires |marker| >= 2
    requires forall i | 0 <= i && i + |marker| <= |text| :: text[i] != marker[0] || text[i + 1] != marker[1]
    ensures !Occurs(marker, text)
  {
    forall i | 0 <= i <= |text| ensures !(marker <= text[i..]) {
      assert i + 1 < |text| ==> text[i..][0] == text[i] && text[i..][1] == text[i + 1];
    }
  }

  predicate NoneOccurs(markers: seq<string>, text: string) {
    forall k | 0 <= k < |markers| :: !Occurs(markers[k], text)
  }

  lemma MarkersByText(syntax: string, t: string, markers: seq<string>)
    requires Without(Lower(syntax), {'-', ' '}) == t
    ensures HasMarker(syntax, markers) <==> !NoneOccurs(markers, t)
  {
    if HasMarker(syntax, markers) {
      var k, i :| 0 <= k < |markers| && 0 <= i <= |t| && markers[k] <= t[i..];
      assert Occurs(markers[k], t);
    }
    if k :| 0 <= k < |markers| && Occurs(markers[k], t) {
      var i :| 0 <= i <= |t| && markers[k] <= t[i..];
      assert 0 <= k < |markers| && 0 <= i <= |t| && markers[k] <= t[i..];
    }
  }

  lemma NoIntegerMarkers(text: string)
    requires text == "displaystring" || text == "octetstring" || text == "ipaddress" || text == "unsigned32"
    ensures NoneOccurs(INTEGER_MARKERS, text)
  {
    forall k | 0 <= k < |INTEGER_MARKERS| ensures !Occurs(INTEGER_MARKERS[k], text) {
      Absent(INTEGER_MARKERS[k], text);
    }
  }

  lemma NoStringMarkers(text: string)
    requires text == "ipaddress" || text == "unsigned32"
    ensures NoneOccurs(STRING_MARKERS, text)
  {
    forall k | 0 <= k < |STRING_MARKERS| ensures !Occurs(STRING_MARKERS[k], text) {
      Absent(STRING_MARKERS[k], text);
    }
  }

  lemma IntegerSyntaxes()
    ensures KindOfSyntax("Integer32") == KindOfSyntax("INTEGER") == KindOfSyntax("InterfaceIndex") == IntegerIndex
  {
    PlainNormalized("Integer32", "integer32");
    PlainNormalized("INTEGER", "integer");
    PlainNormalized("InterfaceIndex", "interfaceindex");
    assert INTEGER_MARKERS[0] <= "integer32"[0..] && INTEGER_MARKERS[0] <= "integer"[0..];
    assert INTEGER_MARKERS[1] <= "interfaceindex"[0..];
  }

  lemma NumericSyntaxes()
    ensures KindOfSyntax("Counter32") == KindOfSyntax("Gauge32") == KindOfSyntax("TimeTicks") == IntegerIndex
    ensures KindOfSyntax("RowStatus") == KindOfSyntax("TruthValue") == IntegerIndex
  {
    PlainNormalized("Counter32", "counter32");
    PlainNormalized("Gauge32", "gauge32");
    PlainNormalized("TimeTicks", "timeticks");
    PlainNormalized("RowStatus", "rowstatus");
    PlainNormalized("TruthValue", "truthvalue");
    assert INTEGER_MARKERS[2] <= "rowstatus"[0..] && INTEGER_MARKERS[3] <= "truthvalue"[0..];
    assert INTEGER_MARKERS[4] <= "counter32"[0..] && INTEGER_MARKERS[5] <= "gauge32"[0..];
    assert INTEGER_MARKERS[6] <= "timeticks"[0..];
  }

  /** One blank between two plain words. */
  lemma TwoWords(a: string, b: string)
    requires forall i | 0 <= i < |a| :: a[i] != '-' && a[i] != ' '
    requires forall i | 0 <= i < |b| :: b[i] != '-' && b[i] != ' '
    ensures Without(a + [' '] + b, {'-', ' '}) == a + b
  {
    var keep := NotOneOf({'-', ' '});
    var front := a + [' '];
    assert Filter(front, keep) == a by {
      FilterAppend(a, ' ', keep);
      FilterAll(a, keep);
      assert a + [] == a;
    }
    assert Filter(b, keep) == b by {
      FilterAll(b, keep);
    }
    FilterConcat(front, b, keep);
  }

  lemma OctetStringNormalized()
    ensures Without(Lower("OCTET STRING"), {'-', ' '}) == "octetstring"
  {
    TwoWords("octet", "string");
    assert "octet" + [' '] + "string" == "octet string" && "octet" + "string" == "octetstring";
    assert Lower("OCTET STRING") == "octet string";
  }

  lemma StringSyntaxes()
    ensures KindOfSyntax("DisplayString") == KindOfSyntax("OCTET STRING") == StringIndex
  {
    PlainNormalized("DisplayString", "displaystring");
    OctetStringNormalized();
    MarkersByText("DisplayString", "displaystring", INTEGER_MARKERS);
    MarkersByText("OCTET STRING", "octetstring", INTEGER_MARKERS);
    NoIntegerMarkers("displaystring");
    NoIntegerMarkers("octetstring");
    assert STRING_MARKERS[1] <= "displaystring"[0..] && STRING_MARKERS[0] <= "octetstring"[0..];
  }

  lemma MisspeltDate()
    ensures !Occurs("datandtime", "dateandtime")
  {
    var marker, text := "datandtime", "dateandtime";
    forall i | 0 <= i <= |text| ensures !(marker <= text[i..]) {
      assert i == 0 ==> text[i..][3] == 'e';
      assert i == 1 ==> text[i..][0] == 'a';
    }
  }

  /** The marker meant for DateAndTime lacks a letter. */
  lemma DateAndTimeHasNoMarker()
    ensures NoneOccurs(INTEGER_MARKERS, "dateandtime") && NoneOccurs(STRING_MARKERS, "dateandtime")
  {
    var text := "dateandtime";
    forall k | 0 <= k < |INTEGER_MARKERS| ensures !Occurs(INTEGER_MARKERS[k], text) {
      Absent(INTEGER_MARKERS[k], text);
    }
    forall k | 0 <= k < |STRING_MARKERS| ensures !Occurs(STRING_MARKERS[k], text) {
      if k == 5 {
        MisspeltDate();
      } else {
        Absent(STRING_MARKERS[k], text);
      }
    }
  }

  lemma IpAddressIsUnknown()
    ensures KindOfSyntax("IpAddress") == Undecodable
  {
    PlainNormalized("IpAddress", "ipaddress");
    MarkersByText("IpAddress", "ipaddress", INTEGER_MARKERS);
    MarkersByText("IpAddress", "ipaddress", STRING_MARKERS);
    NoIntegerMarkers("ipaddress");
    NoStringMarkers("ipaddress");
  }

  lemma Unsigned32IsUnknown()
    ensures KindOfSyntax("Unsigned32") == Undecodable
  {
    PlainNormalized("Unsigned32", "unsigned32");
    MarkersByText("Unsigned32", "unsigned32", INTEGER_MARKERS);
    MarkersByText("Unsigned32", "unsigned32", STRING_MARKERS);
    NoIntegerMarkers("unsigned32");
    NoStringMarkers("unsigned32");
  }

  lemma DateAndTimeIsUnknown()
    ensures KindOfSyntax("DateAndTime") == Undecodable
  {
    PlainNormalized("DateAndTime", "dateandtime");
    MarkersByText("DateAndTime", "dateandtime", INTEGER_MARKERS);
    MarkersByText("DateAndTime", "dateandtime", STRING_MARKERS);
    DateAndTimeHasNoMarker();
  }

  /* ---- decoding a suffix ---- */

  predicate AreBytes(suffix: Oid) {
    forall k | 0 <= k < |suffix| :: 0 <= suffix[k] < 256
  }

  function ToBytes(suffix: Oid): (r: seq<Byte>)
    requires AreBytes(suffix)
    ensures |r| == |suffix| && forall k | 0 <= k < |r| :: r[k] == suffix[k]
  {
    seq(|suffix|, k requires 0 <= k < |suffix| => suffix[k])
  }

  function TextOf(suffix: Oid, decode: Decoder): string
    requires AreBytes(suffix)
  {
    if suffix == [] then "" else decode(ToBytes(suffix))
  }

  /** Integer columns take one arc each; a string column takes everything that is left. */
  function DecodeSuffix(suffix: Oid, columns: seq<IndexKind>, decode: Decoder): Option<seq<string>>
    decreases columns
  {
    if columns == [] then (if suffix == [] then Some([]) else None)
    else
      match columns[0]
      case Undecodable => None
      case IntegerIndex =>
        if suffix == [] then None
        else (match DecodeSuffix(suffix[1..], columns[1..], decode)
              case None => None
              case Some(rest) => Some([IntToString(suffix[0])] + rest))
      case StringIndex =>
        if !AreBytes(suffix) then None
        else (match DecodeSuffix([], columns[1..], decode)
              case None => None
              case Some(rest) => Some([TextOf(suffix, decode)] + rest))
  }

  /** The numbers in a dotted text; empty parts are skipped. */
  function InstanceParts(text: string): Option<Oid> {
    match ParseParts(Filter(Split(DropDots(Strip(text)), '.'), (p: string) => p != []))
    case Ok(oid) => Some(oid)
    case Err(_) => None
  }

  function DecodeIndex(text: string, column: Oid, columns: seq<IndexKind>, decode: Decoder): Option<string> {
    match InstanceParts(text)
    case None => None
    case Some(parts) =>
      if !(column < parts) then None
      else
        match DecodeSuffix(parts[|column|..], columns, decode)
        case None => None
        case Some(decoded) => Some(Join(decoded, '.'))
  }

  function Prepend(front: seq<string>, rest: Option<seq<string>>): Option<seq<string>> {
    match rest case None => None case Some(r) => Some(front + r)
  }

  lemma PrependOne(front: seq<string>, s: string, rest: Option<seq<string>>)
    ensures Prepend(front, Prepend([s], rest)) == Prepend(front + [s], rest)
  {
    if rest.Some? {
      assert front + ([s] + rest.value) == front + [s] + rest.value;
    }
  }

  /** The loop over the index columns, moving a position through the suffix. */
  method DecodeColumns(suffix: Oid, columns: seq<IndexKind>, decode: Decoder) returns (r: Option<seq<string>>)
    ensures r == DecodeSuffix(suffix, columns, decode)
  {
    var decoded: seq<string>, position := [], 0;
    ghost var goal := DecodeSuffix(suffix, columns, decode);
    assert suffix[0..] == suffix && columns[0..] == columns;
    assert goal.Some? ==> [] + goal.value == goal.value;
    for i := 0 to |columns|
      invariant 0 <= position <= |suffix|
      invariant goal == Prepend(decoded, DecodeSuffix(suffix[position..], columns[i..], decode))
    {
      assert columns[i..][0] == columns[i] && columns[i..][1..] == columns[i + 1..];
      match columns[i] {
        case IntegerIndex =>
          if position >= |suffix| {
            return None;
          }
          assert suffix[position..][1..] == suffix[position + 1..];
          PrependOne(decoded, IntToString(suffix[position]), DecodeSuffix(suffix[position + 1..], columns[i + 1..], decode));
          decoded := decoded + [IntToString(suffix[position])];
          position := position + 1;
        case Undecodable =>
          return None;
        case StringIndex =>
          var remaining := suffix[position..];
          position := |suffix|;
          if !AreBytes(remaining) {
            return None;
          }
          PrependOne(decoded, TextOf(remaining, decode), DecodeSuffix([], columns[i + 1..], decode));
          decoded := decoded + [TextOf(remaining, decode)];
      }
    }
    assert columns[|columns|..] == [] && decoded + [] == decoded;
    if position != |suffix| {
      return None;
    }
    r := Some(decoded);
  }

  method DecodeInstanceIndex(text: string, column: Oid, columns: seq<IndexKind>, decode: Decoder)
    returns (r: Option<string>)
    ensures r == DecodeIndex(text, column, columns, decode)
  {
    var parsed := InstanceParts(text);
    if parsed.None? {
      return None;
    }
    var parts := parsed.value;
    if |parts| <= |column| || parts[..|column|] != column {
      return None;
    }
    var decoded := DecodeColumns(parts[|column|..], columns, decode);
    r := if decoded.Some? then Some(Join(decoded.value, '.')) else None;
  }

  /* ---- when decoding succeeds ---- */

  lemma {:induction false} FilterKeepsNonEmpty(parts: seq<string>)
    requires forall k | 0 <= k < |parts| :: parts[k] != []
    ensures Filter(parts, (p: string) => p != []) == parts
  {
    FilterAll(parts, (p: string) => p != []);
  }

  /** The dotted text that the runtime prints for an OID reads back as that OID. */
  lemma InstancePartsOfText(oid: Oid)
    requires oid != []
    ensures InstanceParts(OidToStr(oid)) == Some(oid)
  {
    OidTextParts(oid);
    FilterKeepsNonEmpty(Decimals(oid));
    ParsePartsOfDecimals(oid);
  }

  /** The shape a suffix must have: one arc per integer column; from the first string column on,
      any bytes, provided no further integer or unknown column follows. */
  predicate Fits(suffix: Oid, columns: seq<IndexKind>) {
    if columns == [] then suffix == []
    else match columns[0]
      case Undecodable => false
      case IntegerIndex => suffix != [] && Fits(suffix[1..], columns[1..])
      case StringIndex => AreBytes(suffix) && forall k | 1 <= k < |columns| :: columns[k] == StringIndex
  }

  lemma {:induction false} EmptyTailDecodes(columns: seq<IndexKind>, decode: Decoder)
    ensures DecodeSuffix([], columns, decode).Some? <==> forall k | 0 <= k < |columns| :: columns[k] == StringIndex
    ensures DecodeSuffix([], columns, decode).Some? ==>
      DecodeSuffix([], columns, decode).value == seq(|columns|, _ => "")
  {
    if columns != [] {
      EmptyTailDecodes(columns[1..], decode);
      assert forall k | 1 <= k < |columns| :: columns[k] == columns[1..][k - 1];
    }
  }

  lemma {:induction false} DecodeSucceedsExactlyWhen(suffix: Oid, columns: seq<IndexKind>, decode: Decoder)
    ensures DecodeSuffix(suffix, columns, decode).Some? <==> Fits(suffix, columns)
    ensures DecodeSuffix(suffix, columns, decode).Some? ==> |DecodeSuffix(suffix, columns, decode).value| == |columns|
  {
    if columns != [] {
      match columns[0]
      case Undecodable =>
      case IntegerIndex =>
        if suffix != [] {
          DecodeSucceedsExactlyWhen(suffix[1..], columns[1..], decode);
        }
      case StringIndex =>
        EmptyTailDecodes(columns[1..], decode);
        assert forall k | 1 <= k < |columns| :: columns[k] == columns[1..][k - 1];
    }
  }

  /** With integer columns only, decoding succeeds exactly with one arc per column, and yields the
      arcs as decimals. */
  lemma {:induction false} IntegerIndexExactlyWhen(suffix: Oid, columns: seq<IndexKind>, decode: Decoder)
    requires forall k | 0 <= k < |columns| :: columns[k] == IntegerIndex
    ensures DecodeSuffix(suffix, columns, decode) == if |suffix| == |columns| then Some(Decimals(suffix)) else None
  {
    if columns != [] && suffix != [] {
      IntegerIndexExactlyWhen(suffix[1..], columns[1..], decode);
      if |suffix| == |columns| {
        assert Decimals(suffix) == [IntToString(suffix[0])] + Decimals(suffix[1..]);
      }
    } else if columns == [] && suffix == [] {
      assert Decimals([]) == [];
    }
  }

  /* ---- different instances have different keys ---- */

  lemma SplitsAtFirst(a: string, b: string, restA: string, restB: string, sep: char)
    requires sep !in a && sep !in b
    requires a + [sep] + restA == b + [sep] + restB
    ensures a == b && restA == restB
  {
    SplitFirst(a, sep, restA);
    SplitFirst(b, sep, restB);
    assert a == Split(a + [sep] + restA, sep)[0] == b;
    assert restA == (a + [sep] + restA)[|a| + 1..] == restB;
  }

  lemma JoinCons(head: string, tail: seq<string>, sep: char)
    requires tail != []
    ensures Join([head] + tail, sep) == head + [sep] + Join(tail, sep)
  {
    assert ([head] + tail)[1..] == tail;
  }

  lemma SameTail(a: string, b: string, tail: string)
    requires a + tail == b + tail
    ensures a == b
  {
    assert |a| == |b|;
    assert a == (a + tail)[..|a|] && b == (b + tail)[..|a|];
  }

  /** Keys whose first column is a number agree exactly when the numbers and the rests do. */
  lemma IntegerColumnKey(a: int, b: int, restA: seq<string>, restB: seq<string>)
    requires |restA| == |restB|
    ensures Join([IntToString(a)] + restA, '.') == Join([IntToString(b)] + restB, '.') <==>
      a == b && Join(restA, '.') == Join(restB, '.')
  {
    IntToStringIsNumberText(a);
    IntToStringIsNumberText(b);
    if restA != [] {
      JoinCons(IntToString(a), restA, '.');
      JoinCons(IntToString(b), restB, '.');
      if Join([IntToString(a)] + restA, '.') == Join([IntToString(b)] + restB, '.') {
        SplitsAtFirst(IntToString(a), IntToString(b), Join(restA, '.'), Join(restB, '.'), '.');
        EqualNumbers(a, b);
      }
    } else {
      assert [IntToString(a)] + restA == [IntToString(a)] && [IntToString(b)] + restB == [IntToString(b)];
      if IntToString(a) == IntToString(b) {
        EqualNumbers(a, b);
      }
    }
  }

  lemma StringColumnKey(a: string, b: string, rest: seq<string>)
    requires Join([a] + rest, '.') == Join([b] + rest, '.')
    ensures a == b
  {
    if rest != [] {
      JoinCons(a, rest, '.');
      JoinCons(b, rest, '.');
      assert a + ['.'] + Join(rest, '.') == a + (['.'] + Join(rest, '.'));
      assert b + ['.'] + Join(rest, '.') == b + (['.'] + Join(rest, '.'));
      SameTail(a, b, ['.'] + Join(rest, '.'));
    } else {
      assert [a] + rest == [a] && [b] + rest == [b];
    }
  }

  /** Both suffixes decode, and to the same printed key. */
  predicate SameKey(a: Oid, b: Oid, columns: seq<IndexKind>, decode: Decoder) {
    && DecodeSuffix(a, columns, decode).Some? && DecodeSuffix(b, columns, decode).Some?
    && Join(DecodeSuffix(a, columns, decode).value, '.') == Join(DecodeSuffix(b, columns, decode).value, '.')
  }

  /** How many integer columns come before the first string column. */
  function LeadingIntegers(columns: seq<IndexKind>): nat {
    if columns != [] && columns[0] == IntegerIndex then 1 + LeadingIntegers(columns[1..]) else 0
  }

  lemma {:induction false} FittingParts(suffix: Oid, columns: seq<IndexKind>)
    requires Fits(suffix, columns)
    ensures LeadingIntegers(columns) <= |suffix| && AreBytes(suffix[LeadingIntegers(columns)..])
  {
    if columns != [] && columns[0] == IntegerIndex {
      FittingParts(suffix[1..], columns[1..]);
      assert suffix[1..][LeadingIntegers(columns[1..])..] == suffix[LeadingIntegers(columns)..];
    }
  }

  function IntegerPart(suffix: Oid, columns: seq<IndexKind>): Oid
    requires Fits(suffix, columns)
  {
    FittingParts(suffix, columns);
    suffix[..LeadingIntegers(columns)]
  }

  /** The text that the arcs behind the integer columns stand for. */
  function TextPart(suffix: Oid, columns: seq<IndexKind>, decode: Decoder): string
    requires Fits(suffix, columns)
  {
    FittingParts(suffix, columns);
    TextOf(suffix[LeadingIntegers(columns)..], decode)
  }

  /** Two suffixes read the same: equal integer arcs, and equal text behind them. */
  predicate SameReading(a: Oid, b: Oid, columns: seq<IndexKind>, decode: Decoder)
    requires Fits(a, columns) && Fits(b, columns)
  {
    IntegerPart(a, columns) == IntegerPart(b, columns) && TextPart(a, columns, decode) == TextPart(b, columns, decode)
  }

  /** The decoding of a suffix under an integer column. */
  lemma IntegerFirst(a: Oid, columns: seq<IndexKind>, decode: Decoder)
    requires columns != [] && columns[0] == IntegerIndex && Fits(a, columns)
    ensures DecodeSuffix(a, columns, decode).Some? && DecodeSuffix(a[1..], columns[1..], decode).Some?
    ensures var rest := DecodeSuffix(a[1..], columns[1..], decode).value;
      DecodeSuffix(a, columns, decode).value == [IntToString(a[0])] + rest && |rest| == |columns| - 1
  {
    DecodeSucceedsExactlyWhen(a[1..], columns[1..], decode);
  }

  lemma IntegerFirstKey(a: Oid, b: Oid, columns: seq<IndexKind>, decode: Decoder)
    requires columns != [] && columns[0] == IntegerIndex && Fits(a, columns) && Fits(b, columns)
    ensures SameKey(a, b, columns, decode) <==> a[0] == b[0] && SameKey(a[1..], b[1..], columns[1..], decode)
  {
    IntegerFirst(a, columns, decode);
    IntegerFirst(b, columns, decode);
    IntegerColumnKey(a[0], b[0], DecodeSuffix(a[1..], columns[1..], decode).value,
      DecodeSuffix(b[1..], columns[1..], decode).value);
  }

  lemma PartsAfterFirst(a: Oid, columns: seq<IndexKind>, decode: Decoder)
    requires columns != [] && columns[0] == IntegerIndex && Fits(a, columns)
    ensures IntegerPart(a, columns) == [a[0]] + IntegerPart(a[1..], columns[1..])
    ensures TextPart(a, columns, decode) == TextPart(a[1..], columns[1..], decode)
  {
    var n := LeadingIntegers(columns[1..]);
    FittingParts(a[1..], columns[1..]);
    assert a[..n + 1] == [a[0]] + a[1..][..n] && a[n + 1..] == a[1..][n..];
  }

  lemma SameCons(x: int, y: int, p: Oid, q: Oid)
    ensures [x] + p == [y] + q <==> x == y && p == q
  {
    if [x] + p == [y] + q {
      assert x == ([x] + p)[0] == y && p == ([x] + p)[1..] == q;
    }
  }

  lemma IntegerFirstReading(a: Oid, b: Oid, columns: seq<IndexKind>, decode: Decoder)
    requires columns != [] && columns[0] == IntegerIndex && Fits(a, columns) && Fits(b, columns)
    ensures SameReading(a, b, columns, decode) <==> a[0] == b[0] && SameReading(a[1..], b[1..], columns[1..], decode)
  {
    PartsAfterFirst(a, columns, decode);
    PartsAfterFirst(b, columns, decode);
    SameCons(a[0], b[0], IntegerPart(a[1..], columns[1..]), IntegerPart(b[1..], columns[1..]));
  }

  lemma TextFirstKey(a: Oid, b: Oid, columns: seq<IndexKind>, decode: Decoder)
    requires columns != [] && columns[0] == StringIndex && Fits(a, columns) && Fits(b, columns)
    ensures SameKey(a, b, columns, decode) <==> SameReading(a, b, columns, decode)
  {
    DecodeSucceedsExactlyWhen(a, columns, decode);
    DecodeSucceedsExactlyWhen(b, columns, decode);
    assert a[0..] == a && b[0..] == b;
    if SameKey(a, b, columns, decode) {
      StringColumnKey(TextOf(a, decode), TextOf(b, decode), DecodeSuffix([], columns[1..], decode).value);
    }
  }

  /** Two instances get the same key exactly when they read the same, whatever the decoder. */
  lemma {:induction false} SameKeyExactlyWhen(a: Oid, b: Oid, columns: seq<IndexKind>, decode: Decoder)
    requires Fits(a, columns) && Fits(b, columns)
    ensures SameKey(a, b, columns, decode) <==> SameReading(a, b, columns, decode)
    decreases columns
  {
    if columns == [] {
      assert a == [] && b == [];
    } else if columns[0] == IntegerIndex {
      IntegerFirstKey(a, b, columns, decode);
      IntegerFirstReading(a, b, columns, decode);
      SameKeyExactlyWhen(a[1..], b[1..], columns[1..], decode);
    } else {
      TextFirstKey(a, b, columns, decode);
    }
  }

  lemma SameText(a: Oid, b: Oid)
    requires AreBytes(a) && AreBytes(b)
    requires TextOf(a, DecodeUtf8) == TextOf(b, DecodeUtf8) && REPLACEMENT !in TextOf(a, DecodeUtf8)
    ensures a == b
  {
    DecodedIsInjective(ToBytes(a), ToBytes(b));
    forall k | 0 <= k < |a| ensures a[k] == b[k] {
      assert ToBytes(a)[k] == ToBytes(b)[k];
    }
  }

  /** The service's key determines the instance unless its text holds a replacement character. */
  lemma IndexKeyIsInjective(a: Oid, b: Oid, columns: seq<IndexKind>)
    requires Fits(a, columns) && Fits(b, columns)
    requires REPLACEMENT !in TextPart(a, columns, DecodeUtf8)
    ensures SameKey(a, b, columns, DecodeUtf8) <==> a == b
  {
    SameKeyExactlyWhen(a, b, columns, DecodeUtf8);
    if SameReading(a, b, columns, DecodeUtf8) {
      FittingParts(a, columns);
      FittingParts(b, columns);
      var n := LeadingIntegers(columns);
      SameText(a[n..], b[n..]);
      assert a == a[..n] + a[n..] && b == b[..n] + b[n..];
    }
  }

  /** Two instances that differ in a byte foreign to UTF-8 get one key. */
  lemma ReplacedBytesCollide(b: Byte, c: Byte)
    requires 0x80 <= b < 0xC2 || b >= 0xF5
    requires 0x80 <= c < 0xC2 || c >= 0xF5
    ensures SameKey([b], [c], [StringIndex], DecodeUtf8)
  {
    assert ToBytes([b]) == [b] && ToBytes([c]) == [c];
    ForeignByteIsReplaced(b);
    ForeignByteIsReplaced(c);
  }

  /* ---- row keys ---- */

  /** The row or scalar that owns a walked object. */
  datatype Owner = Owner(module_: string, symbol: string)

  datatype Context =
    | ScalarContext(owner: Owner)
    | ColumnContext(owner: Owner, column: Oid, columns: seq<IndexKind>)

  datatype NodeKind = ScalarNode | ColumnNode | OtherNode

  datatype NodeInfo = NodeInfo(oid: Oid, kind: NodeKind, index: seq<string>, syntax: string)

  /** What the bundle answers: nodes by name, and the node that owns an OID. */
  datatype Bundle = Bundle(nodes: map<Owner, NodeInfo>, lookup: Oid -> Option<Owner>)

  datatype Reading = Metric(value: int) | Label(text: string)

  /** A resolved label and the index its text suggests. */
  datatype Walked = Walked(name: Owner, tail: string, oidText: string, reading: Reading)

  function IndexColumns(bundle: Bundle, module_: string, names: seq<string>): Option<seq<IndexKind>> {
    if names == [] then Some([])
    else if Owner(module_, names[0]) !in bundle.nodes then None
    else
      match IndexColumns(bundle, module_, names[1..])
      case None => None
      case Some(rest) => Some([KindOfSyntax(bundle.nodes[Owner(module_, names[0])].syntax)] + rest)
  }

  function IndexContext(bundle: Bundle, name: Owner): Option<Context> {
    if name !in bundle.nodes || |bundle.nodes[name].oid| < 2 then None
    else
      var node := bundle.nodes[name];
      match node.kind
      case ScalarNode => Some(ScalarContext(name))
      case OtherNode => None
      case ColumnNode =>
        match bundle.lookup(node.oid[..|node.oid| - 1])
        case None => None
        case Some(row) =>
          if row !in bundle.nodes || bundle.nodes[row].index == [] then None
          else
            match IndexColumns(bundle, row.module_, bundle.nodes[row].index)
            case None => None
            case Some(columns) => Some(ColumnContext(row, node.oid, columns))
  }

  function OwnerKey(o: Owner): string {
    o.module_ + "::" + o.symbol
  }

  /** The index shown and used in the row key: decoded when the context allows it. */
  function IndexKey(v: Walked, c: Context, decode: Decoder): string {
    if c.ColumnContext? && v.oidText != [] then
      (match DecodeIndex(v.oidText, c.column, c.columns, decode)
       case Some(index) => index
       case None => v.tail)
    else v.tail
  }

  function ShownIndex(index: string): string {
    if Strip(index) == [] then "0" else Strip(index)
  }

  /** The key of the output row of a walked varbind. */
  function RowKey(v: Walked, context: Option<Context>, decode: Decoder): string {
    match context
    case None => ShownIndex(v.tail)
    case Some(c) => OwnerKey(c.owner) + "|" + IndexKey(v, c, decode)
  }

  /** MIB names hold letters, digits and hyphens. */
  predicate MibName(s: string) {
    forall i | 0 <= i < |s| :: s[i] != ':' && s[i] != '|'
  }

  predicate CleanOwner(o: Owner) {
    MibName(o.module_) && MibName(o.symbol)
  }

  lemma OwnerKeyShape(o: Owner)
    requires CleanOwner(o)
    ensures '|' !in OwnerKey(o)
  {}

  lemma OwnerKeyIsInjective(a: Owner, b: Owner)
    requires CleanOwner(a) && CleanOwner(b) && OwnerKey(a) == OwnerKey(b)
    ensures a == b
  {
    assert OwnerKey(a) == a.module_ + [':'] + (":" + a.symbol);
    assert OwnerKey(b) == b.module_ + [':'] + (":" + b.symbol);
    SplitsAtFirst(a.module_, b.module_, ":" + a.symbol, ":" + b.symbol, ':');
    assert a.symbol == (":" + a.symbol)[1..] == (":" + b.symbol)[1..] == b.symbol;
  }

  /** Two resolved varbinds share an output row exactly when they have the same owning row or scalar
      and the same index key. */
  lemma SameRowExactlyWhen(v: Walked, w: Walked, c: Context, d: Context, decode: Decoder)
    requires CleanOwner(c.owner) && CleanOwner(d.owner)
    ensures RowKey(v, Some(c), decode) == RowKey(w, Some(d), decode) <==>
      c.owner == d.owner && IndexKey(v, c, decode) == IndexKey(w, d, decode)
  {
    if RowKey(v, Some(c), decode) == RowKey(w, Some(d), decode) {
      OwnerKeyShape(c.owner);
      OwnerKeyShape(d.owner);
      SplitsAtFirst(OwnerKey(c.owner), OwnerKey(d.owner), IndexKey(v, c, decode), IndexKey(w, d, decode), '|');
      OwnerKeyIsInjective(c.owner, d.owner);
    }
  }

  lemma DecodeIndexOfText(column: Oid, i: Oid, columns: seq<IndexKind>, decode: Decoder)
    requires i != []
    ensures DecodeIndex(OidToStr(column + i), column, columns, decode) ==
      match DecodeSuffix(i, columns, decode) case None => None case Some(d) => Some(Join(d, '.'))
  {
    InstancePartsOfText(column + i);
    assert (column + i)[|column|..] == i && column < column + i;
  }

  lemma CellIndexKey(v: Walked, c: Context, i: Oid, decode: Decoder)
    requires c.ColumnContext? && i != [] && v.oidText == OidToStr(c.column + i) && Fits(i, c.columns)
    ensures DecodeSuffix(i, c.columns, decode).Some?
    ensures IndexKey(v, c, decode) == Join(DecodeSuffix(i, c.columns, decode).value, '.')
  {
    DecodeIndexOfText(c.column, i, c.columns, decode);
    OidTextShape(c.column + i);
    DecodeSucceedsExactlyWhen(i, c.columns, decode);
  }

  /** Cells of one table whose instances fit share a row exactly when the instances read the same. */
  lemma SameInstanceExactlyWhen(v: Walked, w: Walked, c: Context, d: Context, i: Oid, j: Oid, decode: Decoder)
    requires c.ColumnContext? && d.ColumnContext? && c.columns == d.columns
    requires c.owner == d.owner && CleanOwner(c.owner)
    requires i != [] && j != [] && v.oidText == OidToStr(c.column + i) && w.oidText == OidToStr(d.column + j)
    requires Fits(i, c.columns) && Fits(j, c.columns)
    ensures RowKey(v, Some(c), decode) == RowKey(w, Some(d), decode) <==> SameReading(i, j, c.columns, decode)
  {
    CellIndexKey(v, c, i, decode);
    CellIndexKey(w, d, j, decode);
    SameRowExactlyWhen(v, w, c, d, decode);
    SameKeyExactlyWhen(i, j, c.columns, decode);
  }

  /* ---- the grouping loop ---- */

  datatype Row = Row(index: string, labels: map<string, string>, metrics: map<string, int>)

  function Add(): (Row, Walked) -> Row {
    (row: Row, v: Walked) =>
      match v.reading
      case Metric(n) => row.(metrics := row.metrics[v.name.symbol := n])
      case Label(text) => row.(labels := row.labels[v.name.symbol := text])
  }

  function NewRow(v: Walked, context: Option<Context>, decode: Decoder): Row {
    Row(ShownIndex(if context.Some? then IndexKey(v, context.value, decode) else v.tail), map[], map[])
  }

  function Start(bundle: Bundle, decode: Decoder): Walked -> Row {
    (v: Walked) => NewRow(v, IndexContext(bundle, v.name), decode)
  }

  function KeyOf(bundle: Bundle, decode: Decoder): Walked -> string {
    (v: Walked) => RowKey(v, IndexContext(bundle, v.name), decode)
  }

  function MetricOf(symbol: string): Walked -> bool {
    (v: Walked) => v.reading.Metric? && v.name.symbol == symbol
  }

  function LabelOf(symbol: string): Walked -> bool {
    (v: Walked) => v.reading.Label? && v.name.symbol == symbol
  }

  function InRow(keyOf: Walked -> string, key: string, test: Walked -> bool): Walked -> bool {
    (v: Walked) => keyOf(v) == key && test(v)
  }

  /** A row shows, for every symbol, the latest metric and the latest label among some varbinds. */
  ghost predicate ShowsLatest(row: Row, symbol: string, metric: Option<Walked>, text: Option<Walked>) {
    && (symbol in row.metrics <==> metric.Some?)
    && (symbol in row.labels <==> text.Some?)
    && (symbol in row.metrics && metric.Some? && metric.value.reading.Metric? ==>
          row.metrics[symbol] == metric.value.reading.value)
    && (symbol in row.labels && text.Some? && text.value.reading.Label? ==>
          row.labels[symbol] == text.value.reading.text)
  }

  ghost predicate StartsEmpty(start: Walked -> Row) {
    forall v :: start(v).labels == map[] && start(v).metrics == map[]
  }

  lemma {:induction false} RowShowsItsLatest(mine: seq<Walked>, start: Walked -> Row, symbol: string)
    requires mine != [] && StartsEmpty(start)
    ensures ShowsLatest(RowOf(mine, start, Add()), symbol, Latest(mine, MetricOf(symbol)), Latest(mine, LabelOf(symbol)))
  {
    if |mine| > 1 {
      RowShowsItsLatest(mine[..|mine| - 1], start, symbol);
    } else {
      assert mine[..0] == [];
    }
  }

  /** Every output row shows, for every symbol, the latest metric and the latest label that the walk
      holds for its key; earlier readings of the same symbol are overwritten, others are kept. */
  lemma RowsShowLatestReadings(
      vs: seq<Walked>, bundle: Bundle, decode: Decoder, order: seq<string>, rows: map<string, Row>, key: string, symbol: string)
    requires Grouped(vs, order, rows, KeyOf(bundle, decode), Start(bundle, decode), Add()) && key in rows
    ensures var keyOf := KeyOf(bundle, decode);
      ShowsLatest(rows[key], symbol,
        Latest(vs, InRow(keyOf, key, MetricOf(symbol))), Latest(vs, InRow(keyOf, key, LabelOf(symbol))))
  {
    var keyOf, start := KeyOf(bundle, decode), Start(bundle, decode);
    var mine := WithKey(vs, key, keyOf);
    assert RowFits(vs, key, rows, keyOf, start, Add());
    RowShowsItsLatest(mine, start, symbol);
    LatestWithKey(vs, key, keyOf, MetricOf(symbol), InRow(keyOf, key, MetricOf(symbol)));
    LatestWithKey(vs, key, keyOf, LabelOf(symbol), InRow(keyOf, key, LabelOf(symbol)));
  }

  /** What adding one varbind to its row makes of the rows. */
  ghost predicate Added(
      v: Walked, context: Option<Context>, decode: Decoder,
      order: seq<string>, rows: map<string, Row>, order': seq<string>, rows': map<string, Row>)
  {
    var key := RowKey(v, context, decode);
    && order' == (if key in rows then order else order + [key])
    && rows' == rows[key := Add()(if key in rows then rows[key] else NewRow(v, context, decode), v)]
  }

  method AddToRow(v: Walked, context: Option<Context>, order: seq<string>, rows: map<string, Row>, decode: Decoder)
    returns (order': seq<string>, rows': map<string, Row>)
    ensures Added(v, context, decode, order, rows, order', rows')
  {
    var key := RowKey(v, context, decode);
    order', rows' := order, rows;
    if key !in rows' {
      order', rows' := order' + [key], rows'[key := NewRow(v, context, decode)];
    }
    rows' := rows'[key := Add()(rows'[key], v)];
  }

  lemma AddedKeepsGrouped(
      vs: seq<Walked>, v: Walked, bundle: Bundle, decode: Decoder,
      order: seq<string>, rows: map<string, Row>, order': seq<string>, rows': map<string, Row>)
    requires Grouped(vs, order, rows, KeyOf(bundle, decode), Start(bundle, decode), Add())
    requires Added(v, IndexContext(bundle, v.name), decode, order, rows, order', rows')
    ensures Grouped(vs + [v], order', rows', KeyOf(bundle, decode), Start(bundle, decode), Add())
  {
    GroupOneMore(vs, v, order, rows, KeyOf(bundle, decode), Start(bundle, decode), Add());
  }

  /** The loop over the walked varbinds, resolving each object's context once. */
  method GroupRows(vs: seq<Walked>, bundle: Bundle, decode: Decoder) returns (order: seq<string>, rows: map<string, Row>)
    ensures Grouped(vs, order, rows, KeyOf(bundle, decode), Start(bundle, decode), Add())
  {
    order, rows := [], map[];
    var cache: map<Owner, Option<Context>> := map[];
    for i := 0 to |vs|
      invariant Grouped(vs[..i], order, rows, KeyOf(bundle, decode), Start(bundle, decode), Add())
      invariant forall name | name in cache :: cache[name] == IndexContext(bundle, name)
    {
      var v := vs[i];
      if v.name !in cache {
        cache := cache[v.name := IndexContext(bundle, v.name)];
      }
      ghost var order0, rows0 := order, rows;
      order, rows := AddToRow(v, cache[v.name], order, rows, decode);
      AddedKeepsGrouped(vs[..i], v, bundle, decode, order0, rows0, order, rows);
      assert vs[..i + 1] == vs[..i] + [v];
    }
    assert vs[..|vs|] == vs;
  }

  /* ---- from the bundle to the rows ---- */

  predicate IsIntegerSyntax(syntax: string) {
    syntax == "Integer32" || syntax == "INTEGER" || syntax == "InterfaceIndex"
  }

  predicate IsTextSyntax(syntax: string) {
    syntax == "DisplayString" || syntax == "OCTET STRING"
  }

  predicate IsUnknownSyntax(syntax: string) {
    syntax == "IpAddress" || syntax == "Unsigned32" || syntax == "DateAndTime"
  }

  lemma KindsOfSyntaxes(syntax: string)
    ensures IsIntegerSyntax(syntax) ==> KindOfSyntax(syntax) == IntegerIndex
    ensures IsTextSyntax(syntax) ==> KindOfSyntax(syntax) == StringIndex
    ensures IsUnknownSyntax(syntax) ==> KindOfSyntax(syntax) == Undecodable
  {
    IntegerSyntaxes();
    StringSyntaxes();
    IpAddressIsUnknown();
    Unsigned32IsUnknown();
    DateAndTimeIsUnknown();
  }

  /** v is the cell with instance i of a column of the row. */
  predicate IsCell(v: Walked, bundle: Bundle, row: Owner, i: Oid) {
    && v.name in bundle.nodes && row in bundle.nodes && i != []
    && var column := bundle.nodes[v.name];
      && column.kind == ColumnNode && |column.oid| >= 2
      && bundle.lookup(column.oid[..|column.oid| - 1]) == Some(row)
      && v.oidText == OidToStr(column.oid + i)
  }

  /** The syntaxes of the row's index nodes, in order. */
  predicate HasIndex(bundle: Bundle, row: Owner, syntaxes: seq<string>) {
    && row in bundle.nodes && syntaxes != [] && |bundle.nodes[row].index| == |syntaxes|
    && forall k | 0 <= k < |syntaxes| ::
         var name := Owner(row.module_, bundle.nodes[row].index[k]);
         name in bundle.nodes && bundle.nodes[name].syntax == syntaxes[k]
  }

  function KindsOf(syntaxes: seq<string>): (r: seq<IndexKind>)
    ensures |r| == |syntaxes| && forall k | 0 <= k < |r| :: r[k] == KindOfSyntax(syntaxes[k])
  {
    seq(|syntaxes|, k requires 0 <= k < |syntaxes| => KindOfSyntax(syntaxes[k]))
  }

  lemma KindsCons(syntaxes: seq<string>)
    ensures syntaxes == [] ==> KindsOf(syntaxes) == []
    ensures syntaxes != [] ==> KindsOf(syntaxes) == [KindOfSyntax(syntaxes[0])] + KindsOf(syntaxes[1..])
  {}

  lemma {:induction false} ColumnsOfIndex(bundle: Bundle, module_: string, names: seq<string>, syntaxes: seq<string>)
    requires |names| == |syntaxes|
    requires forall k | 0 <= k < |names| ::
      Owner(module_, names[k]) in bundle.nodes && bundle.nodes[Owner(module_, names[k])].syntax == syntaxes[k]
    ensures IndexColumns(bundle, module_, names) == Some(KindsOf(syntaxes))
  {
    KindsCons(syntaxes);
    if names != [] {
      ColumnsOfIndex(bundle, module_, names[1..], syntaxes[1..]);
    }
  }

  lemma ContextOfColumn(bundle: Bundle, name: Owner, row: Owner, columns: seq<IndexKind>)
    requires name in bundle.nodes && row in bundle.nodes && bundle.nodes[row].index != []
    requires bundle.nodes[name].kind == ColumnNode && |bundle.nodes[name].oid| >= 2
    requires bundle.lookup(bundle.nodes[name].oid[..|bundle.nodes[name].oid| - 1]) == Some(row)
    requires IndexColumns(bundle, row.module_, bundle.nodes[row].index) == Some(columns)
    ensures IndexContext(bundle, name) == Some(ColumnContext(row, bundle.nodes[name].oid, columns))
  {}

  lemma ContextOfCell(v: Walked, bundle: Bundle, row: Owner, i: Oid, syntaxes: seq<string>)
    requires IsCell(v, bundle, row, i) && HasIndex(bundle, row, syntaxes)
    ensures IndexContext(bundle, v.name) == Some(ColumnContext(row, bundle.nodes[v.name].oid, KindsOf(syntaxes)))
  {
    var index := bundle.nodes[row].index;
    forall k | 0 <= k < |index|
      ensures Owner(row.module_, index[k]) in bundle.nodes && bundle.nodes[Owner(row.module_, index[k])].syntax == syntaxes[k]
    {}
    ColumnsOfIndex(bundle, row.module_, index, syntaxes);
    ContextOfColumn(bundle, v.name, row, KindsOf(syntaxes));
  }

  lemma CellsShareRowExactlyWhen(
      v: Walked, w: Walked, bundle: Bundle, decode: Decoder, row: Owner, i: Oid, j: Oid, syntaxes: seq<string>)
    requires CleanOwner(row) && HasIndex(bundle, row, syntaxes)
    requires IsCell(v, bundle, row, i) && IsCell(w, bundle, row, j)
    requires Fits(i, KindsOf(syntaxes)) && Fits(j, KindsOf(syntaxes))
    ensures KeyOf(bundle, decode)(v) == KeyOf(bundle, decode)(w) <==> SameReading(i, j, KindsOf(syntaxes), decode)
  {
    ContextOfCell(v, bundle, row, i, syntaxes);
    ContextOfCell(w, bundle, row, j, syntaxes);
    SameInstanceExactlyWhen(v, w, IndexContext(bundle, v.name).value, IndexContext(bundle, w.name).value, i, j, decode);
  }

  lemma {:induction false} IntegersFit(i: Oid, columns: seq<IndexKind>)
    requires |i| == |columns| && forall k | 0 <= k < |columns| :: columns[k] == IntegerIndex
    ensures Fits(i, columns) && LeadingIntegers(columns) == |columns|
  {
    if columns != [] {
      IntegersFit(i[1..], columns[1..]);
    }
  }

  lemma {:induction false} IntegersAndTextFit(i: Oid, columns: seq<IndexKind>)
    requires columns != [] && columns[|columns| - 1] == StringIndex && |columns| - 1 <= |i|
    requires forall k | 0 <= k < |columns| - 1 :: columns[k] == IntegerIndex
    requires AreBytes(i[|columns| - 1..])
    ensures Fits(i, columns) && LeadingIntegers(columns) == |columns| - 1
  {
    if |columns| > 1 {
      assert i[1..][|columns| - 2..] == i[|columns| - 1..];
      IntegersAndTextFit(i[1..], columns[1..]);
    } else {
      assert i[0..] == i;
    }
  }

  /** In a table indexed by integers, two cells share a row exactly when their instances are equal. */
  lemma IntegerIndexedCells(
      v: Walked, w: Walked, bundle: Bundle, decode: Decoder, row: Owner, i: Oid, j: Oid, syntaxes: seq<string>)
    requires CleanOwner(row) && HasIndex(bundle, row, syntaxes)
    requires forall k | 0 <= k < |syntaxes| :: IsIntegerSyntax(syntaxes[k])
    requires IsCell(v, bundle, row, i) && IsCell(w, bundle, row, j) && |i| == |j| == |syntaxes|
    ensures KeyOf(bundle, decode)(v) == KeyOf(bundle, decode)(w) <==> i == j
  {
    var columns := KindsOf(syntaxes);
    forall k | 0 <= k < |columns| ensures columns[k] == IntegerIndex {
      KindsOfSyntaxes(syntaxes[k]);
    }
    IntegersFit(i, columns);
    IntegersFit(j, columns);
    CellsShareRowExactlyWhen(v, w, bundle, decode, row, i, j, syntaxes);
    assert i[..|i|] == i && j[..|j|] == j && i[|i|..] == [] && j[|j|..] == [];
  }

  /** In a table indexed by integers and, last, by a text, two cells share a row exactly when the
      integers are equal and the rest decodes to equal text. */
  lemma TextIndexedCells(
      v: Walked, w: Walked, bundle: Bundle, decode: Decoder, row: Owner, i: Oid, j: Oid, syntaxes: seq<string>)
    requires CleanOwner(row) && HasIndex(bundle, row, syntaxes)
    requires IsTextSyntax(syntaxes[|syntaxes| - 1]) && forall k | 0 <= k < |syntaxes| - 1 :: IsIntegerSyntax(syntaxes[k])
    requires IsCell(v, bundle, row, i) && IsCell(w, bundle, row, j) && |syntaxes| - 1 <= |i| && |syntaxes| - 1 <= |j|
    requires AreBytes(i[|syntaxes| - 1..]) && AreBytes(j[|syntaxes| - 1..])
    ensures var n := |syntaxes| - 1;
      KeyOf(bundle, decode)(v) == KeyOf(bundle, decode)(w) <==>
        i[..n] == j[..n] && TextOf(i[n..], decode) == TextOf(j[n..], decode)
  {
    var columns := KindsOf(syntaxes);
    forall k | 0 <= k < |columns|
      ensures columns[k] == if k == |columns| - 1 then StringIndex else IntegerIndex
    {
      KindsOfSyntaxes(syntaxes[k]);
    }
    IntegersAndTextFit(i, columns);
    IntegersAndTextFit(j, columns);
    CellsShareRowExactlyWhen(v, w, bundle, decode, row, i, j, syntaxes);
  }

  lemma {:induction false} UnknownNeverFits(i: Oid, columns: seq<IndexKind>, k: nat)
    requires k < |columns| && columns[k] == Undecodable
    ensures !Fits(i, columns)
  {
    if k > 0 && columns[0] == IntegerIndex && i != [] {
      UnknownNeverFits(i[1..], columns[1..], k - 1);
    }
  }

  /** A scalar is keyed by its own name and the tail of its label; an object without an index
      context by the tail alone. */
  lemma OtherKeys(v: Walked, bundle: Bundle, decode: Decoder)
    ensures v.name in bundle.nodes && bundle.nodes[v.name].kind == ScalarNode && |bundle.nodes[v.name].oid| >= 2 ==>
      KeyOf(bundle, decode)(v) == v.name.module_ + "::" + v.name.symbol + "|" + v.tail
    ensures v.name !in bundle.nodes || bundle.nodes[v.name].kind == OtherNode ==>
      KeyOf(bundle, decode)(v) == if Strip(v.tail) == "" then "0" else Strip(v.tail)
  {}

  /** A cell of a table with an index of another syntax is keyed by the tail of its label. */
  lemma UnknownIndexFallsBack(
      v: Walked, bundle: Bundle, decode: Decoder, row: Owner, i: Oid, syntaxes: seq<string>, k: nat)
    requires HasIndex(bundle, row, syntaxes) && IsCell(v, bundle, row, i)
    requires k < |syntaxes| && IsUnknownSyntax(syntaxes[k])
    ensures KeyOf(bundle, decode)(v) == row.module_ + "::" + row.symbol + "|" + v.tail
  {
    KindsOfSyntaxes(syntaxes[k]);
    UnknownNeverFits(i, KindsOf(syntaxes), k);
    DecodeSucceedsExactlyWhen(i, KindsOf(syntaxes), decode);
    ContextOfCell(v, bundle, row, i, syntaxes);
    DecodeIndexOfText(bundle.nodes[v.name].oid, i, KindsOf(syntaxes), decode);
  }

  lemma CellKeyText(v: Walked, bundle: Bundle, decode: Decoder, row: Owner, i: Oid, syntaxes: seq<string>)
    requires IsCell(v, bundle, row, i) && HasIndex(bundle, row, syntaxes) && |i| == |syntaxes|
    requires forall k | 0 <= k < |syntaxes| :: IsIntegerSyntax(syntaxes[k])
    ensures KeyOf(bundle, decode)(v) == OwnerKey(row) + "|" + OidToStr(i)
  {
    var columns := KindsOf(syntaxes);
    forall k | 0 <= k < |columns| ensures columns[k] == IntegerIndex {
      KindsOfSyntaxes(syntaxes[k]);
    }
    IntegersFit(i, columns);
    ContextOfCell(v, bundle, row, i, syntaxes);
    CellIndexKey(v, IndexContext(bundle, v.name).value, i, decode);
    IntegerIndexExactlyWhen(i, columns, decode);
  }

  lemma {:induction false} RowKeepsItsIndex(mine: seq<Walked>, start: Walked -> Row)
    requires mine != []
    ensures RowOf(mine, start, Add()).index == start(mine[0]).index
  {
    if |mine| > 1 {
      RowKeepsItsIndex(mine[..|mine| - 1], start);
    }
  }

  lemma BarInKey(front: string, back: string)
    ensures '|' in front + "|" + back
  {
    assert (front + "|" + back)[|front|] == '|';
  }

  lemma StrippedHasNoBar(tail: string)
    requires '|' !in tail
    ensures '|' !in ShownIndex(tail)
  {
    var front, back := StripIsMiddle(tail);
    assert forall c | c in Strip(tail) :: c in front + Strip(tail) + back;
  }

  /** A varbind with a table key was resolved, and its row starts with the index of the key. */
  lemma SameKeySameIndex(w: Walked, bundle: Bundle, decode: Decoder, row: Owner, index: string)
    requires KeyOf(bundle, decode)(w) == OwnerKey(row) + "|" + index
    requires '|' !in w.tail && CleanOwner(row)
    requires forall name | name in bundle.nodes :: CleanOwner(name)
    requires forall oid :: bundle.lookup(oid).Some? ==> CleanOwner(bundle.lookup(oid).value)
    ensures Start(bundle, decode)(w).index == ShownIndex(index)
  {
    var context := IndexContext(bundle, w.name);
    if context.None? {
      BarInKey(OwnerKey(row), index);
      StrippedHasNoBar(w.tail);
    } else {
      var own := IndexKey(w, context.value, decode);
      OwnerKeyShape(row);
      OwnerKeyShape(context.value.owner);
      SplitsAtFirst(OwnerKey(context.value.owner), OwnerKey(row), own, index, '|');
    }
  }

  /** The row of a varbind starts with the first one of its key. */
  lemma RowOfValue(
      vs: seq<Walked>, bundle: Bundle, decode: Decoder, order: seq<string>, rows: map<string, Row>, v: Walked)
    returns (first: Walked)
    requires Grouped(vs, order, rows, KeyOf(bundle, decode), Start(bundle, decode), Add()) && v in vs
    ensures first in vs && KeyOf(bundle, decode)(first) == KeyOf(bundle, decode)(v)
    ensures KeyOf(bundle, decode)(v) in rows
    ensures rows[KeyOf(bundle, decode)(v)].index == Start(bundle, decode)(first).index
  {
    var keyOf, start := KeyOf(bundle, decode), Start(bundle, decode);
    FirstWithKey(vs, v, keyOf);
    var mine := WithKey(vs, keyOf(v), keyOf);
    first := mine[0];
    assert RowFits(vs, keyOf(v), rows, keyOf, start, Add());
    RowKeepsItsIndex(mine, start);
  }

  /** The row of a cell of a table indexed by integers shows the instance in decimals. */
  lemma IntegerIndexIsShown(
      vs: seq<Walked>, bundle: Bundle, decode: Decoder, order: seq<string>, rows: map<string, Row>,
      v: Walked, row: Owner, i: Oid, syntaxes: seq<string>)
    requires Grouped(vs, order, rows, KeyOf(bundle, decode), Start(bundle, decode), Add())
    requires forall w | w in vs :: '|' !in w.tail
    requires v in vs && IsCell(v, bundle, row, i) && HasIndex(bundle, row, syntaxes) && |i| == |syntaxes|
    requires CleanOwner(row) && forall k | 0 <= k < |syntaxes| :: IsIntegerSyntax(syntaxes[k])
    requires forall name | name in bundle.nodes :: CleanOwner(name)
    requires forall oid :: bundle.lookup(oid).Some? ==> CleanOwner(bundle.lookup(oid).value)
    ensures var key := KeyOf(bundle, decode)(v);
      key in rows && rows[key].index == OidToStr(i)
  {
    CellKeyText(v, bundle, decode, row, i, syntaxes);
    var first := RowOfValue(vs, bundle, decode, order, rows, v);
    SameKeySameIndex(first, bundle, decode, row, OidToStr(i));
    OidTextShape(i);
    OidTextParts(i);
  }
}
