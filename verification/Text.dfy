/** Python string primitives that several services share: whitespace stripping, ASCII
    lowercasing, decimal printing and parsing, joining, splitting and code-point order. */
module Text {
  datatype Option<+T> = None | Some(value: T)

  datatype Result<+T> = Ok(value: T) | Err(error: string)

  /* ---- whitespace and case ---- */

  /** The ASCII characters that Python's str.strip() removes. */
  predicate IsSpace(c: char) {
    c == ' ' || '\t' <= c <= '\r' || '\U{1C}' <= c <= '\U{1F}'
  }

  function LStrip(s: string): (r: string)
    ensures |r| <= |s|
  {
    if s != [] && IsSpace(s[0]) then LStrip(s[1..]) else s
  }

  function RStrip(s: string): (r: string)
    ensures |r| <= |s|
  {
    if s != [] && IsSpace(s[|s| - 1]) then RStrip(s[..|s| - 1]) else s
  }

  function Strip(s: string): string {
    RStrip(LStrip(s))
  }

  /** What a string looks like when stripping leaves it alone. */
  predicate Trimmed(s: string) {
    s == [] || (!IsSpace(s[0]) && !IsSpace(s[|s| - 1]))
  }

  lemma {:induction false} RStripTrims(s: string)
    ensures RStrip(s) == [] || !IsSpace(RStrip(s)[|RStrip(s)| - 1])
    ensures RStrip(s) <= s
  {
    if s != [] && IsSpace(s[|s| - 1]) {
      RStripTrims(s[..|s| - 1]);
    }
  }

  lemma {:induction false} LStripTrims(s: string)
    ensures LStrip(s) == [] || !IsSpace(LStrip(s)[0])
  {
    if s != [] && IsSpace(s[0]) {
      LStripTrims(s[1..]);
    }
  }

  /** Stripping yields a trimmed string, and the trimmed strings are its fixed points. */
  lemma StripFixedPoints(s: string)
    ensures Trimmed(Strip(s))
    ensures Strip(s) == s <==> Trimmed(s)
  {
    LStripTrims(s);
    RStripTrims(LStrip(s));
  }

  lemma {:induction false} LStripFront(s: string) returns (front: string)
    ensures s == front + LStrip(s) && forall c | c in front :: IsSpace(c)
  {
    front := [];
    if s != [] && IsSpace(s[0]) {
      var rest := LStripFront(s[1..]);
      front := [s[0]] + rest;
    }
  }

  lemma {:induction false} RStripBack(s: string) returns (back: string)
    ensures s == RStrip(s) + back && forall c | c in back :: IsSpace(c)
  {
    back := [];
    if s != [] && IsSpace(s[|s| - 1]) {
      var rest := RStripBack(s[..|s| - 1]);
      back := rest + [s[|s| - 1]];
    }
  }

  /** The characters stripped are HT, LF, VT, FF, CR, FS, GS, RS, US and the space. */
  lemma SpaceCodes(c: char)
    ensures IsSpace(c) <==> 9 <= c as int <= 13 || 28 <= c as int <= 32
  {}

  /** Stripping removes nothing but spaces from the ends; StripFixedPoints says that it leaves none. */
  lemma {:induction false} StripIsMiddle(s: string) returns (front: string, back: string)
    ensures s == front + Strip(s) + back
    ensures forall c | c in front || c in back :: IsSpace(c)
  {
    front := LStripFront(s);
    back := RStripBack(LStrip(s));
  }

  function LowerChar(c: char): char {
    if 'A' <= c <= 'Z' then (c as int + 32) as char else c
  }

  function Lower(s: string): (r: string)
    ensures |r| == |s|
    ensures forall i | 0 <= i < |s| :: r[i] == LowerChar(s[i])
  {
    seq(|s|, i requires 0 <= i < |s| => LowerChar(s[i]))
  }

  /** Only the 26 capitals change, each to its small letter. */
  lemma LowerOfLetters(c: char)
    ensures LowerChar(c) == if 'A' <= c <= 'Z' then "abcdefghijklmnopqrstuvwxyz"[c as int - 'A' as int] else c
  {}

  /** No upper-case ASCII letter occurs. */
  predicate IsLower(s: string) {
    forall i | 0 <= i < |s| :: !('A' <= s[i] <= 'Z')
  }

  lemma LowerIsIdentityOnLower(s: string)
    requires IsLower(s)
    ensures Lower(s) == s
  {}

  /* ---- decimal numbers ---- */

  predicate IsDigit(c: char) {
    '0' <= c <= '9'
  }

  function DigitChar(d: nat): char
    requires d < 10
  {
    ('0' as int + d) as char
  }

  function DigitValue(c: char): nat
    requires IsDigit(c)
  {
    c as int - '0' as int
  }

  /** Python's str(n) for n >= 0. */
  function NatToString(n: nat): (s: string)
    ensures s != []
    ensures forall c | c in s :: IsDigit(c)
  {
    if n < 10 then [DigitChar(n)] else NatToString(n / 10) + [DigitChar(n % 10)]
  }

  function IntToString(i: int): string {
    if i < 0 then ['-'] + NatToString(-i) else NatToString(i)
  }

  /** Digits with single underscores between them, as Python's int() accepts. */
  function ParseDigits(s: string): Option<int> {
    if s == [] || !IsDigit(s[|s| - 1]) then None
    else
      var d := DigitValue(s[|s| - 1]);
      if |s| == 1 then Some(d)
      else
        var front := s[..|s| - 1];
        var head := if front[|front| - 1] == '_' then front[..|front| - 1] else front;
        match ParseDigits(head)
        case None => None
        case Some(h) => Some(10 * h + d)
  }

  function ParseSigned(t: string): Option<int>
    requires t != []
  {
    if t[0] == '-' then
      match ParseDigits(t[1..]) { case None => None case Some(n) => Some(-n) }
    else if t[0] == '+' then
      match ParseDigits(t[1..]) { case None => None case Some(n) => Some(n) }
    else
      match ParseDigits(t) { case None => None case Some(n) => Some(n) }
  }

  /** Python's int(text): surrounding whitespace, an optional sign, then digits. */
  function ParseInt(s: string): Option<int> {
    var t := Strip(s);
    if t == [] then None else ParseSigned(t)
  }

  lemma {:induction false} ParseDigitsOfNat(n: nat)
    ensures ParseDigits(NatToString(n)) == Some(n)
  {
    var s := NatToString(n);
    if n >= 10 {
      var front := NatToString(n / 10);
      ParseDigitsOfNat(n / 10);
      assert s[..|s| - 1] == front;
      assert front[|front| - 1] in front;
    }
  }

  lemma PrintedIsTrimmed(i: int)
    ensures var s := IntToString(i); s != [] && Strip(s) == s
  {
    var digits, s := NatToString(if i < 0 then -i else i), IntToString(i);
    assert digits[0] in digits && digits[|digits| - 1] in digits;
    assert s[0] == '-' || s[0] == digits[0];
    assert s[|s| - 1] == digits[|digits| - 1];
    StripFixedPoints(s);
  }

  lemma ParseSignedOfNat(n: nat)
    ensures ParseSigned(NatToString(n)) == Some(n)
  {
    var s := NatToString(n);
    ParseDigitsOfNat(n);
    assert IsDigit(s[0]) by {
      assert s[0] in s;
    }
  }

  lemma ParseSignedOfMinus(i: int)
    requires i < 0
    ensures ParseSigned(['-'] + NatToString(-i)) == Some(i)
  {
    ParseDigitsOfNat(-i);
    assert (['-'] + NatToString(-i))[1..] == NatToString(-i);
  }

  /** Printing a number and parsing it back gives the number. */
  lemma ParseIntOfInt(i: int)
    ensures ParseInt(IntToString(i)) == Some(i)
  {
    PrintedIsTrimmed(i);
    if i < 0 {
      ParseSignedOfMinus(i);
    } else {
      ParseSignedOfNat(i);
    }
  }

  /* ---- joining and splitting ---- */

  function Join(parts: seq<string>, sep: char): string {
    if parts == [] then []
    else if |parts| == 1 then parts[0]
    else parts[0] + [sep] + Join(parts[1..], sep)
  }

  /** One more character in front of some parts. */
  function PushChar(c: char, parts: seq<string>, sep: char): (r: seq<string>)
    requires parts != []
    ensures r != []
  {
    if c == sep then [[]] + parts else [[c] + parts[0]] + parts[1..]
  }

  /** Python's s.split(sep): always at least one part. */
  function Split(s: string, sep: char): (parts: seq<string>)
    ensures parts != []
  {
    if s == [] then [[]] else PushChar(s[0], Split(s[1..], sep), sep)
  }

  lemma {:induction false} SplitWhole(p: string, sep: char)
    requires sep !in p
    ensures Split(p, sep) == [p]
  {
    if p != [] {
      SplitWhole(p[1..], sep);
      assert p == [p[0]] + p[1..] && p[0] in p;
    }
  }

  lemma {:induction false} SplitFirst(p: string, sep: char, rest: string)
    requires sep !in p
    ensures Split(p + [sep] + rest, sep) == [p] + Split(rest, sep)
  {
    var s := p + [sep] + rest;
    if p == [] {
      assert s[1..] == rest;
    } else {
      SplitFirst(p[1..], sep, rest);
      assert s[1..] == p[1..] + [sep] + rest;
      assert p == [p[0]] + p[1..] && p[0] in p;
      assert ([p[1..]] + Split(rest, sep))[1..] == Split(rest, sep);
    }
  }

  /** Splitting undoes joining when no part contains the separator. */
  lemma {:induction false} SplitOfJoin(parts: seq<string>, sep: char)
    requires parts != []
    requires forall i | 0 <= i < |parts| :: sep !in parts[i]
    ensures Split(Join(parts, sep), sep) == parts
  {
    if |parts| == 1 {
      SplitWhole(parts[0], sep);
    } else {
      SplitOfJoin(parts[1..], sep);
      SplitFirst(parts[0], sep, Join(parts[1..], sep));
    }
  }

  lemma SplitCons(c: char, rest: string, sep: char)
    ensures Split([c] + rest, sep) == PushChar(c, Split(rest, sep), sep)
  {
    assert ([c] + rest)[1..] == rest;
  }

  lemma PushCharConcat(c: char, front: seq<string>, back: seq<string>, sep: char)
    requires front != []
    ensures PushChar(c, front + back, sep) == PushChar(c, front, sep) + back
  {
    assert (front + back)[0] == front[0] && (front + back)[1..] == front[1..] + back;
  }

  lemma {:induction false} SplitConcat(a: string, b: string, sep: char)
    ensures Split(a + [sep] + b, sep) == Split(a, sep) + Split(b, sep)
  {
    if a == [] {
      SplitCons(sep, b, sep);
      assert a + [sep] + b == [sep] + b;
    } else {
      SplitConcat(a[1..], b, sep);
      SplitCons(a[0], a[1..] + [sep] + b, sep);
      PushCharConcat(a[0], Split(a[1..], sep), Split(b, sep), sep);
      assert a + [sep] + b == [a[0]] + (a[1..] + [sep] + b);
    }
  }

  lemma {:induction false} JoinConcat(a: seq<string>, b: seq<string>, sep: char)
    requires a != [] && b != []
    ensures Join(a + b, sep) == Join(a, sep) + [sep] + Join(b, sep)
  {
    if |a| == 1 {
      assert a + b == [a[0]] + b && (a + b)[1..] == b;
    } else {
      JoinConcat(a[1..], b, sep);
      assert (a + b)[1..] == a[1..] + b;
    }
  }

  /** Different numbers print differently. */
  lemma EqualNumbers(a: int, b: int)
    requires IntToString(a) == IntToString(b)
    ensures a == b
  {
    ParseIntOfInt(a);
    ParseIntOfInt(b);
  }

  /* ---- code-point order ---- */

  /** Python's a <= b on strings. */
  predicate StrLe(a: string, b: string) {
    a == [] || (b != [] && (a[0] < b[0] || (a[0] == b[0] && StrLe(a[1..], b[1..]))))
  }

  lemma {:induction false} StrLeTotal(a: string, b: string)
    ensures StrLe(a, b) || StrLe(b, a)
    ensures StrLe(a, b) && StrLe(b, a) ==> a == b
    ensures StrLe(a, a)
  {
    if a != [] {
      StrLeTotal(a[1..], if b != [] then b[1..] else []);
      if b != [] && a[0] == b[0] && a[1..] == b[1..] {
        assert a == [a[0]] + a[1..] && b == [b[0]] + b[1..];
      }
    }
  }

  lemma {:induction false} StrLeTransitive(a: string, b: string, c: string)
    requires StrLe(a, b) && StrLe(b, c)
    ensures StrLe(a, c)
  {
    if a != [] && a[0] == b[0] && b[0] == c[0] {
      StrLeTransitive(a[1..], b[1..], c[1..]);
    }
  }

  lemma {:induction false} StrLeCancelsPrefix(p: string, a: string, b: string)
    ensures StrLe(p + a, p + b) <==> StrLe(a, b)
  {
    if p == [] {
      assert p + a == a && p + b == b;
    } else {
      StrLeCancelsPrefix(p[1..], a, b);
      assert (p + a)[1..] == p[1..] + a && (p + b)[1..] == p[1..] + b;
    }
  }

  /** Where two texts first differ decides, and a proper prefix comes first. */
  lemma {:induction false} StrLeByFirstDifference(p: string, x: char, y: char, a: string, b: string)
    ensures x != y ==> (StrLe(p + [x] + a, p + [y] + b) <==> x < y)
    ensures StrLe(p, p + b) && (StrLe(p + b, p) <==> b == [])
  {
    StrLeCancelsPrefix(p, [x] + a, [y] + b);
    StrLeCancelsPrefix(p, [], b);
    StrLeCancelsPrefix(p, b, []);
    assert p + [x] + a == p + ([x] + a) && p + [y] + b == p + ([y] + b) && p + [] == p;
  }
}
