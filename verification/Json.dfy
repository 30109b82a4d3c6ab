/**
 * JSON values as JavaScript holds them, `JSON.stringify` on the trees the codec prints, and
 * `JSON.parse` on arbitrary text. An object is its own properties in insertion order.
 */
module Json {
  import opened Outcomes
  import opened Texts

  /**
   * A number is kept at its exact value: `Integer` when that is integral, `NonInteger` when not.
   * (Rounding to a double changes only numbers whose text the codec refuses in both cases.)
   */
  datatype Json =
    | Null
    | Bool(b: bool)
    | Integer(n: int)
    | NonInteger
    | String(s: Text)
    | Array(items: seq<Json>)
    | Object(members: seq<Member>)

  datatype Member = Member(key: Text, value: Json)

  const QUOTE: Unit := 34
  const BACKSLASH: Unit := 92
  const COMMA: Unit := 44
  const COLON: Unit := 58
  const OPEN_ARRAY: Unit := 91
  const CLOSE_ARRAY: Unit := 93
  const OPEN_OBJECT: Unit := 123
  const CLOSE_OBJECT: Unit := 125
  const MINUS: Unit := 45

  const NULL_TEXT: Text := [110, 117, 108, 108]
  const TRUE_TEXT: Text := [116, 114, 117, 101]
  const FALSE_TEXT: Text := [102, 97, 108, 115, 101]

  // ----- objects -----

  ghost predicate DistinctKeys(ms: seq<Member>)
  {
    forall i, j :: 0 <= i < j < |ms| ==> ms[i].key != ms[j].key
  }

  function Keys(ms: seq<Member>): (keys: seq<Text>)
    ensures |keys| == |ms| && forall i :: 0 <= i < |ms| ==> keys[i] == ms[i].key
  {
    seq(|ms|, i requires 0 <= i < |ms| => ms[i].key)
  }

  /** The value of an own property. */
  function Find(ms: seq<Member>, key: Text): (r: Option<Json>)
  {
    if ms == [] then None
    else if ms[0].key == key then Some(ms[0].value)
    else Find(ms[1..], key)
  }

  function Field(v: Json, key: Text): (r: Option<Json>)
  {
    if v.Object? then Find(v.members, key) else None
  }

  /** The value of an own property that is a string. */
  function StringField(v: Json, key: Text): (r: Option<Text>)
  {
    match Field(v, key)
    case Some(String(s)) => Some(s)
    case _ => None
  }

  /** Property assignment: an existing key keeps its place and takes the new value. */
  function Put(ms: seq<Member>, key: Text, value: Json): (r: seq<Member>)
  {
    if ms == [] then [Member(key, value)]
    else if ms[0].key == key then [Member(key, value)] + ms[1..]
    else [ms[0]] + Put(ms[1..], key, value)
  }

  lemma {:induction false} PutFresh(ms: seq<Member>, key: Text, value: Json)
    requires forall i :: 0 <= i < |ms| ==> ms[i].key != key
    ensures Put(ms, key, value) == ms + [Member(key, value)]
  {
    if ms != [] {
      PutFresh(ms[1..], key, value);
      assert ms == [ms[0]] + ms[1..];
    }
  }

  /** Trees the parser can give back: every number integral, no key twice in one object. */
  ghost predicate Plain(v: Json)
  {
    match v
    case NonInteger => false
    case Array(items) => forall i :: 0 <= i < |items| ==> Plain(items[i])
    case Object(ms) => DistinctKeys(ms) && forall i :: 0 <= i < |ms| ==> Plain(ms[i].value)
    case _ => true
  }

  // ----- strings -----

  function HexDigit(d: int): Unit
    requires 0 <= d < 16
  {
    if d < 10 then 48 + d else 87 + d
  }

  function HexValue(u: Unit): (r: Option<int>)
    ensures r.Some? ==> 0 <= r.value < 16
  {
    if 48 <= u < 58 then Some(u - 48)
    else if 97 <= u < 103 then Some(u - 87)
    else if 65 <= u < 71 then Some(u - 55)
    else None
  }

  function Hex4(u: Unit): (t: Text)
    ensures |t| == 4
  {
    [HexDigit(u / 0x1000), HexDigit(u / 0x100 % 0x10), HexDigit(u / 0x10 % 0x10), HexDigit(u % 0x10)]
  }

  /** The short escapes of section 7 of RFC 8259, as (letter, unit). */
  function ShortEscape(u: Unit): Option<Unit>
  {
    if u == 8 then Some(98)
    else if u == 9 then Some(116)
    else if u == 10 then Some(110)
    else if u == 12 then Some(102)
    else if u == 13 then Some(114)
    else if u == QUOTE then Some(QUOTE)
    else if u == BACKSLASH then Some(BACKSLASH)
    else None
  }

  function Escape(u: Unit): Text
  {
    match ShortEscape(u)
    case Some(letter) => [BACKSLASH, letter]
    case None => if u < 32 || IsSurrogate(u) then [BACKSLASH, 117] + Hex4(u) else [u]
  }

  function QuoteBody(s: Text): Text
  {
    if s == [] then []
    else if StartsWithPair(s) then [s[0], s[1]] + QuoteBody(s[2..])
    else Escape(s[0]) + QuoteBody(s[1..])
  }

  function Quote(s: Text): Text { [QUOTE] + QuoteBody(s) + [QUOTE] }

  function UnescapeLetter(u: Unit): Option<Unit>
  {
    if u == 98 then Some(8)
    else if u == 116 then Some(9)
    else if u == 110 then Some(10)
    else if u == 102 then Some(12)
    else if u == 114 then Some(13)
    else if u == QUOTE || u == BACKSLASH || u == 47 then Some(u)
    else None
  }

  /** The unit an escape stands for and its length. */
  function Unescape(t: Text): (r: Option<(Unit, nat)>)
    requires t != []
    ensures r.Some? ==> 2 <= r.value.1 <= |t|
  {
    if |t| < 2 then None
    else if t[1] == 117 then
      if |t| < 6 then None
      else
        match (HexValue(t[2]), HexValue(t[3]), HexValue(t[4]), HexValue(t[5]))
        case (Some(a), Some(b), Some(c), Some(d)) => Some((((a * 16 + b) * 16 + c) * 16 + d, 6))
        case _ => None
    else
      match UnescapeLetter(t[1])
      case Some(u) => Some((u, 2))
      case None => None
  }

  function Prepend<T>(head: T, r: Option<(seq<T>, Text)>): Option<(seq<T>, Text)>
  {
    match r
    case None => None
    case Some(p) => Some(([head] + p.0, p.1))
  }

  /** The string up to its closing quote, and the text after it. */
  function ParseString(t: Text): (r: Option<(Text, Text)>)
    ensures r.Some? ==> |r.value.1| < |t|
  {
    if t == [] || t[0] < 32 then None
    else if t[0] == QUOTE then Some(([], t[1..]))
    else if t[0] == BACKSLASH then
      match Unescape(t)
      case None => None
      case Some(un) => Prepend(un.0, ParseString(t[un.1..]))
    else Prepend(t[0], ParseString(t[1..]))
  }

  lemma {:induction false} HexDigitRoundTrip(d: int)
    requires 0 <= d < 16
    ensures HexValue(HexDigit(d)) == Some(d)
  {
  }

  lemma {:induction false} HexParts(u: int)
    requires 0 <= u
    ensures ((u / 0x1000 * 16 + u / 0x100 % 0x10) * 16 + u / 0x10 % 0x10) * 16 + u % 0x10 == u
  {
    var q := u / 0x10;
    var p := u / 0x100;
    assert p == q / 0x10 && u / 0x1000 == p / 0x10;
  }

  lemma {:induction false} HexRoundTrip(u: Unit)
    ensures var h := Hex4(u);
            HexValue(h[0]) == Some(u / 0x1000) && HexValue(h[1]) == Some(u / 0x100 % 0x10) &&
            HexValue(h[2]) == Some(u / 0x10 % 0x10) && HexValue(h[3]) == Some(u % 0x10)
    ensures ((u / 0x1000 * 16 + u / 0x100 % 0x10) * 16 + u / 0x10 % 0x10) * 16 + u % 0x10 == u
  {
    HexDigitRoundTrip(u / 0x1000);
    HexDigitRoundTrip(u / 0x100 % 0x10);
    HexDigitRoundTrip(u / 0x10 % 0x10);
    HexDigitRoundTrip(u % 0x10);
    HexParts(u);
  }

  lemma {:induction false} ParseShortEscape(u: Unit, rest: Text)
    requires ShortEscape(u).Some?
    ensures ParseString(Escape(u) + rest) == Prepend(u, ParseString(rest))
  {
    var e := Escape(u);
    assert (e + rest)[|e|..] == rest;
  }

  lemma {:induction false} ParseEscape(u: Unit, rest: Text)
    ensures ParseString(Escape(u) + rest) == Prepend(u, ParseString(rest))
  {
    if ShortEscape(u).Some? {
      ParseShortEscape(u, rest);
    } else {
      var e := Escape(u);
      HexRoundTrip(u);
      assert (e + rest)[|e|..] == rest;
    }
  }

  lemma {:induction false} ParseVerbatim(u: Unit, rest: Text)
    requires u >= 32 && u != QUOTE && u != BACKSLASH
    ensures ParseString([u] + rest) == Prepend(u, ParseString(rest))
  {
    assert ([u] + rest)[1..] == rest;
  }

  function Extend<T>(head: seq<T>, r: Option<(seq<T>, Text)>): Option<(seq<T>, Text)>
  {
    match r
    case None => None
    case Some(p) => Some((head + p.0, p.1))
  }

  lemma {:induction false} ExtendJoins<T>(a: seq<T>, b: seq<T>, r: Option<(seq<T>, Text)>)
    ensures Extend(a, Extend(b, r)) == Extend(a + b, r)
  {
    if r.Some? {
      assert a + (b + r.value.0) == a + b + r.value.0;
    }
  }

  lemma {:induction false} ParseLead(s: Text, tail: Text)
    requires s != []
    ensures var n := LeadLength(s);
            ParseString(QuoteBody(s) + tail) == Extend(s[..n], ParseString(QuoteBody(s[n..]) + tail))
  {
    if StartsWithPair(s) {
      var body := QuoteBody(s[2..]) + tail;
      assert QuoteBody(s) + tail == [s[0]] + ([s[1]] + body);
      ParseVerbatim(s[1], body);
      ParseVerbatim(s[0], [s[1]] + body);
      ExtendJoins([s[0]], [s[1]], ParseString(body));
      assert s[..2] == [s[0]] + [s[1]];
    } else {
      var body := QuoteBody(s[1..]) + tail;
      assert QuoteBody(s) + tail == Escape(s[0]) + body;
      ParseEscape(s[0], body);
      assert s[..1] == [s[0]];
    }
  }

  lemma {:induction false} ParseQuotedBody(s: Text, tail: Text)
    ensures ParseString(QuoteBody(s) + tail) == Extend(s, ParseString(tail))
    decreases |s|
  {
    if s == [] {
      assert QuoteBody(s) + tail == tail;
      assert ParseString(tail).Some? ==> s + ParseString(tail).value.0 == ParseString(tail).value.0;
    } else {
      var n := LeadLength(s);
      ParseLead(s, tail);
      ParseQuotedBody(s[n..], tail);
      ExtendJoins(s[..n], s[n..], ParseString(tail));
      assert s == s[..n] + s[n..];
    }
  }

  lemma {:induction false} ParseQuoted(s: Text, rest: Text)
    ensures ParseString(QuoteBody(s) + [QUOTE] + rest) == Some((s, rest))
  {
    var tail := [QUOTE] + rest;
    ParseQuotedBody(s, tail);
    assert tail[1..] == rest;
    assert s + [] == s;
    assert QuoteBody(s) + [QUOTE] + rest == QuoteBody(s) + tail;
  }

  // ----- numbers -----

  function Digits(n: nat): (t: Text)
    ensures t != [] && forall i :: 0 <= i < |t| ==> IsDigit(t[i])
    ensures |t| > 1 ==> t[0] != 48
    ensures n != 0 ==> t[0] != 48
  {
    if n < 10 then [48 + n] else Digits(n / 10) + [48 + n % 10]
  }

  function PrintInteger(n: int): Text
  {
    if n < 0 then [MINUS] + Digits(-n) else Digits(n)
  }

  function DigitsValue(t: Text): int
  {
    if t == [] then 0 else 10 * DigitsValue(t[..|t| - 1]) - 48 + t[|t| - 1]
  }

  lemma {:induction false} DigitsRoundTrip(n: nat)
    ensures DigitsValue(Digits(n)) == n
  {
    if n >= 10 {
      DigitsRoundTrip(n / 10);
      var d := Digits(n / 10);
      assert (d + [48 + n % 10])[..|d|] == d;
    } else {
      assert DigitsValue([]) == 0;
      assert [48 + n][..0] == [];
    }
  }

  /** How many digits the text starts with. */
  function DigitCount(t: Text): (n: nat)
    ensures n <= |t|
    ensures forall i :: 0 <= i < n ==> IsDigit(t[i])
    ensures n < |t| ==> !IsDigit(t[n])
  {
    if t == [] || !IsDigit(t[0]) then 0 else 1 + DigitCount(t[1..])
  }

  function Pow10(e: nat): (p: int)
    ensures p > 0
  {
    if e == 0 then 1 else 10 * Pow10(e - 1)
  }

  /** The number mantissa * 10^exponent. */
  function Decimal(mantissa: int, exponent: int): Json
  {
    if exponent >= 0 then Integer(mantissa * Pow10(exponent))
    else if mantissa % Pow10(-exponent) == 0 then Integer(mantissa / Pow10(-exponent))
    else NonInteger
  }

  function Fraction(t: Text): (r: Option<(Text, Text)>)
    ensures r.Some? ==> |r.value.1| <= |t|
  {
    if t == [] || t[0] != 46 then Some(([], t))
    else
      var n := DigitCount(t[1..]);
      if n == 0 then None else Some((t[1..][..n], t[1..][n..]))
  }

  function Exponent(t: Text): (r: Option<(int, Text)>)
    ensures r.Some? ==> |r.value.1| <= |t|
  {
    if t == [] || (t[0] != 101 && t[0] != 69) then Some((0, t))
    else
      var signed := |t| > 1 && (t[1] == 43 || t[1] == MINUS);
      var d := if signed then t[2..] else t[1..];
      var n := DigitCount(d);
      if n == 0 then None
      else Some((if signed && t[1] == MINUS then -DigitsValue(d[..n]) else DigitsValue(d[..n]), d[n..]))
  }

  /** The number grammar of section 6 of RFC 8259. */
  function ParseNumber(t: Text): (r: Option<(Json, Text)>)
    ensures r.Some? ==> |r.value.1| < |t|
  {
    var negative := t != [] && t[0] == MINUS;
    var u := if negative then t[1..] else t;
    var n := DigitCount(u);
    if n == 0 || (n > 1 && u[0] == 48) then None
    else
      match Fraction(u[n..])
      case None => None
      case Some(fr) =>
        match Exponent(fr.1)
        case None => None
        case Some(ex) =>
          var m := DigitsValue(u[..n] + fr.0);
          Some((Decimal(if negative then -m else m, ex.0 - |fr.0|), ex.1))
  }

  /** Text that cannot continue a number. */
  predicate EndsNumber(t: Text)
  {
    t == [] || !(IsDigit(t[0]) || t[0] == 46 || t[0] == 101 || t[0] == 69)
  }

  lemma {:induction false} DigitCountExact(d: Text, rest: Text)
    requires forall i :: 0 <= i < |d| ==> IsDigit(d[i])
    requires rest == [] || !IsDigit(rest[0])
    ensures DigitCount(d + rest) == |d|
  {
    if d == [] {
      assert d + rest == rest;
    } else {
      DigitCountExact(d[1..], rest);
      assert (d + rest)[1..] == d[1..] + rest;
    }
  }

  /** Without fraction and exponent a number is what its digits say. */
  lemma {:induction false} EndOfNumber(m: int, rest: Text)
    requires EndsNumber(rest)
    ensures Fraction(rest) == Some(([], rest)) && Exponent(rest) == Some((0, rest))
    ensures Decimal(m, 0) == Integer(m) && Decimal(-m, 0) == Integer(-m)
  {
    assert Pow10(0) == 1;
  }

  /** A number written as its digits alone. */
  lemma {:induction false} ParseDigits(d: Text, rest: Text)
    requires d != [] && (forall i :: 0 <= i < |d| ==> IsDigit(d[i])) && (|d| > 1 ==> d[0] != 48) && EndsNumber(rest)
    ensures ParseNumber(d + rest) == Some((Integer(DigitsValue(d)), rest))
    ensures ParseNumber([MINUS] + d + rest) == Some((Integer(-DigitsValue(d)), rest))
  {
    var u := d + rest;
    DigitCountExact(d, rest);
    EndOfNumber(DigitsValue(d), rest);
    assert u[..|d|] == d && u[|d|..] == rest && d + [] == d;
    assert ([MINUS] + d + rest)[1..] == u;
  }

  lemma {:induction false} ParsePrintedInteger(n: int, rest: Text)
    requires EndsNumber(rest)
    ensures ParseNumber(PrintInteger(n) + rest) == Some((Integer(n), rest))
  {
    var m := if n < 0 then -n else n;
    ParseDigits(Digits(m), rest);
    DigitsRoundTrip(m);
  }

  // ----- values -----

  function Print(v: Json): Text
    decreases v, 1
  {
    match v
    case Null => NULL_TEXT
    case Bool(b) => if b then TRUE_TEXT else FALSE_TEXT
    case Integer(n) => PrintInteger(n)
    case NonInteger => []  // never printed: canonical trees hold no such number
    case String(s) => Quote(s)
    case Array(items) => [OPEN_ARRAY] + PrintItems(items) + [CLOSE_ARRAY]
    case Object(ms) => [OPEN_OBJECT] + PrintMembers(ms) + [CLOSE_OBJECT]
  }

  function PrintItems(items: seq<Json>): Text
    decreases items, 0
  {
    if items == [] then []
    else if |items| == 1 then Print(items[0])
    else Print(items[0]) + [COMMA] + PrintItems(items[1..])
  }

  function PrintMember(m: Member): Text
    decreases m, 2
  {
    Quote(m.key) + [COLON] + Print(m.value)
  }

  function PrintMembers(ms: seq<Member>): Text
    decreases ms, 0
  {
    if ms == [] then []
    else if |ms| == 1 then PrintMember(ms[0])
    else PrintMember(ms[0]) + [COMMA] + PrintMembers(ms[1..])
  }

  predicate IsSpace(u: Unit) { u == 32 || u == 9 || u == 10 || u == 13 }

  function SkipSpace(t: Text): (r: Text)
    ensures |r| <= |t|
    ensures r == [] || !IsSpace(r[0])
  {
    if t != [] && IsSpace(t[0]) then SkipSpace(t[1..]) else t
  }

  function Starts(t: Text, u: Unit): bool { t != [] && t[0] == u }

  function ParseValue(t: Text): (r: Option<(Json, Text)>)
    ensures r.Some? ==> |r.value.1| < |t|
    decreases |t|, 2
  {
    var s := SkipSpace(t);
    if s == [] then None
    else if NULL_TEXT <= s then Some((Null, s[4..]))
    else if TRUE_TEXT <= s then Some((Bool(true), s[4..]))
    else if FALSE_TEXT <= s then Some((Bool(false), s[5..]))
    else if s[0] == QUOTE then
      match ParseString(s[1..])
      case None => None
      case Some(p) => Some((String(p.0), p.1))
    else if s[0] == OPEN_ARRAY then
      var u := SkipSpace(s[1..]);
      if Starts(u, CLOSE_ARRAY) then Some((Array([]), u[1..]))
      else
        match ParseItems(u)
        case None => None
        case Some(p) => Some((Array(p.0), p.1))
    else if s[0] == OPEN_OBJECT then
      var u := SkipSpace(s[1..]);
      if Starts(u, CLOSE_OBJECT) then Some((Object([]), u[1..]))
      else
        match ParseMembers(u, [])
        case None => None
        case Some(p) => Some((Object(p.0), p.1))
    else ParseNumber(s)
  }

  function ParseItems(t: Text): (r: Option<(seq<Json>, Text)>)
    ensures r.Some? ==> |r.value.1| < |t|
    decreases |t|, 3
  {
    match ParseValue(t)
    case None => None
    case Some(p) =>
      var u := SkipSpace(p.1);
      if Starts(u, COMMA) then Prepend(p.0, ParseItems(u[1..]))
      else if Starts(u, CLOSE_ARRAY) then Some(([p.0], u[1..]))
      else None
  }

  function ParseMembers(t: Text, before: seq<Member>): (r: Option<(seq<Member>, Text)>)
    ensures r.Some? ==> |r.value.1| < |t|
    decreases |t|, 3
  {
    var s := SkipSpace(t);
    if !Starts(s, QUOTE) then None
    else
      match ParseString(s[1..])
      case None => None
      case Some(k) =>
        var c := SkipSpace(k.1);
        if !Starts(c, COLON) then None
        else
          match ParseValue(c[1..])
          case None => None
          case Some(p) =>
            var u := SkipSpace(p.1);
            var now := Put(before, k.0, p.0);
            if Starts(u, COMMA) then ParseMembers(u[1..], now)
            else if Starts(u, CLOSE_OBJECT) then Some((now, u[1..]))
            else None
  }

  /** `JSON.parse`. */
  function Parse(t: Text): (r: Option<Json>)
  {
    match ParseValue(t)
    case None => None
    case Some(p) => if SkipSpace(p.1) == [] then Some(p.0) else None
  }

  // ----- parsing undoes printing -----

  /** The characters a printed value can start with. */
  predicate StartsValue(u: Unit)
  {
    u == 110 || u == 116 || u == 102 || u == QUOTE || u == OPEN_ARRAY || u == OPEN_OBJECT || u == MINUS || IsDigit(u)
  }

  lemma {:induction false} PrintStarts(v: Json)
    requires v != NonInteger
    ensures Print(v) != [] && StartsValue(Print(v)[0])
    ensures v.Integer? ==> Print(v)[0] == MINUS || IsDigit(Print(v)[0])
  {
  }

  lemma {:induction false} SkipNothing(t: Text)
    requires t == [] || !IsSpace(t[0])
    ensures SkipSpace(t) == t
  {
  }

  lemma {:induction false} ParsePrintedString(s: Text, rest: Text)
    ensures ParseValue(Quote(s) + rest) == Some((String(s), rest))
  {
    var body := QuoteBody(s) + [QUOTE] + rest;
    Regroup([QUOTE], QuoteBody(s), [QUOTE], rest);
    ParseQuoted(s, rest);
    ParseStringText(body);
  }

  lemma {:induction false} ParseStringText(body: Text)
    requires ParseString(body).Some?
    ensures ParseValue([QUOTE] + body) == Some((String(ParseString(body).value.0), ParseString(body).value.1))
  {
    var t := [QUOTE] + body;
    SkipNothing(t);
    assert t[1..] == body;
  }

  lemma {:induction false} ParseNumberText(t: Text)
    requires t != [] && (t[0] == MINUS || IsDigit(t[0]))
    ensures ParseValue(t) == ParseNumber(t)
  {
    SkipNothing(t);
  }

  lemma {:induction false} ParsePrintedNumber(n: int, rest: Text)
    requires EndsNumber(rest)
    ensures ParseValue(PrintInteger(n) + rest) == Some((Integer(n), rest))
  {
    var t := PrintInteger(n) + rest;
    PrintStarts(Integer(n));
    assert t[0] == PrintInteger(n)[0];
    ParseNumberText(t);
    ParsePrintedInteger(n, rest);
  }

  /** Scalars. */
  lemma {:induction false} ParsePrintedScalar(v: Json, rest: Text)
    requires !v.NonInteger? && !v.Array? && !v.Object? && EndsNumber(rest)
    ensures ParseValue(Print(v) + rest) == Some((v, rest))
  {
    match v {
      case Null =>
        assert (NULL_TEXT + rest)[4..] == rest && NULL_TEXT <= NULL_TEXT + rest;
      case Bool(true) =>
        assert (TRUE_TEXT + rest)[4..] == rest && TRUE_TEXT <= TRUE_TEXT + rest;
      case Bool(false) =>
        assert (FALSE_TEXT + rest)[5..] == rest && FALSE_TEXT <= FALSE_TEXT + rest;
      case Integer(n) => ParsePrintedNumber(n, rest);
      case String(s) => ParsePrintedString(s, rest);
    }
  }

  lemma {:induction false} ParsePrintedArray(items: seq<Json>, rest: Text)
    requires items != [] ==> items[0] != NonInteger
    requires items != [] ==> ParseItems(PrintItems(items) + [CLOSE_ARRAY] + rest) == Some((items, rest))
    ensures ParseValue(Print(Array(items)) + rest) == Some((Array(items), rest))
  {
    var t := Print(Array(items)) + rest;
    SkipNothing(t);
    var inner := PrintItems(items) + [CLOSE_ARRAY] + rest;
    assert t[1..] == inner;
    if items == [] {
      assert inner == [CLOSE_ARRAY] + rest && inner[1..] == rest;
    } else {
      PrintStarts(items[0]);
      assert inner != [] && inner[0] == Print(items[0])[0];
    }
    SkipNothing(inner);
  }

  lemma {:induction false} ParseObjectText(inner: Text, ms: seq<Member>, rest: Text)
    requires Starts(inner, QUOTE) && ParseMembers(inner, []) == Some((ms, rest))
    ensures ParseValue([OPEN_OBJECT] + inner) == Some((Object(ms), rest))
  {
    var t := [OPEN_OBJECT] + inner;
    SkipNothing(t);
    SkipNothing(inner);
    assert t[1..] == inner;
  }

  lemma {:induction false} ParseEmptyObject(rest: Text)
    ensures ParseValue([OPEN_OBJECT, CLOSE_OBJECT] + rest) == Some((Object([]), rest))
  {
    var t := [OPEN_OBJECT, CLOSE_OBJECT] + rest;
    SkipNothing(t);
    SkipNothing(t[1..]);
    assert t[1..][1..] == rest;
  }

  lemma {:induction false} PrintMembersStarts(ms: seq<Member>)
    requires ms != []
    ensures Starts(PrintMembers(ms), QUOTE)
  {
    assert Starts(PrintMember(ms[0]), QUOTE);
  }

  /** Concatenation is associative, stated where the solver needs the particular grouping. */
  lemma {:induction false} Regroup(a: Text, b: Text, c: Text, d: Text)
    ensures a + b + c + d == a + (b + c + d)
  {
  }

  lemma {:induction false} RegroupList(a: Text, comma: Text, b: Text, close: Text, rest: Text)
    ensures a + comma + b + close + rest == a + (comma + (b + close + rest))
    ensures a + close + rest == a + (close + rest)
  {
  }

  lemma {:induction false} ParsePrintedObject(ms: seq<Member>, rest: Text)
    requires ms != [] ==> ParseMembers(PrintMembers(ms) + [CLOSE_OBJECT] + rest, []) == Some((ms, rest))
    ensures ParseValue(Print(Object(ms)) + rest) == Some((Object(ms), rest))
  {
    if ms == [] {
      ParseEmptyObject(rest);
      assert Print(Object(ms)) + rest == [OPEN_OBJECT, CLOSE_OBJECT] + rest;
    } else {
      PrintMembersStarts(ms);
      var inner := PrintMembers(ms) + [CLOSE_OBJECT] + rest;
      ParseObjectText(inner, ms, rest);
      Regroup([OPEN_OBJECT], PrintMembers(ms), [CLOSE_OBJECT], rest);
    }
  }

  lemma {:induction false} ParsePrinted(v: Json, rest: Text)
    requires Plain(v) && EndsNumber(rest)
    ensures ParseValue(Print(v) + rest) == Some((v, rest))
    decreases v, 1
  {
    match v {
      case Array(items) =>
        if items != [] {
          assert Plain(items[0]);
          ParsePrintedItems(items, rest);
        }
        ParsePrintedArray(items, rest);
      case Object(ms) =>
        if ms != [] {
          assert [] + ms == ms;
          ParsePrintedMembers(ms, rest, []);
        }
        ParsePrintedObject(ms, rest);
      case _ => ParsePrintedScalar(v, rest);
    }
  }

  /** One item, up to the text after it. */
  lemma {:induction false} ParseItem(t: Text, v: Json, tail: Text)
    requires ParseValue(t) == Some((v, tail)) && (Starts(tail, COMMA) || Starts(tail, CLOSE_ARRAY))
    ensures ParseItems(t) == if tail[0] == COMMA then Prepend(v, ParseItems(tail[1..])) else Some(([v], tail[1..]))
  {
    SkipNothing(tail);
  }

  lemma {:induction false} ItemsTail(items: seq<Json>, rest: Text)
    requires items != []
    ensures var tail := [if |items| == 1 then CLOSE_ARRAY else COMMA] +
                        (if |items| == 1 then rest else PrintItems(items[1..]) + [CLOSE_ARRAY] + rest);
            PrintItems(items) + [CLOSE_ARRAY] + rest == Print(items[0]) + tail
  {
    RegroupList(Print(items[0]), [COMMA], PrintItems(items[1..]), [CLOSE_ARRAY], rest);
  }

  lemma {:induction false} ParsePrintedItems(items: seq<Json>, rest: Text)
    requires items != [] && forall i :: 0 <= i < |items| ==> Plain(items[i])
    ensures ParseItems(PrintItems(items) + [CLOSE_ARRAY] + rest) == Some((items, rest))
    decreases items, 0
  {
    var after := if |items| == 1 then rest else PrintItems(items[1..]) + [CLOSE_ARRAY] + rest;
    var tail := [if |items| == 1 then CLOSE_ARRAY else COMMA] + after;
    assert tail[1..] == after;
    ItemsTail(items, rest);
    ParsePrinted(items[0], tail);
    ParseItem(Print(items[0]) + tail, items[0], tail);
    if |items| == 1 {
      assert items == [items[0]];
    } else {
      ParsePrintedItems(items[1..], rest);
      assert items == [items[0]] + items[1..];
    }
  }

  /** One member, up to the text after its value. */
  lemma {:induction false} ParsePrintedKey(key: Text, after: Text)
    ensures var t := Quote(key) + [COLON] + after;
            SkipSpace(t) == t && Starts(t, QUOTE) &&
            ParseString(t[1..]) == Some((key, [COLON] + after)) &&
            SkipSpace([COLON] + after) == [COLON] + after && ([COLON] + after)[1..] == after
  {
    var t := Quote(key) + [COLON] + after;
    ParseQuoted(key, [COLON] + after);
    assert t[1..] == QuoteBody(key) + [QUOTE] + ([COLON] + after);
  }

  lemma {:induction false} ParsePrintedMember(m: Member, tail: Text, before: seq<Member>)
    requires ParseValue(Print(m.value) + tail) == Some((m.value, tail))
    requires Starts(tail, COMMA) || Starts(tail, CLOSE_OBJECT)
    ensures ParseMembers(PrintMember(m) + tail, before) ==
            var now := Put(before, m.key, m.value);
            if tail[0] == COMMA then ParseMembers(tail[1..], now) else Some((now, tail[1..]))
  {
    assert PrintMember(m) + tail == Quote(m.key) + [COLON] + (Print(m.value) + tail);
    ParsePrintedKey(m.key, Print(m.value) + tail);
    SkipNothing(tail);
  }

  lemma {:induction false} MembersTail(ms: seq<Member>, rest: Text)
    requires ms != []
    ensures var tail := [if |ms| == 1 then CLOSE_OBJECT else COMMA] +
                        (if |ms| == 1 then rest else PrintMembers(ms[1..]) + [CLOSE_OBJECT] + rest);
            PrintMembers(ms) + [CLOSE_OBJECT] + rest == PrintMember(ms[0]) + tail
  {
    RegroupList(PrintMember(ms[0]), [COMMA], PrintMembers(ms[1..]), [CLOSE_OBJECT], rest);
  }

  lemma {:induction false} PutNext(ms: seq<Member>, before: seq<Member>)
    requires ms != [] && DistinctKeys(before + ms)
    ensures Put(before, ms[0].key, ms[0].value) == before + [ms[0]]
    ensures before + [ms[0]] + ms[1..] == before + ms
  {
    assert forall i :: 0 <= i < |before| ==> before[i] == (before + ms)[i];
    assert (before + ms)[|before|] == ms[0];
    PutFresh(before, ms[0].key, ms[0].value);
  }

  lemma {:induction false} ParsePrintedMembers(ms: seq<Member>, rest: Text, before: seq<Member>)
    requires ms != [] && DistinctKeys(before + ms) && forall i :: 0 <= i < |ms| ==> Plain(ms[i].value)
    ensures ParseMembers(PrintMembers(ms) + [CLOSE_OBJECT] + rest, before) == Some((before + ms, rest))
    decreases ms, 0
  {
    var after := if |ms| == 1 then rest else PrintMembers(ms[1..]) + [CLOSE_OBJECT] + rest;
    var tail := [if |ms| == 1 then CLOSE_OBJECT else COMMA] + after;
    assert tail[1..] == after;
    MembersTail(ms, rest);
    ParsePrinted(ms[0].value, tail);
    ParsePrintedMember(ms[0], tail, before);
    PutNext(ms, before);
    if |ms| == 1 {
      assert before + [ms[0]] == before + ms;
    } else {
      ParsePrintedMembers(ms[1..], rest, before + [ms[0]]);
    }
  }

  /** Parsing undoes printing on every tree with integral numbers and distinct keys. */
  lemma {:induction false} ParseUndoesPrint(v: Json)
    requires Plain(v)
    ensures Parse(Print(v)) == Some(v)
  {
    ParsePrinted(v, []);
    assert Print(v) + [] == Print(v);
  }

  /** Printing loses nothing. */
  lemma {:induction false} PrintIsInjective(v: Json, w: Json)
    requires Plain(v) && Plain(w) && Print(v) == Print(w)
    ensures v == w
  {
    ParseUndoesPrint(v);
    ParseUndoesPrint(w);
  }
}
