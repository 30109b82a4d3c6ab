/** Optional results: the source's thrown denials become `None` where only the denial matters. */
module Outcomes {
  datatype Option<+T> = None | Some(value: T)
}

/**
 * JavaScript strings as sequences of UTF-16 code units (lone surrogates included),
 * and the bytes Node's `Buffer` gives them.
 */
module Texts {
  import opened Outcomes

  type Unit = u: int | 0 <= u < 0x1_0000
  type Text = seq<Unit>
  type Byte = b: int | 0 <= b < 0x100
  type Bytes = seq<Byte>

  const NEWLINE: Unit := 10
  const REPLACEMENT: Unit := 0xFFFD

  /** An ASCII literal as a JavaScript string; no literal here has any other character. */
  function Ascii(s: string): (t: Text)
    ensures |t| == |s|
  {
    seq(|s|, i requires 0 <= i < |s| => CodeOf(s[i]))
  }

  function CodeOf(c: char): Unit { if c as int < 128 then c as int else 63 }

  predicate IsLetter(u: Unit) { 65 <= u < 91 || 97 <= u < 123 }
  predicate IsDigit(u: Unit) { 48 <= u < 58 }
  predicate IsAlphanumeric(u: Unit) { IsLetter(u) || IsDigit(u) }

  /** One alphanumeric, then at most 255 of those or `:._/-`. */
  predicate IsSafeReference(t: Text)
  {
    1 <= |t| <= 256 && IsAlphanumeric(t[0]) &&
    forall i :: 1 <= i < |t| ==> IsAlphanumeric(t[i]) || t[i] in {58, 46, 95, 47, 45}
  }

  /** A SHA-256 digest in lower-case hexadecimal. */
  predicate IsDigest(t: Text)
  {
    |t| == 64 && forall i :: 0 <= i < |t| ==> IsDigit(t[i]) || 97 <= t[i] < 103
  }

  /** The smallest digest: 64 zeros. */
  function ZeroDigest(): (t: Text)
    ensures IsDigest(t)
  {
    seq(64, i => 48)
  }

  predicate IsHigh(u: Unit) { 0xD800 <= u < 0xDC00 }
  predicate IsLow(u: Unit) { 0xDC00 <= u < 0xE000 }
  predicate IsSurrogate(u: Unit) { 0xD800 <= u < 0xE000 }

  /** Does the text start with a high surrogate followed by a low one? */
  predicate StartsWithPair(t: Text) { |t| >= 2 && IsHigh(t[0]) && IsLow(t[1]) }

  /** Every surrogate of the text belongs to a pair. */
  predicate WellFormed(t: Text)
  {
    t == [] ||
    (if StartsWithPair(t) then WellFormed(t[2..]) else !IsSurrogate(t[0]) && WellFormed(t[1..]))
  }

  lemma {:induction false} WellFormedConcat(s: Text, t: Text)
    requires WellFormed(s) && WellFormed(t)
    ensures WellFormed(s + t)
    decreases |s|
  {
    if s == [] {
      assert s + t == t;
    } else if StartsWithPair(s) {
      WellFormedConcat(s[2..], t);
      assert (s + t)[2..] == s[2..] + t;
    } else {
      WellFormedConcat(s[1..], t);
      assert (s + t)[1..] == s[1..] + t;
    }
  }

  lemma {:induction false} PlainIsWellFormed(s: Text)
    requires forall i :: 0 <= i < |s| ==> !IsSurrogate(s[i])
    ensures WellFormed(s)
  {
    if s != [] {
      PlainIsWellFormed(s[1..]);
    }
  }

  // ----- code points -----

  predicate IsScalar(p: int) { 0 <= p < 0xD800 || 0xE000 <= p < 0x11_0000 }

  function PointBytes(p: int): (b: Bytes)
    requires IsScalar(p)
    ensures 1 <= |b| <= 4
  {
    if p < 0x80 then [p]
    else if p < 0x800 then [0xC0 + p / 0x40, 0x80 + p % 0x40]
    else if p < 0x1_0000 then [0xE0 + p / 0x1000, 0x80 + p / 0x40 % 0x40, 0x80 + p % 0x40]
    else [0xF0 + p / 0x4_0000, 0x80 + p / 0x1000 % 0x40, 0x80 + p / 0x40 % 0x40, 0x80 + p % 0x40]
  }

  function PointUnits(p: int): (t: Text)
    requires IsScalar(p)
    ensures 1 <= |t| <= 2
  {
    if p < 0x1_0000 then [p]
    else [0xD800 + (p - 0x1_0000) / 0x400, 0xDC00 + (p - 0x1_0000) % 0x400]
  }

  function PairPoint(high: int, low: int): int { 0x1_0000 + (high - 0xD800) * 0x400 + (low - 0xDC00) }

  predicate IsContinuation(b: Byte) { 0x80 <= b < 0xC0 }

  /** The number a lead byte's payload and its continuation bytes spell. */
  function Spell2(a: int, b: int): int { a * 0x40 + (b - 0x80) }
  function Spell3(a: int, b: int, c: int): int { Spell2(a, b) * 0x40 + (c - 0x80) }
  function Spell4(a: int, b: int, c: int, d: int): int { Spell3(a, b, c) * 0x40 + (d - 0x80) }

  /** The first scalar value of a byte string and how many bytes spell it, in shortest form only. */
  function FirstPoint(b: Bytes): (r: Option<(int, nat)>)
    requires b != []
  {
    if b[0] < 0x80 then Some((b[0], 1))
    else if 0xC0 <= b[0] < 0xE0 && |b| >= 2 && IsContinuation(b[1]) then
      var p := Spell2(b[0] - 0xC0, b[1]);
      if p >= 0x80 then Some((p, 2)) else None
    else if 0xE0 <= b[0] < 0xF0 && |b| >= 3 && IsContinuation(b[1]) && IsContinuation(b[2]) then
      var p := Spell3(b[0] - 0xE0, b[1], b[2]);
      if p >= 0x800 && IsScalar(p) then Some((p, 3)) else None
    else if 0xF0 <= b[0] < 0xF8 && |b| >= 4 && IsContinuation(b[1]) && IsContinuation(b[2]) && IsContinuation(b[3]) then
      var p := Spell4(b[0] - 0xF0, b[1], b[2], b[3]);
      if 0x1_0000 <= p && IsScalar(p) then Some((p, 4)) else None
    else None
  }

  lemma {:induction false} SixBits(p: int)
    ensures p == p / 0x40 * 0x40 + p % 0x40 && 0 <= p % 0x40 < 0x40
    ensures p / 0x1000 == p / 0x40 / 0x40
    ensures p / 0x4_0000 == p / 0x1000 / 0x40
  {
  }

  lemma {:induction false} SpelledBytes(p: int, rest: Bytes)
    requires IsScalar(p)
    ensures p < 0x80 ==> FirstPoint([p] + rest) == Some((p, 1))
    ensures var b := PointBytes(p); 0x80 <= p < 0x800 ==> b[0] < 0xE0 && Spell2(b[0] - 0xC0, b[1]) == p
    ensures var b := PointBytes(p); 0x800 <= p < 0x1_0000 ==> b[0] < 0xF0 && Spell3(b[0] - 0xE0, b[1], b[2]) == p
    ensures var b := PointBytes(p); 0x1_0000 <= p ==> b[0] < 0xF8 && Spell4(b[0] - 0xF0, b[1], b[2], b[3]) == p
  {
    SixBits(p);
    SixBits(p / 0x40);
    SixBits(p / 0x1000);
  }

  lemma {:induction false} FirstPointOfPoint(p: int, rest: Bytes)
    requires IsScalar(p)
    ensures FirstPoint(PointBytes(p) + rest) == Some((p, |PointBytes(p)|))
  {
    SpelledBytes(p, rest);
    var b := PointBytes(p) + rest;
    assert b[..|PointBytes(p)|] == PointBytes(p);
  }

  lemma {:induction false} SpellDigits(a: int, b: int, c: int, d: int)
    requires 0x80 <= b < 0xC0 && 0x80 <= c < 0xC0 && 0x80 <= d < 0xC0
    ensures Spell2(a, b) / 0x40 == a && Spell2(a, b) % 0x40 == b - 0x80
    ensures Spell3(a, b, c) / 0x1000 == a && Spell3(a, b, c) / 0x40 == Spell2(a, b) &&
            Spell3(a, b, c) % 0x40 == c - 0x80
    ensures Spell4(a, b, c, d) / 0x4_0000 == a && Spell4(a, b, c, d) / 0x1000 == Spell2(a, b)
    ensures Spell4(a, b, c, d) / 0x40 == Spell3(a, b, c) && Spell4(a, b, c, d) % 0x40 == d - 0x80
  {
  }

  lemma {:induction false} FirstPointExact(b: Bytes)
    requires b != [] && FirstPoint(b).Some?
    ensures var (p, n) := FirstPoint(b).value; IsScalar(p) && n <= |b| && PointBytes(p) == b[..n]
  {
    var (p, n) := FirstPoint(b).value;
    if n == 2 {
      SpellDigits(b[0] - 0xC0, b[1], 0x80, 0x80);
    } else if n == 3 {
      SpellDigits(b[0] - 0xE0, b[1], b[2], 0x80);
    } else if n == 4 {
      SpellDigits(b[0] - 0xF0, b[1], b[2], b[3]);
    }
    assert |b[..n]| == n;
  }

  // ----- UTF-8 -----

  /** The scalar value a text starts with, a lone surrogate standing for the replacement character. */
  function LeadPoint(t: Text): (p: int)
    requires t != []
    ensures IsScalar(p)
  {
    if StartsWithPair(t) then PairPoint(t[0], t[1]) else if IsSurrogate(t[0]) then REPLACEMENT else t[0]
  }

  function LeadLength(t: Text): (n: nat)
    requires t != []
    ensures 1 <= n <= |t|
  {
    if StartsWithPair(t) then 2 else 1
  }

  /** `Buffer.from(text, 'utf8')`. */
  function Utf8(t: Text): (b: Bytes)
  {
    if t == [] then [] else PointBytes(LeadPoint(t)) + Utf8(t[LeadLength(t)..])
  }

  /**
   * The text of a byte string when it is well-formed UTF-8. `Buffer.toString('utf8')` puts a
   * replacement character into the text of every other byte string.
   */
  function FromUtf8(b: Bytes): (t: Option<Text>)
  {
    if b == [] then Some([])
    else
      match FirstPoint(b)
      case None => None
      case Some(pn) =>
        assert pn.1 <= |b| && IsScalar(pn.0) by { FirstPointExact(b); }
        match FromUtf8(b[pn.1..])
        case None => None
        case Some(t) => Some(PointUnits(pn.0) + t)
  }

  lemma {:induction false} FromUtf8Step(p: int, rest: Bytes)
    requires IsScalar(p)
    ensures FromUtf8(PointBytes(p) + rest) ==
            match FromUtf8(rest) case None => None case Some(t) => Some(PointUnits(p) + t)
  {
    var b := PointBytes(p);
    FirstPointOfPoint(p, rest);
    assert (b + rest)[|b|..] == rest;
  }

  lemma {:induction false} FromUtf8Joins(p: int, head: Text, b: Bytes, rest: Text)
    requires IsScalar(p) && PointUnits(p) == head && FromUtf8(b) == Some(rest)
    ensures FromUtf8(PointBytes(p) + b) == Some(head + rest)
  {
    FromUtf8Step(p, b);
  }

  lemma {:induction false} LeadUnits(t: Text)
    requires t != [] && WellFormed(t)
    ensures PointUnits(LeadPoint(t)) == t[..LeadLength(t)] && WellFormed(t[LeadLength(t)..])
  {
  }

  lemma {:induction false} Utf8RoundTrip(t: Text)
    requires WellFormed(t)
    ensures FromUtf8(Utf8(t)) == Some(t)
    decreases |t|
  {
    if t != [] {
      var n := LeadLength(t);
      LeadUnits(t);
      Utf8RoundTrip(t[n..]);
      FromUtf8Joins(LeadPoint(t), t[..n], Utf8(t[n..]), t[n..]);
      assert t == t[..n] + t[n..];
    }
  }

  lemma {:induction false} LeadOfPoint(p: int, t: Text)
    requires IsScalar(p)
    ensures var s := PointUnits(p) + t; LeadPoint(s) == p && LeadLength(s) == |PointUnits(p)|
    ensures WellFormed(t) ==> WellFormed(PointUnits(p) + t)
    ensures Utf8(PointUnits(p) + t) == PointBytes(p) + Utf8(t)
  {
    var u := PointUnits(p);
    assert (u + t)[|u|..] == t;
    assert (u + t)[..|u|] == u;
  }

  lemma {:induction false} FromUtf8Exact(b: Bytes)
    requires FromUtf8(b).Some?
    ensures WellFormed(FromUtf8(b).value) && Utf8(FromUtf8(b).value) == b
    decreases |b|
  {
    if b != [] {
      FirstPointExact(b);
      var (p, n) := FirstPoint(b).value;
      FromUtf8Exact(b[n..]);
      LeadOfPoint(p, FromUtf8(b[n..]).value);
      assert b == b[..n] + b[n..];
    }
  }

  lemma {:induction false} PointNewline(p: int)
    requires IsScalar(p)
    ensures NEWLINE in PointBytes(p) <==> p == NEWLINE
  {
  }

  /** The newline byte occurs in the bytes of a text exactly when the newline does in the text. */
  lemma {:induction false} NewlineBytes(t: Text)
    ensures NEWLINE in t <==> NEWLINE in Utf8(t)
    decreases |t|
  {
    if t != [] {
      var n := LeadLength(t);
      NewlineBytes(t[n..]);
      PointNewline(LeadPoint(t));
      assert t == t[..n] + t[n..];
    }
  }

  lemma {:induction false} LeadConcat(s: Text, t: Text)
    requires s != [] && WellFormed(s)
    ensures LeadPoint(s + t) == LeadPoint(s) && LeadLength(s + t) == LeadLength(s)
    ensures (s + t)[LeadLength(s)..] == s[LeadLength(s)..] + t && WellFormed(s[LeadLength(s)..])
  {
  }

  lemma {:induction false} Utf8Concat(s: Text, t: Text)
    requires WellFormed(s)
    ensures Utf8(s + t) == Utf8(s) + Utf8(t)
    decreases |s|
  {
    if s == [] {
      assert s + t == t;
    } else {
      LeadConcat(s, t);
      var rest := s[LeadLength(s)..];
      Utf8Concat(rest, t);
      assert PointBytes(LeadPoint(s)) + (Utf8(rest) + Utf8(t)) == PointBytes(LeadPoint(s)) + Utf8(rest) + Utf8(t);
    }
  }
}
