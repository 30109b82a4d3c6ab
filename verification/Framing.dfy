/** Cutting a byte stream into newline-ended lines: the specification and the codec's two framers. */
module Framing {
  import opened Outcomes
  import opened Texts

  const MAX_LINE_BYTES: nat := 65_536
  const MAX_BUFFER_BYTES: nat := 131_072
  const MAX_BATCH_FRAMES: nat := 32

  // ----- lines -----

  /** `indexOf(10)`, or the length when there is no newline. */
  function FirstNewline(b: Bytes): (n: nat)
    ensures n <= |b|
    ensures n < |b| ==> b[n] == NEWLINE
  {
    if b == [] || b[0] == NEWLINE then 0 else 1 + FirstNewline(b[1..])
  }

  lemma {:induction false} FirstNewlineIsFirst(b: Bytes)
    ensures NEWLINE !in b[..FirstNewline(b)]
    ensures FirstNewline(b) < |b| <==> NEWLINE in b
  {
    if b != [] && b[0] != NEWLINE {
      FirstNewlineIsFirst(b[1..]);
      var n := FirstNewline(b[1..]);
      assert b == [b[0]] + b[1..];
      assert b[..n + 1] == [b[0]] + b[1..][..n];
    }
  }

  function Lines(b: Bytes): (lines: seq<Bytes>)
  {
    var n := FirstNewline(b);
    if n == |b| then [] else [b[..n + 1]] + Lines(b[n + 1..])
  }

  /** What follows the last newline. */
  function Remainder(b: Bytes): (r: Bytes)
  {
    var n := FirstNewline(b);
    if n == |b| then b else Remainder(b[n + 1..])
  }

  function Concat(parts: seq<Bytes>): (b: Bytes)
  {
    if parts == [] then [] else parts[0] + Concat(parts[1..])
  }

  predicate IsLine(b: Bytes) { b != [] && b[|b| - 1] == NEWLINE && NEWLINE !in b[..|b| - 1] }

  lemma {:induction false} Reassociate(a: Bytes, b: Bytes, c: Bytes)
    ensures (a + b) + c == a + (b + c)
  {
  }

  lemma {:induction false} SplitAt(b: Bytes, n: nat)
    requires n <= |b|
    ensures b == b[..n] + b[n..]
  {
  }

  lemma {:induction false} ConcatFront(part: Bytes, parts: seq<Bytes>)
    ensures Concat([part] + parts) == part + Concat(parts)
  {
    assert ([part] + parts)[1..] == parts;
  }

  lemma {:induction false} LinesFirst(b: Bytes)
    requires FirstNewline(b) < |b|
    ensures Lines(b) == [b[..FirstNewline(b) + 1]] + Lines(b[FirstNewline(b) + 1..])
    ensures Remainder(b) == Remainder(b[FirstNewline(b) + 1..])
  {
  }

  lemma {:induction false} ConcatJoins(a: seq<Bytes>, b: seq<Bytes>)
    ensures Concat(a + b) == Concat(a) + Concat(b)
  {
    if a == [] {
      assert a + b == b;
      assert [] + Concat(b) == Concat(b);
    } else {
      ConcatJoins(a[1..], b);
      assert a + b == [a[0]] + (a[1..] + b);
      ConcatFront(a[0], a[1..] + b);
      Reassociate(a[0], Concat(a[1..]), Concat(b));
    }
  }

  lemma {:induction false} ConcatOne(b: Bytes)
    ensures Concat([b]) == b
  {
    assert |[b][1..]| == 0;
    assert b + [] == b;
  }

  lemma {:induction false} FirstNewlineAt(b: Bytes, n: nat)
    requires n < |b| && b[n] == NEWLINE && NEWLINE !in b[..n]
    ensures FirstNewline(b) == n
  {
    if n > 0 {
      assert b[0] == b[..n][0];
      assert b[1..][..n - 1] == b[..n][1..];
      FirstNewlineAt(b[1..], n - 1);
    }
  }

  /** Cutting loses no byte. */
  lemma {:induction false} LinesConcat(b: Bytes)
    ensures Concat(Lines(b)) + Remainder(b) == b
    decreases |b|
  {
    var n := FirstNewline(b);
    if n == |b| {
      assert [] + b == b;
    } else {
      var line, tail := b[..n + 1], b[n + 1..];
      LinesFirst(b);
      LinesConcat(tail);
      ConcatFront(line, Lines(tail));
      Reassociate(line, Concat(Lines(tail)), Remainder(tail));
      SplitAt(b, n + 1);
    }
  }

  /** Every piece is one line, and no newline is left over. */
  lemma {:induction false} LinesShape(b: Bytes)
    ensures NEWLINE !in Remainder(b) && forall i :: 0 <= i < |Lines(b)| ==> IsLine(Lines(b)[i])
    decreases |b|
  {
    var n := FirstNewline(b);
    FirstNewlineIsFirst(b);
    if n == |b| {
      assert b[..n] == b;
    } else {
      LinesShape(b[n + 1..]);
      assert b[..n + 1][..n] == b[..n];
    }
  }

  lemma {:induction false} LinesStep(line: Bytes, b: Bytes)
    requires IsLine(line)
    ensures Lines(line + b) == [line] + Lines(b) && Remainder(line + b) == Remainder(b)
  {
    var n := |line| - 1;
    assert (line + b)[..n] == line[..n];
    FirstNewlineAt(line + b, n);
    assert (line + b)[..n + 1] == line && (line + b)[n + 1..] == b;
  }

  /** Only one cutting has lines for pieces and no newline left over. */
  lemma {:induction false} LinesAreUnique(lines: seq<Bytes>, rest: Bytes)
    requires NEWLINE !in rest && forall i :: 0 <= i < |lines| ==> IsLine(lines[i])
    ensures Lines(Concat(lines) + rest) == lines && Remainder(Concat(lines) + rest) == rest
  {
    if lines == [] {
      FirstNewlineIsFirst(rest);
      assert [] + rest == rest;
    } else {
      LinesAreUnique(lines[1..], rest);
      LinesStep(lines[0], Concat(lines[1..]) + rest);
      assert Concat(lines) + rest == lines[0] + (Concat(lines[1..]) + rest);
      assert lines == [lines[0]] + lines[1..];
    }
  }

  /** Cutting a stream chunk by chunk, carrying the remainder, cuts the whole stream. */
  lemma {:induction false} LinesOfConcat(a: Bytes, b: Bytes)
    ensures Lines(a + b) == Lines(a) + Lines(Remainder(a) + b)
    ensures Remainder(a + b) == Remainder(Remainder(a) + b)
  {
    var carried := Remainder(a) + b;
    LinesShape(a);
    LinesShape(carried);
    LinesAreUnique(Lines(a) + Lines(carried), Remainder(carried));
    assert a + b == Concat(Lines(a) + Lines(carried)) + Remainder(carried) by {
      LinesConcat(a);
      LinesConcat(carried);
      ConcatJoins(Lines(a), Lines(carried));
      Reassociate(Concat(Lines(a)), Remainder(a), b);
      Reassociate(Concat(Lines(a)), Concat(Lines(carried)), Remainder(carried));
    }
  }

  // ----- frames -----

  /** A line decoder; `None` is the thrown denial. */
  type Decoder<!T> = Bytes -> Option<T>

  function DecodeLines<T>(decode: Decoder<T>, lines: seq<Bytes>): (r: Option<seq<T>>)
    ensures r.Some? ==> |r.value| == |lines|
  {
    if lines == [] then Some([])
    else
      match (decode(lines[0]), DecodeLines(decode, lines[1..]))
      case (Some(v), Some(vs)) => Some([v] + vs)
      case _ => None
  }

  /** Frames already taken, followed by the outcome of the rest. */
  function After<T>(taken: seq<T>, r: Option<seq<T>>): Option<seq<T>>
  {
    match r
    case None => None
    case Some(vs) => Some(taken + vs)
  }

  lemma {:induction false} AfterJoins<T>(a: seq<T>, b: seq<T>, r: Option<seq<T>>)
    ensures After(a, After(b, r)) == After(a + b, r)
    ensures After([], r) == r
  {
    if r.Some? {
      assert a + (b + r.value) == a + b + r.value;
      assert [] + r.value == r.value;
    }
  }

  lemma {:induction false} DecodeLinesFront<T>(decode: Decoder<T>, line: Bytes, lines: seq<Bytes>)
    ensures DecodeLines(decode, [line] + lines) ==
            match decode(line) case None => None case Some(v) => After([v], DecodeLines(decode, lines))
  {
    assert ([line] + lines)[1..] == lines;
  }

  lemma {:induction false} DecodeLinesJoin<T>(decode: Decoder<T>, a: seq<Bytes>, b: seq<Bytes>)
    ensures DecodeLines(decode, a + b) ==
            match DecodeLines(decode, a)
            case None => None
            case Some(x) => After(x, DecodeLines(decode, b))
  {
    if a == [] {
      assert a + b == b;
      AfterJoins([], [], DecodeLines(decode, b));
    } else {
      DecodeLinesJoin(decode, a[1..], b);
      assert a + b == [a[0]] + (a[1..] + b) && a == [a[0]] + a[1..];
      DecodeLinesFront(decode, a[0], a[1..] + b);
      DecodeLinesFront(decode, a[0], a[1..]);
      if decode(a[0]).Some? && DecodeLines(decode, a[1..]).Some? {
        AfterJoins([decode(a[0]).value], DecodeLines(decode, a[1..]).value, DecodeLines(decode, b));
      }
    }
  }

  lemma {:induction false} DecodeLinesAt<T>(decode: Decoder<T>, lines: seq<Bytes>, i: nat)
    requires DecodeLines(decode, lines).Some? && i < |lines|
    ensures decode(lines[i]) == Some(DecodeLines(decode, lines).value[i])
  {
    if i > 0 {
      DecodeLinesAt(decode, lines[1..], i - 1);
    }
  }

  /** The first line and what is after it. */
  lemma {:induction false} CutFirst<T>(decode: Decoder<T>, b: Bytes, line: Bytes, tail: Bytes)
    requires FirstNewline(b) < |b| && line == b[..FirstNewline(b) + 1] && tail == b[FirstNewline(b) + 1..]
    ensures Lines(b) == [line] + Lines(tail) && Remainder(b) == Remainder(tail)
    ensures DecodeLines(decode, Lines(b)) ==
            match decode(line) case None => None case Some(v) => After([v], DecodeLines(decode, Lines(tail)))
  {
    LinesFirst(b);
    DecodeLinesFront(decode, line, Lines(tail));
  }

  // ----- the complete batch -----

  /** What a batch decodes to: all of its lines, when it ends with one and has at most 32. */
  function BatchFrames<T>(decode: Decoder<T>, b: Bytes): (r: Option<seq<T>>)
  {
    if b == [] || |b| > MAX_BUFFER_BYTES || Remainder(b) != [] || |Lines(b)| > MAX_BATCH_FRAMES then None
    else DecodeLines(decode, Lines(b))
  }

  lemma {:induction false} EndsWithNewline(b: Bytes)
    requires b != []
    ensures Remainder(b) == [] <==> b[|b| - 1] == NEWLINE
    decreases |b|
  {
    var n := FirstNewline(b);
    FirstNewlineIsFirst(b);
    if n + 1 < |b| {
      EndsWithNewline(b[n + 1..]);
    }
  }

  /** The batch loop has taken `lines` off the front and decoded them to `messages`. */
  ghost predicate Taken<T>(decode: Decoder<T>, input: Bytes, offset: nat, lines: seq<Bytes>, messages: seq<T>)
  {
    && offset <= |input| && input[..offset] == Concat(lines)
    && |lines| == |messages|
    && forall i :: 0 <= i < |lines| ==> IsLine(lines[i]) && decode(lines[i]) == Some(messages[i])
  }

  lemma {:induction false} TakenLines<T>(
    decode: Decoder<T>, input: Bytes, offset: nat, lines: seq<Bytes>, messages: seq<T>)
    requires Taken(decode, input, offset, lines, messages)
    ensures Lines(input) == lines + Lines(input[offset..])
    ensures DecodeLines(decode, Lines(input)) == After(messages, DecodeLines(decode, Lines(input[offset..])))
  {
    var head, tail := Concat(lines), input[offset..];
    SplitAt(input, offset);
    LinesAreUnique(lines, []);
    assert head + [] == head && [] + tail == tail;
    LinesOfConcat(head, tail);
    DecodePointwise(decode, lines, messages);
    DecodeLinesJoin(decode, lines, Lines(tail));
  }

  lemma {:induction false} DecodePointwise<T>(decode: Decoder<T>, lines: seq<Bytes>, messages: seq<T>)
    requires |lines| == |messages| && forall i :: 0 <= i < |lines| ==> decode(lines[i]) == Some(messages[i])
    ensures DecodeLines(decode, lines) == Some(messages)
  {
    if lines == [] {
      assert messages == [];
    } else {
      DecodePointwise(decode, lines[1..], messages[1..]);
      assert messages == [messages[0]] + messages[1..];
    }
  }

  lemma {:induction false} TakeLine(input: Bytes, offset: nat)
    requires offset < |input| && input[|input| - 1] == NEWLINE
    ensures var newline := offset + FirstNewline(input[offset..]);
            newline < |input| && IsLine(input[offset..newline + 1]) &&
            input[..newline + 1] == input[..offset] + input[offset..newline + 1]
  {
    var tail := input[offset..];
    var n := FirstNewline(tail);
    FirstNewlineIsFirst(tail);
    assert tail[|tail| - 1] == NEWLINE;
    assert input[offset..offset + n + 1][..n] == tail[..n];
  }

  lemma {:induction false} ConcatSnoc(parts: seq<Bytes>, part: Bytes)
    ensures Concat(parts + [part]) == Concat(parts) + part
  {
    ConcatJoins(parts, [part]);
    ConcatOne(part);
  }

  /** The next line of the input is refused. */
  ghost predicate RefusedAt<T>(decode: Decoder<T>, input: Bytes, offset: nat)
  {
    offset < |input| &&
    var n := FirstNewline(input[offset..]) + 1;
    n <= |input| - offset && decode(input[offset..offset + n]).None?
  }

  /** A refused line refuses the batch. */
  lemma {:induction false} RefusedLine<T>(decode: Decoder<T>, input: Bytes, offset: nat)
    requires RefusedAt(decode, input, offset)
    ensures DecodeLines(decode, Lines(input[offset..])).None?
  {
    var tail := input[offset..];
    var n := FirstNewline(tail) + 1;
    assert tail[..n] == input[offset..offset + n];
    CutFirst(decode, tail, tail[..n], tail[n..]);
  }

  /** The loop of the batch decoder: it stops at a refused line, past 32 lines, or at the end. */
  method TakeAll<T>(
    decode: Decoder<T>, input: Bytes) returns (ok: bool, messages: seq<T>, ghost offset: nat, ghost lines: seq<Bytes>)
    requires input != [] && input[|input| - 1] == NEWLINE
    ensures Taken(decode, input, offset, lines, messages)
    ensures ok ==> offset == |input| && |messages| <= MAX_BATCH_FRAMES
    ensures !ok ==> |messages| > MAX_BATCH_FRAMES || RefusedAt(decode, input, offset)
  {
    messages := [];
    lines := [];
    var at := 0;
    while at < |input|
      invariant Taken(decode, input, at, lines, messages)
      invariant |messages| <= MAX_BATCH_FRAMES
      decreases |input| - at
    {
      TakeLine(input, at);
      var newline := at + FirstNewline(input[at..]);
      var line := input[at..newline + 1];
      var decoded := decode(line);
      if decoded.None? {
        return false, messages, at, lines;
      }
      ConcatSnoc(lines, line);
      lines := lines + [line];
      messages := messages + [decoded.value];
      at := newline + 1;
      if |messages| > MAX_BATCH_FRAMES {
        return false, messages, at, lines;
      }
    }
    return true, messages, at, lines;
  }

  method DecodeBatch<T>(decode: Decoder<T>, input: Bytes) returns (r: Option<seq<T>>)
    ensures r == BatchFrames(decode, input)
  {
    if |input| == 0 || |input| > MAX_BUFFER_BYTES {
      return None;
    }
    EndsWithNewline(input);
    if input[|input| - 1] != NEWLINE {
      return None;
    }
    var ok, messages, offset, lines := TakeAll(decode, input);
    TakenLines(decode, input, offset, lines, messages);
    if ok {
      assert input[offset..] == [];
      assert messages + [] == messages;
      return Some(messages);
    }
    if |messages| <= MAX_BATCH_FRAMES {
      RefusedLine(decode, input, offset);
    }
    return None;
  }

  // ----- the streaming buffer -----

  /** Taking lines off the front until one is refused or none is left. */
  function Drain<T>(decode: Decoder<T>, b: Bytes): (r: (Option<seq<T>>, Bytes))
    decreases |b|
  {
    var n := FirstNewline(b);
    if n == |b| then (Some([]), b)
    else if decode(b[..n + 1]).None? then (None, b[n + 1..])
    else
      var (frames, rest) := Drain(decode, b[n + 1..]);
      match frames
      case None => (None, rest)
      case Some(vs) => (Some([decode(b[..n + 1]).value] + vs), rest)
  }

  /** When every line is accepted, draining is cutting and decoding. */
  lemma {:induction false} DrainIsCutting<T>(decode: Decoder<T>, b: Bytes)
    ensures Drain(decode, b).0 == DecodeLines(decode, Lines(b))
    ensures Drain(decode, b).0.Some? ==> Drain(decode, b).1 == Remainder(b)
    decreases |b|
  {
    var n := FirstNewline(b);
    if n < |b| {
      DrainIsCutting(decode, b[n + 1..]);
      CutFirst(decode, b, b[..n + 1], b[n + 1..]);
    }
  }

  /** One push: the frames (or a denial) and the bytes kept. */
  function Pushed<T>(decode: Decoder<T>, buffered: Bytes, chunk: Bytes): (r: (Option<seq<T>>, Bytes))
  {
    if |chunk| > MAX_BUFFER_BYTES - |buffered| then (None, [])
    else
      var (frames, rest) := Drain(decode, buffered + chunk);
      if frames.Some? && |rest| >= MAX_LINE_BYTES then (None, []) else (frames, rest)
  }

  class LineBuffer<T> {
    var buffered: Bytes

    constructor ()
      ensures buffered == []
    {
      buffered := [];
    }

    /** `None` is the thrown denial; a refused line leaves the bytes after it in the buffer. */
    method Push(decode: Decoder<T>, chunk: Bytes) returns (r: Option<seq<T>>)
      modifies this
      ensures (r, buffered) == Pushed(decode, old(buffered), chunk)
    {
      if |chunk| > MAX_BUFFER_BYTES - |buffered| {
        buffered := [];
        return None;
      }
      buffered := buffered + chunk;
      ghost var whole := buffered;
      var messages: seq<T> := [];
      AfterJoins([], [], Drain(decode, whole).0);
      while true
        invariant Drain(decode, whole) == (After(messages, Drain(decode, buffered).0), Drain(decode, buffered).1)
        decreases |buffered|
      {
        var newline := FirstNewline(buffered);
        if newline == |buffered| {
          break;
        }
        var line := buffered[..newline + 1];
        buffered := buffered[newline + 1..];
        var decoded := decode(line);
        if decoded.None? {
          return None;
        }
        AfterJoins(messages, [decoded.value], Drain(decode, buffered).0);
        messages := messages + [decoded.value];
      }
      assert messages + [] == messages;
      if |buffered| >= MAX_LINE_BYTES {
        buffered := [];
        return None;
      }
      return Some(messages);
    }
  }

  /** Pushing chunks one after another: all their frames and what is left, if none is denied. */
  function PushAll<T>(decode: Decoder<T>, buffered: Bytes, chunks: seq<Bytes>): (r: Option<(seq<T>, Bytes)>)
    decreases |chunks|
  {
    if chunks == [] then Some(([], buffered))
    else
      var (frames, kept) := Pushed(decode, buffered, chunks[0]);
      match frames
      case None => None
      case Some(vs) =>
        match PushAll(decode, kept, chunks[1..])
        case None => None
        case Some(p) => Some((vs + p.0, p.1))
  }

  /**
   * A batch decodes exactly when it has 1 to 131072 bytes in at most 32 lines, ends with one, and every
   * line is decoded.
   */
  lemma {:induction false} BatchExactly<T>(decode: Decoder<T>, b: Bytes, frames: seq<T>)
    ensures BatchFrames(decode, b) == Some(frames) <==>
            var lines := Lines(b);
            && 1 <= |b| <= 131_072 && b[|b| - 1] == NEWLINE && |lines| <= 32
            && |frames| == |lines| && forall i :: 0 <= i < |lines| ==> decode(lines[i]) == Some(frames[i])
  {
    var lines := Lines(b);
    if b != [] { EndsWithNewline(b); }
    if DecodeLines(decode, lines).Some? {
      forall i | 0 <= i < |lines| ensures decode(lines[i]) == Some(DecodeLines(decode, lines).value[i]) {
        DecodeLinesAt(decode, lines, i);
      }
    }
    if |frames| == |lines| && forall i :: 0 <= i < |lines| ==> decode(lines[i]) == Some(frames[i]) {
      DecodePointwise(decode, lines, frames);
    }
  }

  /**
   * A push succeeds exactly when buffer and chunk fit, every line of them is decoded, and what is left
   * may still become a line: it yields those frames and keeps the rest.
   */
  lemma {:induction false} PushedExactly<T>(decode: Decoder<T>, buffered: Bytes, chunk: Bytes, frames: seq<T>)
    ensures Pushed(decode, buffered, chunk).0 == Some(frames) <==>
            var lines := Lines(buffered + chunk);
            && |buffered| + |chunk| <= 131_072 && |Remainder(buffered + chunk)| < 65_536
            && |frames| == |lines| && forall i :: 0 <= i < |lines| ==> decode(lines[i]) == Some(frames[i])
    ensures Pushed(decode, buffered, chunk).0.Some? ==> Pushed(decode, buffered, chunk).1 == Remainder(buffered + chunk)
  {
    var lines := Lines(buffered + chunk);
    DrainIsCutting(decode, buffered + chunk);
    if DecodeLines(decode, lines).Some? {
      forall i | 0 <= i < |lines| ensures decode(lines[i]) == Some(DecodeLines(decode, lines).value[i]) {
        DecodeLinesAt(decode, lines, i);
      }
    }
    if |frames| == |lines| && forall i :: 0 <= i < |lines| ==> decode(lines[i]) == Some(frames[i]) {
      DecodePointwise(decode, lines, frames);
    }
  }

  /** However a stream is cut into accepted chunks, the buffer yields the stream's frames. */
  lemma {:induction false} PushAllIsCutting<T>(decode: Decoder<T>, buffered: Bytes, chunks: seq<Bytes>)
    requires NEWLINE !in buffered && PushAll(decode, buffered, chunks).Some?
    ensures var stream := buffered + Concat(chunks);
            var (frames, rest) := PushAll(decode, buffered, chunks).value;
            DecodeLines(decode, Lines(stream)) == Some(frames) && rest == Remainder(stream)
    decreases |chunks|
  {
    var stream := buffered + Concat(chunks);
    if chunks == [] {
      FirstNewlineIsFirst(buffered);
      assert stream == buffered;
    } else {
      var first, later := buffered + chunks[0], Concat(chunks[1..]);
      DrainIsCutting(decode, first);
      LinesShape(first);
      PushAllIsCutting(decode, Remainder(first), chunks[1..]);
      Reassociate(buffered, chunks[0], later);
      LinesOfConcat(first, later);
      DecodeLinesJoin(decode, Lines(first), Lines(Remainder(first) + later));
    }
  }
}
