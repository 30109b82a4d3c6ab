/**
 * One frame over the native stream socket: the loop over partial sends, the kernel's byte queue, and
 * the loop over partial reads into a fixed buffer. Both native modules run these two loops.
 */
module NativeStream {
  import opened Texts

  const MAX_FRAME_BYTES: nat := 32_768
  const CAPACITY: nat := MAX_FRAME_BYTES + 1

  /** What the kernel answers a pass of a loop: up to `n` bytes moved, try again, or an error or abort. */
  datatype Answer = Takes(n: nat) | Again | Fault

  function Min(a: nat, b: nat): nat { if a < b then a else b }

  // ----- one pass of each loop -----

  datatype SendStage = Sending | Shutting | Sent | SendFailed

  datatype Sender = Sender(offset: nat, stage: SendStage)

  /** An empty frame would only be shut down; the callers ask for 3 to 32768 bytes. */
  function Starting(length: nat): (s: Sender) { Sender(0, if length == 0 then Shutting else Sending) }

  /** The send loop; a send of nothing is an error, and after the last byte the socket is shut down. */
  function SendStep(length: nat, s: Sender, answer: Answer): (r: Sender)
    requires s.offset <= length
    ensures s.offset <= r.offset <= length
  {
    match (s.stage, answer)
    case (Sending, Takes(n)) =>
      if n == 0 then s.(stage := SendFailed)
      else
        var offset := s.offset + Min(n, length - s.offset);
        Sender(offset, if offset == length then Shutting else Sending)
    case (Shutting, Takes(_)) => s.(stage := Sent)
    case (_, Again) => s
    case (Sending, Fault) => s.(stage := SendFailed)
    case (Shutting, Fault) => s.(stage := SendFailed)
    case _ => s
  }

  datatype ReadStage = Reading | Got | Refused | ReadFailed

  datatype Reader = Reader(length: nat, stage: ReadStage)

  const READING: Reader := Reader(0, Reading)

  /** A frame is kept only if it has 3 to 32768 bytes. */
  function Judge(length: nat): ReadStage { if 3 <= length <= MAX_FRAME_BYTES then Got else Refused }

  /** How many bytes a read moves. */
  function Moved(length: nat, available: nat, n: nat): (k: nat)
    requires length <= MAX_FRAME_BYTES
    ensures length + k <= CAPACITY && k <= available
    ensures available > 0 ==> k > 0
  {
    Min(if n == 0 then 1 else n, Min(CAPACITY - length, available))
  }

  /** The read loop, with `available` bytes queued; end of stream shows only on an empty queue. */
  function ReadStep(r: Reader, available: nat, ended: bool, answer: Answer): (t: Reader)
  {
    if r.stage != Reading || r.length > MAX_FRAME_BYTES then r
    else
      match answer
      case Fault => r.(stage := ReadFailed)
      case Again => r
      case Takes(n) =>
        if available == 0 then (if ended then r.(stage := Judge(r.length)) else r)
        else
          var length := r.length + Moved(r.length, available, n);
          Reader(length, if length > MAX_FRAME_BYTES then Refused else Reading)
  }

  // ----- the loops -----

  function SendRun(length: nat, s: Sender, answers: seq<Answer>): (r: Sender)
    requires s.offset <= length
    decreases |answers|
  {
    if answers == [] then s else SendRun(length, SendStep(length, s, answers[0]), answers[1..])
  }

  /** A reader alone with a stream of `total` bytes that has ended. */
  function ReadRun(total: nat, r: Reader, answers: seq<Answer>): (t: Reader)
    requires r.length <= total
    decreases |answers|
  {
    if answers == [] then r else ReadRun(total, ReadStep(r, total - r.length, true, answers[0]), answers[1..])
  }

  /** The send loop over what the kernel answers; `wire` is what it handed over. */
  method SendAll(frame: Bytes, answers: seq<Answer>) returns (s: Sender, wire: Bytes)
    ensures s == SendRun(|frame|, Starting(|frame|), answers)
    ensures s.offset <= |frame| && wire == frame[..s.offset]
  {
    s := Starting(|frame|);
    wire := [];
    var i := 0;
    while i < |answers|
      invariant 0 <= i <= |answers| && s.offset <= |frame| && wire == frame[..s.offset]
      invariant SendRun(|frame|, Starting(|frame|), answers) == SendRun(|frame|, s, answers[i..])
    {
      assert answers[i..][0] == answers[i] && answers[i..][1..] == answers[i + 1..];
      var next := SendStep(|frame|, s, answers[i]);
      wire := wire + frame[s.offset..next.offset];
      s := next;
      i := i + 1;
    }
  }

  /**
   * The read loop into a buffer of 32769 bytes: it holds exactly the bytes read, and nothing is
   * written past its end.
   */
  method ReadToEof(stream: Bytes, answers: seq<Answer>) returns (buffer: array<Byte>, r: Reader)
    ensures fresh(buffer) && buffer.Length == CAPACITY
    ensures r == ReadRun(|stream|, READING, answers)
    ensures r.length <= |stream| && r.length <= CAPACITY && buffer[..r.length] == stream[..r.length]
    ensures forall j :: r.length <= j < CAPACITY ==> buffer[j] == 0
  {
    buffer := new Byte[CAPACITY](_ => 0);
    r := READING;
    var i := 0;
    while i < |answers|
      invariant 0 <= i <= |answers| && r.length <= |stream| && r.length <= CAPACITY
      invariant ReadRun(|stream|, READING, answers) == ReadRun(|stream|, r, answers[i..])
      invariant forall j :: 0 <= j < r.length ==> buffer[j] == stream[j]
      invariant forall j :: r.length <= j < CAPACITY ==> buffer[j] == 0
    {
      assert answers[i..][0] == answers[i] && answers[i..][1..] == answers[i + 1..];
      var next := ReadStep(r, |stream| - r.length, true, answers[i]);
      CopyInto(buffer, stream, r.length, next.length);
      r := next;
      i := i + 1;
    }
  }

  /** What one read copies. */
  method CopyInto(buffer: array<Byte>, stream: Bytes, from: nat, to: nat)
    requires from <= to <= buffer.Length && to <= |stream|
    modifies buffer
    ensures forall j :: 0 <= j < buffer.Length ==> buffer[j] == if from <= j < to then stream[j] else old(buffer[j])
  {
    var j := from;
    while j < to
      invariant from <= j <= to
      invariant forall k :: 0 <= k < buffer.Length ==> buffer[k] == if from <= k < j then stream[k] else old(buffer[k])
    {
      buffer[j] := stream[j];
      j := j + 1;
    }
  }

  lemma {:induction false} ReadRunBounded(total: nat, r: Reader, answers: seq<Answer>)
    requires r.length <= total && r.length <= CAPACITY
    requires r.stage == Got ==> r.length == total && 3 <= total <= MAX_FRAME_BYTES
    requires r.stage == Refused ==> total < 3 || total > MAX_FRAME_BYTES
    ensures var t := ReadRun(total, r, answers);
            && t.length <= total && t.length <= CAPACITY
            && (t.stage == Got ==> t.length == total && 3 <= total <= MAX_FRAME_BYTES)
            && (t.stage == Refused ==> total < 3 || total > MAX_FRAME_BYTES)
    decreases |answers|
  {
    if answers != [] { ReadRunBounded(total, ReadStep(r, total - r.length, true, answers[0]), answers[1..]); }
  }

  /** No errors, and enough reads for every byte and the end. */
  predicate Patient(total: nat, length: nat, answers: seq<Answer>)
    decreases |answers|
  {
    if answers == [] then false
    else
      match answers[0]
      case Fault => false
      case Again => Patient(total, length, answers[1..])
      case Takes(_) => length >= total || Patient(total, length + 1, answers[1..])
  }

  /** A run that has judged stays judged. */
  lemma {:induction false} JudgedStays(total: nat, r: Reader, answers: seq<Answer>)
    requires r.length <= total && r.stage != Reading
    ensures ReadRun(total, r, answers) == r
    decreases |answers|
  {
    if answers != [] { JudgedStays(total, r, answers[1..]); }
  }

  lemma {:induction false} PatientReads(total: nat, r: Reader, spent: nat, answers: seq<Answer>)
    requires spent <= r.length <= total && r.length <= MAX_FRAME_BYTES && r.stage == Reading &&
             Patient(total, spent, answers)
    ensures ReadRun(total, r, answers).stage == Judge(total)
    decreases |answers|
  {
    var t := ReadStep(r, total - r.length, true, answers[0]);
    match answers[0] {
      case Again => PatientReads(total, t, spent, answers[1..]);
      case Takes(_) =>
        if t.stage == Reading {
          PatientReads(total, t, spent + 1, answers[1..]);
        } else {
          JudgedStays(total, t, answers[1..]);
        }
      case Fault =>
    }
  }

  /**
   * Whatever the partial reads, a read without errors succeeds exactly on 3 to 32768 bytes, and then
   * has all of them.
   */
  lemma {:induction false} ReadSucceedsExactly(total: nat, answers: seq<Answer>)
    requires Patient(total, 0, answers)
    ensures ReadRun(total, READING, answers).stage == Got <==> 3 <= total <= MAX_FRAME_BYTES
    ensures 3 <= total <= MAX_FRAME_BYTES ==> ReadRun(total, READING, answers).length == total
  {
    PatientReads(total, READING, 0, answers);
    ReadRunBounded(total, READING, answers);
  }

  // ----- both ends -----

  /** A sender and a reader with the kernel's queue between them; `taken` is what the reader's buffer holds. */
  datatype Channel = Channel(frame: Bytes, sender: Sender, queue: Bytes, ended: bool, reader: Reader, taken: Bytes)

  function Open(frame: Bytes): Channel { Channel(frame, Starting(|frame|), [], false, READING, []) }

  /** A pass of either loop, or the sender's descriptor being closed after its loop is over. */
  datatype Event = Sends(answer: Answer) | Reads(answer: Answer) | Closes

  function Apply(c: Channel, e: Event): (r: Channel)
    requires c.sender.offset <= |c.frame|
    ensures r.frame == c.frame && c.sender.offset <= r.sender.offset <= |c.frame|
  {
    match e
    case Sends(answer) =>
      var next := SendStep(|c.frame|, c.sender, answer);
      c.(sender := next, queue := c.queue + c.frame[c.sender.offset..next.offset], ended := c.ended ||
        next.stage == Sent)
    case Closes => if c.sender.stage == Sent || c.sender.stage == SendFailed then c.(ended := true) else c
    case Reads(answer) =>
      var next := ReadStep(c.reader, |c.queue|, c.ended, answer);
      if c.reader.length <= next.length <= c.reader.length + |c.queue| then
        var k := next.length - c.reader.length;
        c.(reader := next, taken := c.taken + c.queue[..k], queue := c.queue[k..])
      else c
  }

  function Run(c: Channel, events: seq<Event>): (r: Channel)
    requires c.sender.offset <= |c.frame|
    ensures r.frame == c.frame && r.sender.offset <= |r.frame|
    decreases |events|
  {
    if events == [] then c else Run(Apply(c, events[0]), events[1..])
  }

  /** Bytes are neither lost, repeated nor reordered, and only a whole stream is judged. */
  predicate Inv(c: Channel)
  {
    && c.sender.offset <= |c.frame| && c.taken + c.queue == c.frame[..c.sender.offset]
    && |c.taken| == c.reader.length <= CAPACITY
    && (c.ended ==> c.sender.stage == Sent || c.sender.stage == SendFailed)
    && (c.sender.stage == Sent || c.sender.stage == Shutting ==> c.sender.offset == |c.frame|)
    && (c.reader.stage == Reading ==> c.reader.length <= MAX_FRAME_BYTES)
    && (c.reader.stage == Got ==> c.queue == [] && c.ended && 3 <= c.reader.length <= MAX_FRAME_BYTES)
    && (c.reader.stage == Refused ==>
       c.reader.length > MAX_FRAME_BYTES ||
       (c.queue == [] && c.ended && c.reader.length < 3))
  }

  lemma {:induction false} SendKeeps(c: Channel, answer: Answer)
    requires Inv(c)
    ensures Inv(Apply(c, Sends(answer)))
  {
    var next := SendStep(|c.frame|, c.sender, answer);
    assert c.frame[..c.sender.offset] + c.frame[c.sender.offset..next.offset] == c.frame[..next.offset];
    assert c.taken + (c.queue + c.frame[c.sender.offset..next.offset]) == c.taken + c.queue +
      c.frame[c.sender.offset..next.offset];
  }

  lemma {:induction false} ReadStepKeeps(r: Reader, available: nat, ended: bool, answer: Answer)
    requires r.stage == Reading && r.length <= MAX_FRAME_BYTES
    ensures var t := ReadStep(r, available, ended, answer);
            && r.length <= t.length <= r.length + available && t.length <= CAPACITY
            && (t.stage == Reading ==> t.length <= MAX_FRAME_BYTES)
            && (t.stage == Got ==> available == 0 && ended && 3 <= t.length <= MAX_FRAME_BYTES)
            && (t.stage == Refused ==> t.length > MAX_FRAME_BYTES || (available == 0 && ended && t.length < 3))
  {
  }

  lemma {:induction false} ReadKeeps(c: Channel, answer: Answer)
    requires Inv(c)
    ensures Inv(Apply(c, Reads(answer)))
  {
    if c.reader.stage == Reading { ReadStepKeeps(c.reader, |c.queue|, c.ended, answer); }
    var next := ReadStep(c.reader, |c.queue|, c.ended, answer);
    var k := next.length - c.reader.length;
    assert c.taken + c.queue[..k] + c.queue[k..] == c.taken + c.queue;
  }

  lemma {:induction false} RunKeeps(c: Channel, events: seq<Event>)
    requires Inv(c)
    ensures Inv(Run(c, events))
    decreases |events|
  {
    if events != [] {
      match events[0] {
        case Sends(answer) => SendKeeps(c, answer);
        case Reads(answer) => ReadKeeps(c, answer);
        case Closes =>
      }
      RunKeeps(Apply(c, events[0]), events[1..]);
    }
  }

  /**
   * For every interleaving of partial sends and reads, a successful read holds 3 to 32768 bytes that
   * are everything the sender handed over. It is the sender's frame exactly when the sender handed
   * all of it over, which a finished write has.
   */
  lemma {:induction false} ReadReturnsWhatWasSent(frame: Bytes, events: seq<Event>)
    ensures var c := Run(Open(frame), events);
            && |c.taken| <= CAPACITY && c.taken <= frame
            && (c.reader.stage == Got ==>
                  3 <= |c.taken| <= MAX_FRAME_BYTES && c.taken == frame[..c.sender.offset] &&
                  (c.taken == frame <==> c.sender.offset == |frame|) && (c.sender.stage == Sent ==> c.taken == frame))
            && (3 <= |frame| <= MAX_FRAME_BYTES && c.sender.stage == Sent ==> c.reader.stage != Refused)
  {
    RunKeeps(Open(frame), events);
    var c := Run(Open(frame), events);
    assert c.taken == (c.taken + c.queue)[..|c.taken|];
  }

  /** A sender that is cut off after three bytes. */
  function CutOff(frame: Bytes): (c: Channel)
    requires |frame| > 3
  {
    Channel(frame, Sender(3, SendFailed), frame[..3], true, READING, [])
  }

  lemma {:induction false} SenderIsCutOff(frame: Bytes)
    requires |frame| > 3
    ensures Apply(Apply(Apply(Open(frame), Sends(Takes(3))), Sends(Fault)), Closes) == CutOff(frame)
  {
    var c1 := Apply(Open(frame), Sends(Takes(3)));
    assert c1 == Channel(frame, Sender(3, Sending), frame[..3], false, READING, []);
    var c2 := Apply(c1, Sends(Fault));
    assert c2 == Channel(frame, Sender(3, SendFailed), frame[..3], false, READING, []);
  }

  lemma {:induction false} ThreeBytesAreRead()
    ensures ReadStep(READING, 3, true, Takes(3)) == Reader(3, Reading)
    ensures ReadStep(Reader(3, Reading), 0, true, Takes(1)) == Reader(3, Got)
  {
    assert Moved(0, 3, 3) == 3;
  }

  lemma {:induction false} FirstRead(c: Channel)
    requires c.sender.offset <= |c.frame| && |c.queue| == 3 && c.ended && c.reader == READING && c.taken == []
    ensures Apply(c, Reads(Takes(3))) == c.(reader := Reader(3, Reading), taken := c.queue, queue := [])
  {
    ThreeBytesAreRead();
  }

  lemma {:induction false} LastRead(c: Channel)
    requires c.sender.offset <= |c.frame| && c.queue == [] && c.ended && c.reader == Reader(3, Reading)
    ensures Apply(c, Reads(Takes(1))).reader.stage == Got && Apply(c, Reads(Takes(1))).taken == c.taken
  {
    ThreeBytesAreRead();
  }

  /** A sender that is cut off after three bytes of a longer frame leaves a read that succeeds with those three. */
  lemma {:induction false} CutOffSendIsRead(frame: Bytes)
    requires |frame| > 3
    ensures var c := Run(Open(frame), [Sends(Takes(3)), Sends(Fault), Closes, Reads(Takes(3)), Reads(Takes(1))]);
            c.reader.stage == Got && c.taken == frame[..3] && c.taken != frame
  {
    SenderIsCutOff(frame);
    FirstRead(CutOff(frame));
    LastRead(Apply(CutOff(frame), Reads(Takes(3))));
    RunFive(Open(frame), [Sends(Takes(3)), Sends(Fault), Closes, Reads(Takes(3)), Reads(Takes(1))]);
  }

  lemma {:induction false} RunFive(c: Channel, events: seq<Event>)
    requires |events| == 5 && c.sender.offset <= |c.frame|
    ensures Run(c, events) == Apply(Apply(Apply(Apply(Apply(c, events[0]), events[1]), events[2]), events[3]),
            events[4])
  {
    var c1 := Apply(c, events[0]);
    var c2 := Apply(c1, events[1]);
    var c3 := Apply(c2, events[2]);
    var c4 := Apply(c3, events[3]);
    RunOne(c, events, 0);
    RunOne(c1, events, 1);
    RunOne(c2, events, 2);
    RunOne(c3, events, 3);
    RunOne(c4, events, 4);
    assert events[0..] == events && events[5..] == [];
  }

  lemma {:induction false} RunOne(c: Channel, events: seq<Event>, i: nat)
    requires i < |events| && c.sender.offset <= |c.frame|
    ensures Run(c, events[i..]) == Run(Apply(c, events[i]), events[i + 1..])
  {
    assert events[i..][1..] == events[i + 1..];
  }

  // ----- whole frames arrive -----

  /** No error, no empty send, and enough answers for every byte and the shutdown. */
  predicate Willing(remaining: nat, answers: seq<Answer>)
    decreases |answers|
  {
    if answers == [] then false
    else
      match answers[0]
      case Fault => false
      case Again => Willing(remaining, answers[1..])
      case Takes(n) => n > 0 && (remaining == 0 || Willing(remaining - 1, answers[1..]))
  }

  lemma {:induction false} SentStays(length: nat, s: Sender, answers: seq<Answer>)
    requires s.offset <= length && s.stage == Sent
    ensures SendRun(length, s, answers) == s
    decreases |answers|
  {
    if answers != [] { SentStays(length, s, answers[1..]); }
  }

  lemma {:induction false} WillingSends(length: nat, s: Sender, remaining: nat, answers: seq<Answer>)
    requires s.offset <= length && length - s.offset <= remaining && Willing(remaining, answers)
    requires (s.stage == Sending && s.offset < length) || (s.stage == Shutting && s.offset == length)
    ensures SendRun(length, s, answers) == Sender(length, Sent)
    decreases |answers|
  {
    var t := SendStep(length, s, answers[0]);
    match answers[0] {
      case Again => WillingSends(length, t, remaining, answers[1..]);
      case Takes(n) =>
        if t.stage == Sent {
          SentStays(length, t, answers[1..]);
        } else {
          WillingSends(length, t, remaining - 1, answers[1..]);
        }
      case Fault =>
    }
  }

  /** Whatever the partial sends, a send without errors hands over the whole frame and shuts the socket down. */
  lemma {:induction false} SendSucceeds(length: nat, answers: seq<Answer>)
    requires Willing(length, answers)
    ensures SendRun(length, Starting(length), answers) == Sender(length, Sent)
  {
    WillingSends(length, Starting(length), length, answers);
  }

  function AllSends(answers: seq<Answer>): (events: seq<Event>)
  {
    if answers == [] then [] else [Sends(answers[0])] + AllSends(answers[1..])
  }

  function AllReads(answers: seq<Answer>): (events: seq<Event>)
  {
    if answers == [] then [] else [Reads(answers[0])] + AllReads(answers[1..])
  }

  lemma {:induction false} RunJoins(c: Channel, a: seq<Event>, b: seq<Event>)
    requires c.sender.offset <= |c.frame|
    ensures Run(c, a + b) == Run(Run(c, a), b)
    decreases |a|
  {
    if a == [] {
      assert a + b == b;
    } else {
      RunJoins(Apply(c, a[0]), a[1..], b);
      assert (a + b)[1..] == a[1..] + b;
    }
  }

  /** The sender alone: the queue gains what is handed over, and ends when the socket is shut down. */
  lemma {:induction false} SendsAlone(c: Channel, answers: seq<Answer>)
    requires c.sender.offset <= |c.frame| && (c.ended <==> c.sender.stage == Sent)
    ensures var s, d := SendRun(|c.frame|, c.sender, answers), Run(c, AllSends(answers));
            && d.sender == s && d.reader == c.reader && (d.ended <==> s.stage == Sent)
    decreases |answers|
  {
    if answers != [] {
      var events := AllSends(answers);
      assert events[0] == Sends(answers[0]) && events[1..] == AllSends(answers[1..]);
      SendsAlone(Apply(c, Sends(answers[0])), answers[1..]);
    }
  }

  /** The reader alone, once the whole stream is queued and ended. */
  lemma {:induction false} ReadsAlone(c: Channel, answers: seq<Answer>)
    requires Inv(c) && c.ended && c.sender.offset == |c.frame|
    ensures c.reader.length <= |c.frame|
    ensures Run(c, AllReads(answers)).reader == ReadRun(|c.frame|, c.reader, answers)
    ensures Run(c, AllReads(answers)).sender == c.sender
    decreases |answers|
  {
    assert |c.taken + c.queue| == |c.frame|;
    if answers != [] {
      var events := AllReads(answers);
      assert events[0] == Reads(answers[0]) && events[1..] == AllReads(answers[1..]);
      ReadKeeps(c, answers[0]);
      if c.reader.stage == Reading { ReadStepKeeps(c.reader, |c.queue|, c.ended, answers[0]); }
      ReadsAlone(Apply(c, Reads(answers[0])), answers[1..]);
    }
  }

  /** A frame of 3 to 32768 bytes, sent and then read without errors in any partial steps, arrives whole. */
  lemma {:induction false} FrameArrives(frame: Bytes, sent: seq<Answer>, read: seq<Answer>)
    requires 3 <= |frame| <= MAX_FRAME_BYTES && Willing(|frame|, sent) && Patient(|frame|, 0, read)
    ensures var c := Run(Open(frame), AllSends(sent) + AllReads(read)); c.reader.stage == Got && c.taken == frame
  {
    RunJoins(Open(frame), AllSends(sent), AllReads(read));
    var c := Run(Open(frame), AllSends(sent));
    SendsAlone(Open(frame), sent);
    SendSucceeds(|frame|, sent);
    RunKeeps(Open(frame), AllSends(sent));
    ReadsAlone(c, read);
    ReadSucceedsExactly(|frame|, read);
    ReadReturnsWhatWasSent(frame, AllSends(sent) + AllReads(read));
  }
}
