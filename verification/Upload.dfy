/** The chunked upload driver: pieces of any size go in, chunks of a fixed size come out.

    `Run` says what a whole upload does in terms of the bytes alone, without pieces, buffer or
    look-ahead. `UploadChunks` is the driver's nested loop and equals `Run` for every way of cutting
    the source into pieces. The lemmas then speak about `Run` and about chains of interrupted runs. */
module Upload {
  import opened Wrappers

  newtype u64 = x: int | 0 <= x < 0x1_0000_0000_0000_0000

  datatype Chunk = Chunk(offset: nat, bytes: seq<byte>, last: bool)

  /** One item the byte stream yields. */
  datatype Item = Piece(bytes: seq<byte>) | Failure

  datatype UploadError =
    | InvalidChunkSize
    | MediaEmpty
    | ResumeBeyondEnd
    | Transport
    | Cancelled
    | Refused(code: int)

  /** What happens when a chunk is due: the user has asked to cancel, or `send` answers. */
  datatype Answer = Accept | Cancel | Refuse(code: int)

  datatype Outcome = Outcome(result: Result<nat, UploadError>, sent: seq<Chunk>)

  // ---------- What a run does, stated on the bytes ----------

  /** The bytes a stream delivers before it ends or fails. */
  function Received(stream: seq<Item>): seq<byte> {
    if stream == [] || stream[0].Failure? then [] else stream[0].bytes + Received(stream[1..])
  }

  predicate Breaks(stream: seq<Item>) {
    Failure in stream
  }

  /** The chunks of a complete upload of `source` that starts at `from`. */
  function Ideal(source: seq<byte>, size: nat, from: nat): seq<Chunk>
    requires size > 0
    decreases |source| - from
  {
    if from >= |source| then []
    else
      var to := if from + size < |source| then from + size else |source|;
      [Chunk(from, source[from..to], to == |source|)] + Ideal(source, size, to)
  }

  /** The chunks due while more bytes may follow: each waits until the next one is full. */
  function Due(source: seq<byte>, size: nat, from: nat): seq<Chunk>
    requires size > 0
    decreases |source| - from
  {
    if |source| < from + 2 * size then []
    else [Chunk(from, source[from..from + size], false)] + Due(source, size, from + size)
  }

  /** Offers `planned[k..]` in order; the first chunk not accepted ends the run. */
  function Offer(planned: seq<Chunk>, answers: nat -> Answer, k: nat, done: Result<nat, UploadError>): Outcome
    requires k <= |planned|
    decreases |planned| - k
  {
    if k == |planned| then Outcome(done, planned)
    else match answers(k)
      case Accept => Offer(planned, answers, k + 1, done)
      case Cancel => Outcome(Err(Cancelled), planned[..k])
      case Refuse(code) => Outcome(Err(Refused(code)), planned[..k])
  }

  function Run(source: seq<byte>, breaks: bool, size: nat, from: nat, answers: nat -> Answer): Outcome {
    if size == 0 then Outcome(Err(InvalidChunkSize), [])
    else if breaks then Offer(Due(source, size, from), answers, 0, Err(Transport))
    else if source == [] then Outcome(Err(MediaEmpty), [])
    else if from >= |source| then Outcome(Err(ResumeBeyondEnd), [])
    else Offer(Ideal(source, size, from), answers, 0, Ok(|source|))
  }

  // ---------- The driver ----------

  /** `chunks` are full, unmarked, contiguous chunks that carry `source[from..to]`. */
  ghost predicate Delivers(chunks: seq<Chunk>, source: seq<byte>, size: nat, from: nat, to: nat) {
    if chunks == [] then from == to
    else
      var k := |chunks| - 1;
      && from + size <= to <= |source|
      && chunks[k] == Chunk(to - size, source[to - size..to], false)
      && Delivers(chunks[..k], source, size, from, to - size)
  }

  ghost predicate AllAccepted(answers: nat -> Answer, n: nat) {
    forall i: nat :: i < n ==> answers(i) == Accept
  }

  lemma DeliversNone(source: seq<byte>, size: nat, from: nat)
    ensures Delivers([], source, size, from, from)
  {
  }

  lemma DeliversSnoc(chunks: seq<Chunk>, source: seq<byte>, size: nat, from: nat, at: nat)
    requires Delivers(chunks, source, size, from, at)
    requires from <= at && at + size <= |source|
    ensures Delivers(chunks + [Chunk(at, source[at..at + size], false)], source, size, from, at + size)
  {
    assert (chunks + [Chunk(at, source[at..at + size], false)])[..|chunks|] == chunks;
  }

  lemma {:induction false} DeliversMore(chunks: seq<Chunk>, source: seq<byte>, more: seq<byte>, size: nat, from: nat, to: nat)
    requires Delivers(chunks, source, size, from, to)
    requires source <= more
    ensures Delivers(chunks, more, size, from, to)
  {
    if chunks != [] {
      DeliversMore(chunks[..|chunks| - 1], source, more, size, from, to - size);
    }
  }

  lemma LastChunk(source: seq<byte>, size: nat, at: nat)
    requires size > 0 && at < |source| <= at + size
    ensures Ideal(source, size, at) == [Chunk(at, source[at..], true)]
  {
    assert source[at..|source|] == source[at..];
  }

  lemma Regroup(front: seq<Chunk>, c: Chunk, back: seq<Chunk>)
    ensures front + ([c] + back) == front + [c] + back
  {
  }

  lemma IdealStep(source: seq<byte>, size: nat, at: nat)
    requires size > 0 && at + size < |source|
    ensures Ideal(source, size, at) == [Chunk(at, source[at..at + size], false)] + Ideal(source, size, at + size)
  {
  }

  /** A delivered stretch splits off the front of the plan for any source that goes on past it. */
  lemma {:induction false} DeliversIdeal(chunks: seq<Chunk>, source: seq<byte>, size: nat, from: nat, to: nat)
    requires size > 0 && to < |source|
    requires Delivers(chunks, source, size, from, to)
    ensures from <= to
    ensures Ideal(source, size, from) == chunks + Ideal(source, size, to)
  {
    hide Ideal;
    if chunks == [] {
      assert chunks + Ideal(source, size, to) == Ideal(source, size, to);
    } else {
      var k := |chunks| - 1;
      var c := chunks[k];
      DeliversIdeal(chunks[..k], source, size, from, to - size);
      IdealStep(source, size, to - size);
      Regroup(chunks[..k], c, Ideal(source, size, to));
      assert chunks == chunks[..k] + [c];
    }
  }

  lemma {:induction false} DeliversDue(chunks: seq<Chunk>, source: seq<byte>, size: nat, from: nat, to: nat)
    requires size > 0
    requires Delivers(chunks, source, size, from, to)
    requires chunks == [] || to + size <= |source|
    ensures Due(source, size, from) == chunks + Due(source, size, to)
  {
    if chunks == [] {
      assert chunks + Due(source, size, to) == Due(source, size, to);
    } else {
      var k := |chunks| - 1;
      DeliversDue(chunks[..k], source, size, from, to - size);
      assert chunks == chunks[..k] + [chunks[k]];
      assert Due(source, size, to - size) == [chunks[k]] + Due(source, size, to);
    }
  }

  lemma {:induction false} OfferAt(planned: seq<Chunk>, answers: nat -> Answer, k: nat, n: nat, done: Result<nat, UploadError>)
    requires k <= n <= |planned|
    requires AllAccepted(answers, n)
    ensures Offer(planned, answers, k, done) == Offer(planned, answers, n, done)
    decreases n - k
  {
    if k < n {
      OfferAt(planned, answers, k + 1, n, done);
    }
  }

  /** A run that stops at chunk `c`, whose successor is already complete, is the whole run. */
  lemma StopsAt(source: seq<byte>, whole: seq<byte>, breaks: bool, size: nat, from: nat, answers: nat -> Answer,
                sent: seq<Chunk>, c: Chunk, to: nat)
    requires size > 0 && source <= whole
    requires Delivers(sent + [c], source, size, from, to) && to + size <= |source|
    requires AllAccepted(answers, |sent|)
    requires answers(|sent|) != Accept
    ensures var e := if answers(|sent|) == Cancel then Cancelled else Refused(answers(|sent|).code);
            Run(whole, breaks, size, from, answers) == Outcome(Err(e), sent)
  {
    DeliversMore(sent + [c], source, whole, size, from, to);
    DeliversIdeal(sent + [c], whole, size, from, to);
    DeliversDue(sent + [c], whole, size, from, to);
    var planned := if breaks then Due(whole, size, from) else Ideal(whole, size, from);
    var done := if breaks then Err(Transport) else Ok(|whole|);
    OfferAt(planned, answers, 0, |sent|, done);
    assert planned[..|sent|] == sent;
  }

  /** The runs that end before anything is planned. */
  lemma UnsentRuns(source: seq<byte>, breaks: bool, size: nat, from: nat, answers: nat -> Answer)
    ensures size == 0 ==> Run(source, breaks, size, from, answers) == Outcome(Err(InvalidChunkSize), [])
    ensures size > 0 && !breaks && source == [] ==>
              Run(source, breaks, size, from, answers) == Outcome(Err(MediaEmpty), [])
    ensures size > 0 && !breaks && 0 < |source| <= from ==>
              Run(source, breaks, size, from, answers) == Outcome(Err(ResumeBeyondEnd), [])
  {
  }

  /** Where a complete upload stands when chunk `c` is due after `sent`. */
  lemma EndsAt(source: seq<byte>, size: nat, from: nat, answers: nat -> Answer, sent: seq<Chunk>, c: Chunk)
    requires size > 0 && from < |source|
    requires sent + [c] <= Ideal(source, size, from)
    requires AllAccepted(answers, |sent|)
    ensures answers(|sent|) == Cancel ==> Run(source, false, size, from, answers) == Outcome(Err(Cancelled), sent)
    ensures answers(|sent|).Refuse? ==>
              Run(source, false, size, from, answers) == Outcome(Err(Refused(answers(|sent|).code)), sent)
    ensures answers(|sent|) == Accept && sent + [c] == Ideal(source, size, from) ==>
              Run(source, false, size, from, answers) == Outcome(Ok(|source|), sent + [c])
  {
    var planned := Ideal(source, size, from);
    OfferAt(planned, answers, 0, |sent|, Ok(|source|));
    assert planned[..|sent|] == sent;
  }

  /** Checks for a cancel request, then sends; `sent` grows only when `send` accepts. */
  method Emit(answers: nat -> Answer, sent: seq<Chunk>, chunk: Chunk) returns (stop: Option<UploadError>, sent': seq<Chunk>)
    ensures stop == match answers(|sent|)
                    case Accept => None
                    case Cancel => Some(Cancelled)
                    case Refuse(code) => Some(Refused(code))
    ensures sent' == if answers(|sent|) == Accept then sent + [chunk] else sent
  {
    var answer := answers(|sent|);
    if answer == Cancel {
      return Some(Cancelled), sent;
    }
    if answer.Refuse? {
      return Some(Refused(answer.code)), sent;
    }
    return None, sent + [chunk];
  }

  lemma {:induction false} ReceivedSplit(stream: seq<Item>, i: nat)
    requires i < |stream|
    requires forall j :: 0 <= j < i ==> stream[j].Piece?
    ensures stream[i].Failure? ==> Received(stream) == Received(stream[..i])
    ensures stream[i].Piece? ==> Received(stream[..i + 1]) == Received(stream[..i]) + stream[i].bytes <= Received(stream)
  {
    if i == 0 {
      assert stream[..1] == [stream[0]];
    } else {
      var rest := stream[1..];
      ReceivedSplit(rest, i - 1);
      assert stream[..i] == [stream[0]] + rest[..i - 1];
      assert stream[..i + 1] == [stream[0]] + rest[..i];
      ReceivedCons(stream[0], rest[..i - 1]);
      ReceivedCons(stream[0], rest[..i]);
    }
  }

  lemma ReceivedCons(item: Item, rest: seq<Item>)
    requires item.Piece?
    ensures Received([item] + rest) == item.bytes + Received(rest)
  {
    assert ([item] + rest)[1..] == rest;
  }

  /** Cuts full chunks off the buffer. A chunk goes to look-ahead, and the one that was there is sent. */
  method Drain(ghost source: seq<byte>, ghost whole: seq<byte>, ghost breaks: bool, ghost from: nat,
               chunkSize: nat, answers: nat -> Answer,
               next0: u64, buf0: seq<byte>, pending0: Option<(u64, seq<byte>)>, sent0: seq<Chunk>)
    returns (stop: Option<UploadError>, nextOffset: u64, buf: seq<byte>, pending: Option<(u64, seq<byte>)>, sent: seq<Chunk>)
    requires chunkSize > 0 && source <= whole && |whole| < 0x1_0000_0000_0000_0000
    requires Holding(source, chunkSize, from, next0 as nat, buf0, pending0, sent0)
    requires AllAccepted(answers, |sent0|)
    ensures stop.Some? ==> Run(whole, breaks, chunkSize, from, answers) == Outcome(Err(stop.value), sent)
    ensures stop.None? ==> Holding(source, chunkSize, from, nextOffset as nat, buf, pending, sent)
    ensures stop.None? ==> |buf| < chunkSize && AllAccepted(answers, |sent|)
  {
    hide Run, Delivers;
    stop, nextOffset, buf, pending, sent := None, next0, buf0, pending0, sent0;
    while |buf| >= chunkSize
      invariant stop == None
      invariant Holding(source, chunkSize, from, nextOffset as nat, buf, pending, sent)
      invariant AllAccepted(answers, |sent|)
      decreases |buf|
    {
      ghost var before := sent;
      var bytes := buf[..chunkSize];
      buf := buf[chunkSize..];
      var offset := nextOffset;
      nextOffset := nextOffset + chunkSize as u64;
      if pending.Some? {
        var (o, b) := pending.value;
        var chunk := Chunk(o as nat, b, false);
        DeliversSnoc(before, source, chunkSize, from, o as nat);
        stop, sent := Emit(answers, sent, chunk);
        if stop.Some? {
          StopsAt(source, whole, breaks, chunkSize, from, answers, sent, chunk, offset as nat);
          return;
        }
      }
      DeliversNone(source, chunkSize, from);
      pending := Some((offset, bytes));
    }
  }

  /** After the stream: sends what is in look-ahead and what is buffered, marking the final chunk. */
  method Finish(ghost source: seq<byte>, ghost from: nat, chunkSize: nat, answers: nat -> Answer, total: u64,
                nextOffset: u64, buf: seq<byte>, pending0: Option<(u64, seq<byte>)>, sent0: seq<Chunk>)
    returns (result: Result<nat, UploadError>, sent: seq<Chunk>)
    requires chunkSize > 0 && |source| == total as nat > from
    requires Holding(source, chunkSize, from, nextOffset as nat, buf, pending0, sent0) && |buf| < chunkSize
    requires AllAccepted(answers, |sent0|)
    ensures Outcome(result, sent) == Run(source, false, chunkSize, from, answers)
  {
    hide Run, Ideal, Delivers;
    DeliversNone(source, chunkSize, from);
    sent := sent0;
    var pending := pending0;
    var stop: Option<UploadError>;
    if buf != [] {
      if pending.Some? {
        var (o, b) := pending.value;
        var chunk := Chunk(o as nat, b, false);
        DeliversSnoc(sent0, source, chunkSize, from, o as nat);
        DeliversIdeal(sent0 + [chunk], source, chunkSize, from, nextOffset as nat);
        EndsAt(source, chunkSize, from, answers, sent0, chunk);
        stop, sent := Emit(answers, sent, chunk);
        if stop.Some? {
          return Err(stop.value), sent;
        }
      }
      pending := Some((nextOffset, buf));
    }
    assert pending.Some?;
    var (o, b) := pending.value;
    var chunk := Chunk(o as nat, b, true);
    DeliversIdeal(sent, source, chunkSize, from, o as nat);
    assert b == source[o as nat..];
    LastChunk(source, chunkSize, o as nat);
    EndsAt(source, chunkSize, from, answers, sent, chunk);
    stop, sent := Emit(answers, sent, chunk);
    if stop.Some? {
      return Err(stop.value), sent;
    }
    return Ok(total as nat), sent;
  }

  // ---------- The whole call, from the stream's items ----------

  /** How many bytes the first `i` items carry. */
  function Before(stream: seq<Item>, i: nat): nat
    requires i <= |stream|
  {
    if i == 0 then 0 else Before(stream, i - 1) + if stream[i - 1].Piece? then |stream[i - 1].bytes| else 0
  }

  /** `bytes` hold every byte of every piece from position `from` of the stream on, each at its place. */
  ghost predicate InPlace(stream: seq<Item>, from: nat, bytes: seq<byte>)
    requires forall i :: 0 <= i < |stream| ==> stream[i].Piece?
  {
    forall i: nat, k: nat :: i < |stream| && k < |stream[i].bytes| ==> ByteInPlace(stream, from, bytes, i, k)
  }

  ghost predicate ByteInPlace(stream: seq<Item>, from: nat, bytes: seq<byte>, i: nat, k: nat)
    requires i < |stream| && stream[i].Piece? && k < |stream[i].bytes|
  {
    var at := Before(stream, i) + k;
    at < from || (at < from + |bytes| && bytes[at - from] == stream[i].bytes[k])
  }

  /** What comes of a call, in terms of the stream's items. A stream that fails never ends in success, and no
      chunk is marked last. A success has read every item and sent every byte from the resume offset on, in
      place. Every chunk sent was accepted, and a cancelled or refused chunk ends the call. */
  ghost predicate CallMeans(stream: seq<Item>, from: nat, answers: nat -> Answer, o: Outcome) {
    && ((exists i :: 0 <= i < |stream| && stream[i].Failure?) ==> o.result.Err? && forall c :: c in o.sent ==> !c.last)
    && (o.result == Err(Transport) ==> exists i :: 0 <= i < |stream| && stream[i].Failure?)
    && (o.result.Ok? ==>
          && (forall i :: 0 <= i < |stream| ==> stream[i].Piece?)
          && o.result.value == Before(stream, |stream|) == from + |Joined(o.sent)|
          && InPlace(stream, from, Joined(o.sent)))
    && (forall i :: 0 <= i < |o.sent| ==> answers(i) == Accept)
    && (o.result == Err(Cancelled) ==> answers(|o.sent|) == Cancel)
    && (forall code :: o.result == Err(Refused(code)) ==> answers(|o.sent|) == Refuse(code))
  }

  lemma {:induction false} ReceivedPrefix(stream: seq<Item>, i: nat)
    requires i <= |stream| && forall j :: 0 <= j < i ==> stream[j].Piece?
    ensures Received(stream[..i]) <= Received(stream)
    ensures |Received(stream[..i])| == Before(stream, i)
    decreases i
  {
    if i > 0 {
      ReceivedPrefix(stream, i - 1);
      ReceivedSplit(stream, i - 1);
    }
  }

  /** The bytes received are the pieces' bytes, each at its place. */
  lemma ReceivedAt(stream: seq<Item>, i: nat, k: nat)
    requires i < |stream| && forall j :: 0 <= j <= i ==> stream[j].Piece?
    requires k < |stream[i].bytes|
    ensures Before(stream, i) + k < |Received(stream)| && Received(stream)[Before(stream, i) + k] == stream[i].bytes[k]
  {
    ReceivedPrefix(stream, i);
    ReceivedSplit(stream, i);
    var front := Received(stream[..i]);
    assert (front + stream[i].bytes)[|front| + k] == stream[i].bytes[k];
  }

  lemma RunMeans(stream: seq<Item>, size: nat, from: nat, answers: nat -> Answer)
    ensures CallMeans(stream, from, answers, Run(Received(stream), Breaks(stream), size, from, answers))
  {
    hide Run, Received, Before, Joined, Ideal, Due, Delivers, WellCut, InPlace, Breaks;
    var source := Received(stream);
    var o := Run(source, Breaks(stream), size, from, answers);
    RunAccepts(source, Breaks(stream), size, from, answers);
    BreaksIff(stream);
    if !Breaks(stream) && o.result.Ok? {
      RunSucceeds(source, size, from, answers);
      PiecesInPlace(stream, from);
    }
  }

  lemma PiecesInPlace(stream: seq<Item>, from: nat)
    requires forall i :: 0 <= i < |stream| ==> stream[i].Piece?
    ensures |Received(stream)| == Before(stream, |stream|)
    ensures from <= |Received(stream)| ==> InPlace(stream, from, Received(stream)[from..])
  {
    hide Received, Before;
    var source := Received(stream);
    assert stream[..|stream|] == stream;
    ReceivedPrefix(stream, |stream|);
    if from <= |source| {
      forall i: nat, k: nat | i < |stream| && k < |stream[i].bytes| ensures ByteInPlace(stream, from, source[from..], i, k) {
        ReceivedAt(stream, i, k);
      }
    }
  }

  lemma BreaksIff(stream: seq<Item>)
    ensures Breaks(stream) <==> exists i :: 0 <= i < |stream| && stream[i].Failure?
    ensures !Breaks(stream) ==> forall i :: 0 <= i < |stream| ==> stream[i].Piece?
  {
    if !Breaks(stream) {
      forall i | 0 <= i < |stream| ensures stream[i].Piece? {
        assert stream[i] in stream;
      }
    }
  }

  lemma RunSucceeds(source: seq<byte>, size: nat, from: nat, answers: nat -> Answer)
    requires Run(source, false, size, from, answers).result.Ok?
    ensures var o := Run(source, false, size, from, answers);
            from < |source| && o.result.value == |source| && Joined(o.sent) == source[from..]
  {
    hide Ideal, Due, Offer;
    OfferPrefix(Ideal(source, size, from), answers, 0, Ok(|source|));
    IdealIsWellCut(source, size, from);
  }

  /** Every chunk sent was accepted, and each error has its cause. */
  lemma RunAccepts(source: seq<byte>, breaks: bool, size: nat, from: nat, answers: nat -> Answer)
    ensures var o := Run(source, breaks, size, from, answers);
            && (breaks ==> o.result.Err? && forall c :: c in o.sent ==> !c.last)
            && (o.result == Err(Transport) ==> breaks)
            && (forall i :: 0 <= i < |o.sent| ==> answers(i) == Accept)
            && (o.result == Err(Cancelled) ==> answers(|o.sent|) == Cancel)
            && (forall code :: o.result == Err(Refused(code)) ==> answers(|o.sent|) == Refuse(code))
  {
    hide Due, Ideal, Offer;
    if size > 0 {
      var due, ideal := Due(source, size, from), Ideal(source, size, from);
      DueUnmarked(source, size, from);
      OfferPrefix(due, answers, 0, Err(Transport));
      OfferPrefix(ideal, answers, 0, Ok(|source|));
      OfferAccepts(due, answers, 0, Err(Transport));
      OfferAccepts(ideal, answers, 0, Ok(|source|));
    }
  }

  lemma {:induction false} DueUnmarked(source: seq<byte>, size: nat, from: nat)
    requires size > 0
    ensures forall c :: c in Due(source, size, from) ==> !c.last
    decreases |source| - from
  {
    if |source| >= from + 2 * size {
      DueUnmarked(source, size, from + size);
    }
  }

  lemma {:induction false} OfferAccepts(planned: seq<Chunk>, answers: nat -> Answer, k: nat, done: Result<nat, UploadError>)
    requires k <= |planned|
    ensures forall i :: k <= i < |Offer(planned, answers, k, done).sent| ==> answers(i) == Accept
    decreases |planned| - k
  {
    if k < |planned| && answers(k) == Accept {
      OfferAccepts(planned, answers, k + 1, done);
    }
  }

  /** The driver. `held` records how many bytes it keeps each time it is about to read the stream:
      less than one chunk in the buffer and at most one chunk in look-ahead. */
  method UploadChunks(stream: seq<Item>, chunkSize: nat, resumeFrom: u64, answers: nat -> Answer)
    returns (result: Result<nat, UploadError>, sent: seq<Chunk>, ghost held: seq<nat>)
    requires |Received(stream)| < 0x1_0000_0000_0000_0000
    ensures Outcome(result, sent) == Run(Received(stream), Breaks(stream), chunkSize, resumeFrom as nat, answers)
    ensures CallMeans(stream, resumeFrom as nat, answers, Outcome(result, sent))
    ensures forall h :: h in held ==> h < 2 * chunkSize
  {
    hide Run, Holding, Breaks, CallMeans;
    RunMeans(stream, chunkSize, resumeFrom as nat, answers);
    BreaksIff(stream);
    sent, held := [], [];
    UnsentRuns(Received(stream), Breaks(stream), chunkSize, resumeFrom as nat, answers);
    if chunkSize == 0 {
      return Err(InvalidChunkSize), sent, held;
    }
    ghost var from := resumeFrom as nat;
    ghost var whole := Received(stream);
    var total: u64 := 0;
    var buf: seq<byte> := [];
    var nextOffset := resumeFrom;
    var pending: Option<(u64, seq<byte>)> := None;
    var i := 0;
    Starts(chunkSize, resumeFrom);

    while i < |stream|
      invariant 0 <= i <= |stream|
      invariant forall j :: 0 <= j < i ==> stream[j].Piece?
      invariant Received(stream[..i]) <= whole && total as nat == |Received(stream[..i])|
      invariant Holding(Received(stream[..i]), chunkSize, from, nextOffset as nat, buf, pending, sent)
      invariant |buf| < chunkSize
      invariant AllAccepted(answers, |sent|)
      invariant forall h :: h in held ==> h < 2 * chunkSize
    {
      Held(Received(stream[..i]), chunkSize, from, nextOffset as nat, buf, pending, sent);
      held := held + [|buf| + if pending.Some? then |pending.value.1| else 0];
      ghost var before := Received(stream[..i]);
      ReceivedSplit(stream, i);
      if stream[i].Failure? {
        assert whole == before;
        EndsBroken(whole, chunkSize, from, nextOffset as nat, buf, pending, sent, answers);
        return Err(Transport), sent, held;
      }
      var piece := stream[i].bytes;
      i := i + 1;
      ghost var source := Received(stream[..i]);
      var pieceStart := total;
      total := total + |piece| as u64;
      Absorb(before, piece, chunkSize, from, nextOffset as nat, buf, pending, sent);
      if total <= resumeFrom {
        continue;
      }
      if pieceStart < resumeFrom {
        var skip := (resumeFrom - pieceStart) as nat;
        assert skip < |piece|;
        piece := piece[skip..];
      }
      buf := buf + piece;
      var stop: Option<UploadError>;
      stop, nextOffset, buf, pending, sent :=
        Drain(source, whole, Breaks(stream), from, chunkSize, answers, nextOffset, buf, pending, sent);
      if stop.Some? {
        return Err(stop.value), sent, held;
      }
    }
    assert stream[..i] == stream;
    Held(whole, chunkSize, from, nextOffset as nat, buf, pending, sent);

    if total == 0 {
      return Err(MediaEmpty), sent, held;
    }
    if resumeFrom >= total {
      return Err(ResumeBeyondEnd), sent, held;
    }
    result, sent := Finish(whole, from, chunkSize, answers, total, nextOffset, buf, pending, sent);
  }

  /** The driver's state after reading `source`: what is sent, waiting and buffered makes up
      `source[from..]` in order, and `next` never passes the larger of `from` and the bytes read. */
  ghost predicate Holding(source: seq<byte>, size: nat, from: nat, next: nat, buf: seq<byte>,
                          pending: Option<(u64, seq<byte>)>, sent: seq<Chunk>)
  {
    && from <= next
    && (if |source| <= from then buf == [] && next == from && pending == None
        else next <= |source| && buf == source[next..])
    && match pending
       case None => next == from && sent == []
       case Some((o, b)) =>
         && from + size <= o as nat + size == next <= |source|
         && b == source[o as nat..next]
         && Delivers(sent, source, size, from, o as nat)
  }

  /** Reading `bytes`: the part before `from` is dropped, the rest joins the buffer. */
  lemma Absorb(source: seq<byte>, bytes: seq<byte>, size: nat, from: nat, next: nat, buf: seq<byte>,
               pending: Option<(u64, seq<byte>)>, sent: seq<Chunk>)
    requires Holding(source, size, from, next, buf, pending, sent)
    ensures |source + bytes| <= from ==> Holding(source + bytes, size, from, next, buf, pending, sent)
    ensures |source| < from < |source + bytes| ==>
              Holding(source + bytes, size, from, next, buf + bytes[from - |source|..], pending, sent)
    ensures from <= |source| && from < |source + bytes| ==>
              Holding(source + bytes, size, from, next, buf + bytes, pending, sent)
  {
    if pending.Some? {
      DeliversMore(sent, source, source + bytes, size, from, pending.value.0 as nat);
    }
  }

  lemma Starts(size: nat, from: u64)
    ensures Holding([], size, from as nat, from as nat, [], None, [])
  {
  }

  lemma Held(source: seq<byte>, size: nat, from: nat, next: nat, buf: seq<byte>,
             pending: Option<(u64, seq<byte>)>, sent: seq<Chunk>)
    requires Holding(source, size, from, next, buf, pending, sent)
    ensures pending.Some? ==> |pending.value.1| == size
    ensures |source| <= from ==> sent == []
  {
  }

  lemma EndsBroken(source: seq<byte>, size: nat, from: nat, next: nat, buf: seq<byte>,
                   pending: Option<(u64, seq<byte>)>, sent: seq<Chunk>, answers: nat -> Answer)
    requires size > 0
    requires Holding(source, size, from, next, buf, pending, sent) && |buf| < size
    requires AllAccepted(answers, |sent|)
    ensures Run(source, true, size, from, answers) == Outcome(Err(Transport), sent)
  {
    if pending.Some? {
      DeliversDue(sent, source, size, from, pending.value.0 as nat);
      assert Due(source, size, from) == sent;
    }
    OfferAt(Due(source, size, from), answers, 0, |sent|, Err(Transport));
  }

  // ---------- What the plan means ----------

  function Joined(chunks: seq<Chunk>): seq<byte> {
    if chunks == [] then [] else chunks[0].bytes + Joined(chunks[1..])
  }

  /** The promise to the platform, without saying how the chunks are found. */
  ghost predicate WellCut(chunks: seq<Chunk>, source: seq<byte>, size: nat, from: nat)
    requires from <= |source|
  {
    var n := |chunks|;
    && n > 0
    && Joined(chunks) == source[from..]
    && chunks[0].offset == from
    && (forall i :: 0 < i < n ==> chunks[i].offset == chunks[i - 1].offset + |chunks[i - 1].bytes|)
    && (forall i :: 0 <= i < n - 1 ==> |chunks[i].bytes| == size && !chunks[i].last)
    && 0 < |chunks[n - 1].bytes| <= size && chunks[n - 1].last
  }

  /** The plan is well cut, and it is the only sequence of chunks that is. */
  lemma {:induction false} IdealIsTheOnlyCut(chunks: seq<Chunk>, source: seq<byte>, size: nat, from: nat)
    requires size > 0 && from < |source|
    ensures WellCut(chunks, source, size, from) <==> chunks == Ideal(source, size, from)
  {
    IdealIsWellCut(source, size, from);
    if WellCut(chunks, source, size, from) {
      CutIsIdeal(chunks, source, size, from);
    }
  }

  lemma {:induction false} IdealIsWellCut(source: seq<byte>, size: nat, from: nat)
    requires size > 0 && from < |source|
    ensures WellCut(Ideal(source, size, from), source, size, from)
    decreases |source| - from
  {
    hide Ideal, WellCut;
    if |source| - from <= size {
      LastChunk(source, size, from);
      OneIsWellCut(source, size, from);
    } else {
      IdealIsWellCut(source, size, from + size);
      IdealStep(source, size, from);
      WellCutCons(Ideal(source, size, from + size), source, size, from);
    }
  }

  lemma OneIsWellCut(source: seq<byte>, size: nat, from: nat)
    requires from < |source| <= from + size
    ensures WellCut([Chunk(from, source[from..], true)], source, size, from)
  {
    var c := Chunk(from, source[from..], true);
    assert Joined([c]) == c.bytes + Joined([]);
  }

  lemma WellCutCons(rest: seq<Chunk>, source: seq<byte>, size: nat, from: nat)
    requires size > 0 && from + size < |source|
    requires WellCut(rest, source, size, from + size)
    ensures WellCut([Chunk(from, source[from..from + size], false)] + rest, source, size, from)
  {
    hide Joined;
    var chunks := [Chunk(from, source[from..from + size], false)] + rest;
    JoinedCons(chunks[0], rest);
    assert source[from..] == source[from..from + size] + source[from + size..];
    forall i | 0 < i < |chunks|
      ensures chunks[i].offset == chunks[i - 1].offset + |chunks[i - 1].bytes|
    {
      assert chunks[i] == rest[i - 1];
      if i > 1 {
        assert chunks[i - 1] == rest[i - 1 - 1];
      }
    }
    forall i | 0 <= i < |chunks| - 1 ensures |chunks[i].bytes| == size && !chunks[i].last {
      if i > 0 {
        assert chunks[i] == rest[i - 1];
      }
    }
  }

  lemma JoinedCons(c: Chunk, rest: seq<Chunk>)
    ensures Joined([c] + rest) == c.bytes + Joined(rest)
  {
    assert ([c] + rest)[1..] == rest;
  }

  lemma {:induction false} CutIsIdeal(chunks: seq<Chunk>, source: seq<byte>, size: nat, from: nat)
    requires size > 0 && from < |source|
    requires WellCut(chunks, source, size, from)
    ensures chunks == Ideal(source, size, from)
    decreases |chunks|
  {
    hide Ideal;
    if |chunks| == 1 {
      assert Joined(chunks) == chunks[0].bytes + Joined(chunks[1..]);
      assert chunks[0].bytes == source[from..];
      LastChunk(source, size, from);
    } else {
      CutTail(chunks, source, size, from);
      CutIsIdeal(chunks[1..], source, size, from + size);
      IdealStep(source, size, from);
      assert chunks == [chunks[0]] + chunks[1..];
    }
  }

  lemma CutTail(chunks: seq<Chunk>, source: seq<byte>, size: nat, from: nat)
    requires size > 0 && from < |source|
    requires WellCut(chunks, source, size, from) && |chunks| > 1
    ensures from + size < |source|
    ensures chunks[0] == Chunk(from, source[from..from + size], false)
    ensures WellCut(chunks[1..], source, size, from + size)
  {
    var rest := chunks[1..];
    assert chunks[0].offset == from && |chunks[0].bytes| == size && !chunks[0].last;
    assert rest[0] == chunks[1] && rest[|rest| - 1] == chunks[|chunks| - 1];
    JoinedHasLast(rest);
    SplitAt(source, from, chunks[0].bytes, Joined(rest));
    forall i | 0 < i < |rest|
      ensures rest[i].offset == rest[i - 1].offset + |rest[i - 1].bytes|
    {
      assert rest[i] == chunks[i + 1] && rest[i - 1] == chunks[i];
      assert chunks[i + 1].offset == chunks[i + 1 - 1].offset + |chunks[i + 1 - 1].bytes|;
    }
  }

  lemma SplitAt(source: seq<byte>, from: nat, a: seq<byte>, b: seq<byte>)
    requires from <= |source| && source[from..] == a + b
    ensures from + |a| <= |source|
    ensures source[from..from + |a|] == a && source[from + |a|..] == b
  {
    assert source[from..][..|a|] == source[from..from + |a|];
    assert source[from..][|a|..] == source[from + |a|..];
  }

  lemma {:induction false} JoinedHasLast(chunks: seq<Chunk>)
    requires chunks != []
    ensures |Joined(chunks)| >= |chunks[|chunks| - 1].bytes|
  {
    if |chunks| > 1 {
      JoinedHasLast(chunks[1..]);
    }
  }

  // ---------- Interrupted and resumed runs ----------

  /** What one attempt reads of `whole`: all of it, or a first part before the stream breaks. */
  datatype Attempt = Attempt(source: seq<byte>, breaks: bool, answers: nat -> Answer) {
    ghost predicate Reads(whole: seq<byte>) {
      source <= whole && (!breaks ==> source == whole)
    }
  }

  /** Every run sends the plan of the whole source, completely when it succeeds, and otherwise a proper
      first part of it: no chunk sent by a failing run is marked last, and none is skipped. */
  lemma RunSendsThePlan(a: Attempt, whole: seq<byte>, size: nat, from: nat)
    requires size > 0 && from < |whole| && a.Reads(whole)
    ensures var o := Run(a.source, a.breaks, size, from, a.answers);
            && (o.result.Ok? ==> o.result.value == |whole| && o.sent == Ideal(whole, size, from) && !a.breaks)
            && (o.result.Err? ==>
                  && ResumePoint(o.sent, from) < |whole|
                  && Delivers(o.sent, whole, size, from, ResumePoint(o.sent, from))
                  && o.result.error !in {InvalidChunkSize, MediaEmpty, ResumeBeyondEnd}
                  && (o.result.error == Transport ==> a.breaks && o.sent == Due(a.source, size, from))
                  && (o.result.error == Cancelled ==> a.answers(|o.sent|) == Cancel)
                  && (o.result.error.Refused? ==> a.answers(|o.sent|) == Refuse(o.result.error.code)))
  {
    hide Delivers, Ideal, Due, Offer, ResumePoint;
    var planned := if a.breaks then Due(a.source, size, from) else Ideal(whole, size, from);
    var done := if a.breaks then Err(Transport) else Ok(|whole|);
    var o := Offer(planned, a.answers, 0, done);
    OfferPrefix(planned, a.answers, 0, done);
    assert Run(a.source, a.breaks, size, from, a.answers) == o;
    assert planned[..|o.sent|] == o.sent;
    if a.breaks {
      DueDelivers(a.source, whole, size, from, |o.sent|);
    } else if o.result.Err? {
      IdealDelivers(whole, size, from, |o.sent|);
    }
  }

  lemma {:induction false} OfferPrefix(planned: seq<Chunk>, answers: nat -> Answer, k: nat, done: Result<nat, UploadError>)
    requires k <= |planned|
    ensures var o := Offer(planned, answers, k, done);
            && k <= |o.sent| && o.sent <= planned
            && (o.sent == planned ==> o.result == done)
            && (o.sent != planned ==>
                  && answers(|o.sent|) != Accept
                  && o.result == Err(if answers(|o.sent|) == Cancel then Cancelled else Refused(answers(|o.sent|).code)))
    decreases |planned| - k
  {
    if k < |planned| && answers(k) == Accept {
      OfferPrefix(planned, answers, k + 1, done);
    }
  }

  /** A run ends in a validation error exactly under that error's condition, and then nothing was sent. A
      stream that breaks is reported as such, also when nothing was read or the offset was not reached. */
  lemma RefusedUnsent(source: seq<byte>, breaks: bool, size: nat, from: nat, answers: nat -> Answer)
    ensures var o := Run(source, breaks, size, from, answers);
            && (o.result == Err(InvalidChunkSize) <==> size == 0)
            && (o.result == Err(MediaEmpty) <==> size > 0 && !breaks && source == [])
            && (o.result == Err(ResumeBeyondEnd) <==> size > 0 && !breaks && 0 < |source| <= from)
            && (o.result.Err? && o.result.error in {InvalidChunkSize, MediaEmpty, ResumeBeyondEnd} ==> o.sent == [])
  {
    hide Due, Ideal, Offer;
    if size > 0 {
      OfferPrefix(Due(source, size, from), answers, 0, Err(Transport));
      OfferPrefix(Ideal(source, size, from), answers, 0, Ok(|source|));
    }
  }

  /** Where a caller resumes: the end of the last accepted chunk. */
  function ResumePoint(sent: seq<Chunk>, from: nat): nat {
    if sent == [] then from else sent[|sent| - 1].offset + |sent[|sent| - 1].bytes|
  }

  lemma {:induction false} IdealDelivers(source: seq<byte>, size: nat, from: nat, n: nat)
    requires size > 0 && from < |source|
    requires n < |Ideal(source, size, from)|
    ensures var sent := Ideal(source, size, from)[..n];
            ResumePoint(sent, from) < |source| && Delivers(sent, source, size, from, ResumePoint(sent, from))
    decreases n
  {
    hide Ideal, Delivers;
    if n == 0 {
      DeliversNone(source, size, from);
    } else {
      IdealDelivers(source, size, from, n - 1);
      var before := Ideal(source, size, from)[..n - 1];
      var at := ResumePoint(before, from);
      var rest := Ideal(source, size, at);
      DeliversIdeal(before, source, size, from, at);
      IdealGoesOn(source, size, at);
      TakeOneMore(before, rest);
      DeliversSnoc(before, source, size, from, at);
    }
  }

  lemma TakeOneMore(before: seq<Chunk>, rest: seq<Chunk>)
    requires rest != []
    ensures (before + rest)[..|before| + 1] == before + [rest[0]]
  {
  }

  lemma IdealGoesOn(source: seq<byte>, size: nat, at: nat)
    requires size > 0 && |Ideal(source, size, at)| > 1
    ensures at + size < |source|
    ensures Ideal(source, size, at)[0] == Chunk(at, source[at..at + size], false)
  {
  }

  lemma {:induction false} DueDelivers(source: seq<byte>, whole: seq<byte>, size: nat, from: nat, n: nat)
    requires size > 0 && from < |whole| && source <= whole
    requires n <= |Due(source, size, from)|
    ensures var sent := Due(source, size, from)[..n];
            ResumePoint(sent, from) < |whole| && Delivers(sent, whole, size, from, ResumePoint(sent, from))
    decreases n
  {
    if n > 0 {
      DueIsIdeal(source, whole, size, from);
      var due := Due(source, size, from);
      IdealDelivers(whole, size, from, n);
      assert due[..n] == Ideal(whole, size, from)[..n];
    }
  }

  lemma {:induction false} DueIsIdeal(source: seq<byte>, whole: seq<byte>, size: nat, from: nat)
    requires size > 0 && from < |whole| && source <= whole
    ensures Due(source, size, from) < Ideal(whole, size, from)
    decreases |source| - from
  {
    if |source| >= from + 2 * size {
      var c := Chunk(from, source[from..from + size], false);
      DueIsIdeal(source, whole, size, from + size);
      IdealStep(whole, size, from);
      assert c.bytes == whole[from..from + size];
      PrefixWithHead(c, Due(source, size, from + size), Ideal(whole, size, from + size));
    }
  }

  lemma PrefixWithHead(c: Chunk, a: seq<Chunk>, b: seq<Chunk>)
    requires a < b
    ensures [c] + a < [c] + b
  {
  }

  /** A caller that resumes after every failure: the total once a run succeeds, and all chunks accepted. */
  function Chain(attempts: seq<Attempt>, size: nat, from: nat): (Option<nat>, seq<Chunk>) {
    if attempts == [] then (None, [])
    else
      var o := Run(attempts[0].source, attempts[0].breaks, size, from, attempts[0].answers);
      if o.result.Ok? then (Some(o.result.value), o.sent)
      else
        var (total, sent) := Chain(attempts[1..], size, ResumePoint(o.sent, from));
        (total, o.sent + sent)
  }

  /** However often the upload is interrupted and wherever, the accepted chunks are those of one
      uninterrupted upload: no byte twice, no byte missed, same boundaries. */
  lemma {:induction false} ChainIsOneUpload(attempts: seq<Attempt>, whole: seq<byte>, size: nat, from: nat)
    requires size > 0 && from < |whole|
    requires forall a :: a in attempts ==> a.Reads(whole)
    ensures var (total, sent) := Chain(attempts, size, from);
            && (total.Some? ==> total.value == |whole| && sent == Ideal(whole, size, from))
            && (total.None? ==> sent < Ideal(whole, size, from))
    decreases attempts
  {
    if attempts != [] {
      var a := attempts[0];
      RunSendsThePlan(a, whole, size, from);
      var o := Run(a.source, a.breaks, size, from, a.answers);
      if o.result.Err? {
        var at := ResumePoint(o.sent, from);
        ChainIsOneUpload(attempts[1..], whole, size, at);
        DeliversIdeal(o.sent, whole, size, from, at);
      }
    } else {
      assert Ideal(whole, size, from) != [];
    }
  }
}
