/**
 * pkg/logforward Forward: a scanner goroutine offers lines to a bounded channel while one loop
 * receives, ticks, notices cancellation and drains, sending lines in batches.
 */
module LogForward {
  import opened Wrappers
  import opened Utf8
  import opened LineSplitter

  type Line = Bytes
  type Filter = Line -> Option<Line>

  const DEFAULT_BATCH_SIZE := 50
  const DEFAULT_MAX_FORWARD_LINE_BYTES := 60 * 1024

  const MILLISECOND := 1_000_000
  const DEFAULT_BATCH_TIMEOUT := 500 * MILLISECOND
  const DEFAULT_SCANNER_BUFFER_BYTES := 64 * 1024
  const DEFAULT_MAX_SCAN_TOKEN_BYTES := 16 * 1024 * 1024

  /** The options; a missing filter keeps every line as it is. */
  datatype Options = Options(
    batchSize: int,
    batchTimeout: int,
    scannerBufferBytes: int,
    maxScanTokenBytes: int,
    maxForwardLineBytes: int,
    filterLine: Option<Filter>)

  predicate Normal(opts: Options) {
    opts.batchSize > 0 && opts.maxForwardLineBytes > 0
  }

  function OrDefault(value: int, default: int): int {
    if value <= 0 then default else value
  }

  /**
   * Zero and negative options mean the defaults, set ones are left alone, and the scanner starts
   * with no larger a buffer than it may grow to.
   */
  function NormalizeOptions(opts: Options): (r: Options)
    ensures Normal(r) && r.batchTimeout > 0 && 0 < r.scannerBufferBytes <= r.maxScanTokenBytes
    ensures r.filterLine == opts.filterLine
    ensures r.batchSize == if opts.batchSize > 0 then opts.batchSize else 50
    ensures r.batchTimeout == if opts.batchTimeout > 0 then opts.batchTimeout else 500 * MILLISECOND
    ensures r.maxScanTokenBytes == if opts.maxScanTokenBytes > 0 then opts.maxScanTokenBytes else 16 * 1024 * 1024
    ensures r.maxForwardLineBytes == if opts.maxForwardLineBytes > 0 then opts.maxForwardLineBytes else 60 * 1024
    ensures var buffer := if opts.scannerBufferBytes > 0 then opts.scannerBufferBytes else 64 * 1024;
            r.scannerBufferBytes == if buffer > r.maxScanTokenBytes then r.maxScanTokenBytes else buffer
  {
    var token := OrDefault(opts.maxScanTokenBytes, DEFAULT_MAX_SCAN_TOKEN_BYTES);
    var buffer := OrDefault(opts.scannerBufferBytes, DEFAULT_SCANNER_BUFFER_BYTES);
    opts.(batchSize := OrDefault(opts.batchSize, DEFAULT_BATCH_SIZE),
          batchTimeout := OrDefault(opts.batchTimeout, DEFAULT_BATCH_TIMEOUT),
          scannerBufferBytes := if buffer > token then token else buffer,
          maxScanTokenBytes := token,
          maxForwardLineBytes := OrDefault(opts.maxForwardLineBytes, DEFAULT_MAX_FORWARD_LINE_BYTES))
  }

  /** What one scanned line contributes to the output: the whole line is filtered, then split. */
  function ExpandLine(opts: Options, line: Line): seq<Line> {
    match opts.filterLine
    case None => Chunks(line, opts.maxForwardLineBytes)
    case Some(filter) =>
      match filter(line)
      case None => []
      case Some(kept) => Chunks(kept, opts.maxForwardLineBytes)
  }

  function Expand(opts: Options, lines: seq<Line>): seq<Line> {
    if lines == [] then [] else ExpandLine(opts, lines[0]) + Expand(opts, lines[1..])
  }

  /** What the filter makes of the lines, in order: a line it drops leaves nothing. */
  function Kept(filter: Option<Filter>, lines: seq<Line>): seq<Line> {
    if lines == [] then []
    else if filter.None? then [lines[0]] + Kept(filter, lines[1..])
    else if filter.value(lines[0]).None? then Kept(filter, lines[1..])
    else [filter.value(lines[0]).value] + Kept(filter, lines[1..])
  }

  /** One list of pieces for each text: they join to it and none is over the limit. */
  ghost predicate CutFrom(pieces: seq<seq<Line>>, texts: seq<Line>, limit: int) {
    |pieces| == |texts| && forall i :: 0 <= i < |texts| ==> Cuts(pieces[i], texts[i], limit)
  }

  ghost predicate Cuts(pieces: seq<Line>, text: Line, limit: int) {
    Concat(pieces) == text && (0 < limit ==> forall i :: 0 <= i < |pieces| ==> |pieces[i]| <= limit)
  }

  /** Batches already sent, and the batch being filled. */
  datatype Batches = Batches(sent: seq<seq<Line>>, batch: seq<Line>) {
    function All(): seq<Line> {
      Flatten(sent) + batch
    }

    ghost predicate Sized(batchSize: int) {
      |batch| < batchSize && forall b :: b in sent ==> 1 <= |b| <= batchSize
    }

    function PushChunk(batchSize: int, chunk: Line): Batches {
      var filled := batch + [chunk];
      if |filled| >= batchSize then Batches(sent + [filled], []) else Batches(sent, filled)
    }

    function PushChunks(batchSize: int, chunks: seq<Line>): Batches
      decreases |chunks|
    {
      if chunks == [] then this else PushChunk(batchSize, chunks[0]).PushChunks(batchSize, chunks[1..])
    }

    function Flushed(): Batches {
      if batch == [] then this else Batches(sent + [batch], [])
    }
  }

  function Flatten(batches: seq<seq<Line>>): seq<Line> {
    if batches == [] then [] else batches[0] + Flatten(batches[1..])
  }

  lemma {:induction false} FlattenAppend(batches: seq<seq<Line>>, last: seq<Line>)
    ensures Flatten(batches + [last]) == Flatten(batches) + last
  {
    if batches == [] {
      assert batches + [last] == [last] && Flatten([last][1..]) == [];
    } else {
      assert (batches + [last])[1..] == batches[1..] + [last];
      FlattenAppend(batches[1..], last);
    }
  }

  lemma {:induction false} ExpandAppend(opts: Options, lines: seq<Line>, last: Line)
    ensures Expand(opts, lines + [last]) == Expand(opts, lines) + ExpandLine(opts, last)
  {
    if lines == [] {
      assert lines + [last] == [last] && Expand(opts, [last][1..]) == [];
    } else {
      assert (lines + [last])[1..] == lines[1..] + [last];
      ExpandAppend(opts, lines[1..], last);
    }
  }

  lemma PushChunkKeeps(b: Batches, batchSize: int, chunk: Line)
    requires b.Sized(batchSize)
    ensures var r := b.PushChunk(batchSize, chunk);
            && r.Sized(batchSize) && r.All() == b.All() + [chunk] && b.sent <= r.sent
            && forall i :: |b.sent| <= i < |r.sent| ==> |r.sent[i]| == batchSize
  {
    FlattenAppend(b.sent, b.batch + [chunk]);
  }

  /** Batching keeps the text and its order, and only full batches leave while appending. */
  lemma {:induction false} PushChunksKeeps(b: Batches, batchSize: int, chunks: seq<Line>)
    requires b.Sized(batchSize)
    ensures var r := b.PushChunks(batchSize, chunks);
            && r.Sized(batchSize)
            && r.All() == b.All() + chunks
            && b.sent <= r.sent
            && forall i :: |b.sent| <= i < |r.sent| ==> |r.sent[i]| == batchSize
    decreases |chunks|
  {
    if chunks != [] {
      var next := b.PushChunk(batchSize, chunks[0]);
      PushChunkKeeps(b, batchSize, chunks[0]);
      PushChunksKeeps(next, batchSize, chunks[1..]);
      assert [chunks[0]] + chunks[1..] == chunks;
    }
  }

  lemma FlushedKeeps(b: Batches, batchSize: int)
    requires b.Sized(batchSize)
    ensures b.Flushed().Sized(batchSize) && b.Flushed().All() == b.All() && b.Flushed().batch == []
  {
    FlattenAppend(b.sent, b.batch);
  }

  lemma {:induction false} PushStep(b: Batches, batchSize: int, chunks: seq<Line>, i: nat)
    requires i < |chunks|
    ensures b.PushChunks(batchSize, chunks[i..])
         == b.PushChunk(batchSize, chunks[i]).PushChunks(batchSize, chunks[i + 1..])
  {
    assert chunks[i..][1..] == chunks[i + 1..];
  }

  lemma {:induction false} PushChunksAdds(b: Batches, batchSize: int, chunks: seq<Line>)
    ensures b.PushChunks(batchSize, chunks).All() == b.All() + chunks
    decreases |chunks|
  {
    if chunks != [] {
      FlattenAppend(b.sent, b.batch + [chunks[0]]);
      PushChunksAdds(b.PushChunk(batchSize, chunks[0]), batchSize, chunks[1..]);
      assert [chunks[0]] + chunks[1..] == chunks;
    }
  }

  lemma {:induction false} ChunksCut(text: Line, limit: int)
    ensures Cuts(Chunks(text, limit), text, limit)
  {
    ChunksConcat(text, limit);
    forall i | 0 <= i < |Chunks(text, limit)| && 0 < limit ensures |Chunks(text, limit)[i]| <= limit {
      ChunksBounded(text, limit, i);
    }
  }

  /** `after` holds what `before` held and then pieces that join to the text. */
  ghost predicate Adds(before: Batches, after: Batches, text: Line, limit: int) {
    before.All() <= after.All() && Cuts(after.All()[|before.All()|..], text, limit)
  }

  lemma {:induction false} PushAddsText(b: Batches, batchSize: int, text: Line, limit: int)
    ensures Adds(b, b.PushChunks(batchSize, Chunks(text, limit)), text, limit)
  {
    PushChunksAdds(b, batchSize, Chunks(text, limit));
    ChunksCut(text, limit);
    assert (b.All() + Chunks(text, limit))[|b.All()|..] == Chunks(text, limit);
  }

  /** The variables the closures of Forward capture: the sender's history and the open batch. */
  class Batcher {
    const opts: Options
    var sent: seq<seq<Line>>
    var batch: seq<Line>

    ghost function Contents(): Batches
      reads this
    {
      Batches(sent, batch)
    }

    constructor (opts: Options)
      ensures this.opts == NormalizeOptions(opts) && Contents() == Batches([], [])
    {
      this.opts := NormalizeOptions(opts);
      sent, batch := [], [];
    }

    /** A dropped line leaves everything as it was; any other adds what the filter made of it. */
    method AppendLine(line: Line)
      modifies this
      ensures opts.filterLine.Some? && opts.filterLine.value(line).None? ==> Contents() == old(Contents())
      ensures opts.filterLine.Some? && opts.filterLine.value(line).Some? ==>
                Adds(old(Contents()), Contents(), opts.filterLine.value(line).value, opts.maxForwardLineBytes)
      ensures opts.filterLine.None? ==> Adds(old(Contents()), Contents(), line, opts.maxForwardLineBytes)
      ensures Contents() == old(Contents()).PushChunks(opts.batchSize, ExpandLine(opts, line))
    {
      var kept := line;
      if opts.filterLine.Some? {
        var filtered := opts.filterLine.value(line);
        if filtered.None? {
          return;
        }
        kept := filtered.value;
      }
      var chunks := SplitLine(kept, opts.maxForwardLineBytes);
      PushAddsText(Contents(), opts.batchSize, kept, opts.maxForwardLineBytes);
      for i := 0 to |chunks|
        invariant Contents().PushChunks(opts.batchSize, chunks[i..])
               == old(Contents()).PushChunks(opts.batchSize, chunks)
      {
        PushStep(Contents(), opts.batchSize, chunks, i);
        batch := batch + [chunks[i]];
        if |batch| >= opts.batchSize {
          sent := sent + [batch];
          batch := [];
        }
      }
    }

    method Flush()
      modifies this
      ensures Contents() == old(Contents()).Flushed()
    {
      if |batch| == 0 {
        return;
      }
      sent := sent + [batch];
      batch := [];
    }
  }

  /** The scanner goroutine: reading, blocked offering a line, or returned with the channel closed. */
  datatype Scanner = Scanning | Offering(line: Line) | Stopped(dropped: Option<Line>)

  datatype Mode = Receiving | Draining | Returned

  /**
   * `unread` is what the scanner would still produce before end of input or a read error;
   * `received` records the lines the loop has taken out of the channel.
   */
  datatype State = State(
    unread: seq<Line>,
    scanner: Scanner,
    queue: seq<Line>,
    cancelled: bool,
    mode: Mode,
    out: Batches,
    received: seq<Line>,
    errorReported: bool)

  datatype Action =
    | ScanToken | Push | Abandon | ScanEnd
    | Cancel
    | Receive | ReceiveClosed | Tick | NoticeCancel | DrainReceive | DrainEnd

  function Initial(input: seq<Line>): State {
    State(input, Scanning, [], false, Receiving, Batches([], []), [], false)
  }

  function Held(scanner: Scanner): seq<Line> {
    match scanner
    case Scanning => []
    case Offering(line) => [line]
    case Stopped(dropped) => if dropped.Some? then [dropped.value] else []
  }

  function Take(opts: Options, s: State): State
    requires s.queue != []
  {
    s.(queue := s.queue[1..],
       received := s.received + [s.queue[0]],
       out := s.out.PushChunks(opts.batchSize, ExpandLine(opts, s.queue[0])))
  }

  predicate Enabled(opts: Options, s: State, a: Action) {
    match a
    case ScanToken => s.scanner.Scanning? && s.unread != []
    case Push => s.scanner.Offering? && |s.queue| < opts.batchSize * 2
    case Abandon => s.scanner.Offering? && s.cancelled
    case ScanEnd => s.scanner.Scanning? && s.unread == []
    case Cancel => !s.cancelled
    case Receive => s.mode.Receiving? && s.queue != []
    case ReceiveClosed => s.mode.Receiving? && s.queue == [] && s.scanner.Stopped?
    case Tick => s.mode.Receiving?
    case NoticeCancel => s.mode.Receiving? && s.cancelled
    case DrainReceive => s.mode.Draining? && s.queue != []
    case DrainEnd => s.mode.Draining? && s.queue == []
  }

  /** One atomic step; `readError` says whether the scanner stops on an error rather than at the end. */
  function Next(opts: Options, readError: bool, s: State, a: Action): State
    requires Enabled(opts, s, a)
  {
    match a
    case ScanToken => s.(scanner := Offering(s.unread[0]), unread := s.unread[1..])
    case Push => s.(scanner := Scanning, queue := s.queue + [s.scanner.line])
    case Abandon => s.(scanner := Stopped(Some(s.scanner.line)))
    case ScanEnd => s.(scanner := Stopped(None), errorReported := readError && !s.cancelled)
    case Cancel => s.(cancelled := true)
    case Receive => Take(opts, s)
    case ReceiveClosed => s.(out := s.out.Flushed(), mode := Returned)
    case Tick => s.(out := s.out.Flushed())
    case NoticeCancel => s.(mode := Draining)
    case DrainReceive => Take(opts, s)
    case DrainEnd => s.(out := s.out.Flushed(), mode := Returned)
  }

  /** Every line, wherever it is: received, queued, held by the scanner, or not yet read. */
  function Stream(s: State): seq<Line> {
    s.received + (s.queue + (Held(s.scanner) + s.unread))
  }

  ghost predicate OutputKept(opts: Options, s: State) {
    s.out.Sized(opts.batchSize) && s.out.All() == Expand(opts, s.received)
  }

  ghost predicate ControlKept(opts: Options, readError: bool, s: State) {
    && |s.queue| <= opts.batchSize * 2
    && (s.scanner.Stopped? ==> if s.scanner.dropped.Some? then s.cancelled else s.unread == [])
    && (s.mode.Draining? ==> s.cancelled)
    && (s.mode.Returned? ==> s.out.batch == [])
    && (s.mode.Returned? && !s.cancelled ==> s.scanner.Stopped? && s.queue == [])
    && (s.scanner.Stopped? && !s.cancelled ==> s.errorReported == readError)
  }

  ghost predicate Invariant(opts: Options, readError: bool, input: seq<Line>, s: State) {
    Stream(s) == input && OutputKept(opts, s) && ControlKept(opts, readError, s)
  }

  lemma Regroup(a: seq<Line>, x: Line, b: seq<Line>)
    ensures a + ([x] + b) == (a + [x]) + b
  {
  }

  lemma StreamKept(opts: Options, readError: bool, s: State, a: Action)
    requires Enabled(opts, s, a)
    ensures Stream(Next(opts, readError, s, a)) == Stream(s)
  {
    match a
    case ScanToken =>
      assert [s.unread[0]] + s.unread[1..] == s.unread;
    case Push =>
      Regroup(s.queue, s.scanner.line, s.unread);
    case Receive =>
      TakeStream(opts, s);
    case DrainReceive =>
      TakeStream(opts, s);
    case _ =>
  }

  lemma TakeStream(opts: Options, s: State)
    requires s.queue != []
    ensures Stream(Take(opts, s)) == Stream(s)
    ensures s.received + s.queue == Take(opts, s).received + Take(opts, s).queue
  {
    var rest := Held(s.scanner) + s.unread;
    Regroup(s.received, s.queue[0], s.queue[1..] + rest);
    Regroup(s.received, s.queue[0], s.queue[1..]);
    assert s.queue == [s.queue[0]] + s.queue[1..];
    assert s.queue + rest == [s.queue[0]] + (s.queue[1..] + rest);
  }

  lemma TakeOutput(opts: Options, s: State)
    requires OutputKept(opts, s) && s.queue != []
    ensures OutputKept(opts, Take(opts, s))
  {
    ExpandAppend(opts, s.received, s.queue[0]);
    PushChunksKeeps(s.out, opts.batchSize, ExpandLine(opts, s.queue[0]));
  }

  lemma StepKeeps(opts: Options, readError: bool, input: seq<Line>, s: State, a: Action)
    requires Normal(opts) && Invariant(opts, readError, input, s) && Enabled(opts, s, a)
    ensures Invariant(opts, readError, input, Next(opts, readError, s, a))
  {
    StreamKept(opts, readError, s, a);
    match a
    case Receive => TakeOutput(opts, s);
    case DrainReceive => TakeOutput(opts, s);
    case ReceiveClosed => FlushedKeeps(s.out, opts.batchSize);
    case Tick => FlushedKeeps(s.out, opts.batchSize);
    case DrainEnd => FlushedKeeps(s.out, opts.batchSize);
    case _ =>
  }

  /** `actions` is a schedule of the goroutines and the environment that can happen from `s`. */
  predicate Runs(opts: Options, readError: bool, s: State, actions: seq<Action>)
    decreases |actions|
  {
    actions == [] ||
    (Enabled(opts, s, actions[0]) && Runs(opts, readError, Next(opts, readError, s, actions[0]), actions[1..]))
  }

  function Final(opts: Options, readError: bool, s: State, actions: seq<Action>): State
    requires Runs(opts, readError, s, actions)
    decreases |actions|
  {
    if actions == [] then s else Final(opts, readError, Next(opts, readError, s, actions[0]), actions[1..])
  }

  lemma {:induction false} RunKeeps(opts: Options, readError: bool, input: seq<Line>, s: State, actions: seq<Action>)
    requires Normal(opts) && Invariant(opts, readError, input, s) && Runs(opts, readError, s, actions)
    ensures Invariant(opts, readError, input, Final(opts, readError, s, actions))
    decreases |actions|
  {
    if actions != [] {
      StepKeeps(opts, readError, input, s, actions[0]);
      RunKeeps(opts, readError, input, Next(opts, readError, s, actions[0]), actions[1..]);
    }
  }

  /**
   * Conservation over every interleaving: sent text plus the open batch is the expansion of
   * exactly the lines received, which are a prefix of the input, in order.
   */
  lemma {:induction false} EveryInterleavingConserves(
      opts: Options, readError: bool, input: seq<Line>, actions: seq<Action>)
    requires Normal(opts) && Runs(opts, readError, Initial(input), actions)
    ensures var t := Final(opts, readError, Initial(input), actions);
            && t.out.All() == Expand(opts, t.received)
            && t.received <= input
            && |t.out.batch| < opts.batchSize
            && forall b :: b in t.out.sent ==> 1 <= |b| <= opts.batchSize
  {
    RunKeeps(opts, readError, input, Initial(input), actions);
  }

  /**
   * A finished run that was not cancelled has sent everything, has closed the channel, and has
   * told the error handler exactly when the reader failed. So all such runs send the same text.
   */
  lemma {:induction false} UncancelledRunSendsAll(
      opts: Options, readError: bool, input: seq<Line>, actions: seq<Action>)
    requires Normal(opts) && Runs(opts, readError, Initial(input), actions)
    requires var t := Final(opts, readError, Initial(input), actions); t.mode.Returned? && !t.cancelled
    ensures var t := Final(opts, readError, Initial(input), actions);
            && Flatten(t.out.sent) == Expand(opts, input)
            && t.scanner.Stopped?
            && t.errorReported == readError
  {
    RunKeeps(opts, readError, input, Initial(input), actions);
    var t := Final(opts, readError, Initial(input), actions);
    assert t.received == input;
    assert t.out.All() == Flatten(t.out.sent);
  }

  /** No step takes a line out of the queue but to receive it. */
  lemma QueuedStays(opts: Options, readError: bool, s: State, a: Action)
    requires Enabled(opts, s, a)
    ensures var next := Next(opts, readError, s, a); s.received + s.queue <= next.received + next.queue
  {
    if a == Receive || a == DrainReceive {
      TakeStream(opts, s);
    }
  }

  /**
   * A finished run, cancelled or not, has sent the expansion of a whole-line prefix of the input,
   * and that prefix includes every line that was received or queued at any earlier moment `s`
   * before the loop returned: draining after cancellation loses no queued line.
   */
  lemma {:induction false} FinishedRunSendsQueued(
      opts: Options, readError: bool, input: seq<Line>, s: State, actions: seq<Action>)
    requires Normal(opts) && Invariant(opts, readError, input, s) && Runs(opts, readError, s, actions)
    requires !s.mode.Returned? && Final(opts, readError, s, actions).mode.Returned?
    ensures var t := Final(opts, readError, s, actions);
            && s.received + s.queue <= t.received <= input
            && Flatten(t.out.sent) == Expand(opts, t.received)
    decreases |actions|
  {
    var next := Next(opts, readError, s, actions[0]);
    StepKeeps(opts, readError, input, s, actions[0]);
    QueuedStays(opts, readError, s, actions[0]);
    if next.mode.Returned? {
      assert next.queue == [] && next.received + [] == next.received;
      ReturnedStaysPut(opts, readError, input, next, actions[1..]);
    } else {
      FinishedRunSendsQueued(opts, readError, input, next, actions[1..]);
    }
  }

  /** Once the loop has returned nothing more is received or sent, whatever the scanner does. */
  lemma {:induction false} ReturnedStaysPut(
      opts: Options, readError: bool, input: seq<Line>, s: State, actions: seq<Action>)
    requires Normal(opts) && Invariant(opts, readError, input, s) && s.mode.Returned?
    requires Runs(opts, readError, s, actions)
    ensures var t := Final(opts, readError, s, actions);
            && t.mode.Returned? && t.received == s.received && t.out == s.out
            && t.received <= input && Flatten(t.out.sent) == Expand(opts, t.received)
    decreases |actions|
  {
    if actions == [] {
      assert s.out.All() == Flatten(s.out.sent);
    } else {
      StepKeeps(opts, readError, input, s, actions[0]);
      ReturnedStaysPut(opts, readError, input, Next(opts, readError, s, actions[0]), actions[1..]);
    }
  }

  // ----- What has been sent, in terms of the filter alone.

  function Pieces(texts: seq<Line>, limit: int): (pieces: seq<seq<Line>>)
    ensures |pieces| == |texts| && forall i :: 0 <= i < |texts| ==> pieces[i] == Chunks(texts[i], limit)
  {
    if texts == [] then [] else [Chunks(texts[0], limit)] + Pieces(texts[1..], limit)
  }

  lemma {:induction false} PiecesCut(texts: seq<Line>, limit: int)
    ensures CutFrom(Pieces(texts, limit), texts, limit)
  {
    forall i | 0 <= i < |texts| ensures Cuts(Pieces(texts, limit)[i], texts[i], limit) {
      ChunksCut(texts[i], limit);
    }
  }

  lemma {:induction false} ExpandIsPieces(opts: Options, lines: seq<Line>)
    ensures Flatten(Pieces(Kept(opts.filterLine, lines), opts.maxForwardLineBytes)) == Expand(opts, lines)
  {
    if lines != [] {
      ExpandIsPieces(opts, lines[1..]);
      var rest := Kept(opts.filterLine, lines[1..]);
      var text := if opts.filterLine.None? then Some(lines[0]) else opts.filterLine.value(lines[0]);
      if text.Some? {
        assert ([text.value] + rest)[1..] == rest;
      }
    }
  }

  lemma {:induction false} ConcatAppend(a: seq<Line>, b: seq<Line>)
    ensures Concat(a + b) == Concat(a) + Concat(b)
  {
    if a == [] {
      assert a + b == b;
    } else {
      assert (a + b)[1..] == a[1..] + b;
      ConcatAppend(a[1..], b);
    }
  }

  lemma {:induction false} CutsConcat(pieces: seq<seq<Line>>, texts: seq<Line>, limit: int)
    requires CutFrom(pieces, texts, limit)
    ensures Concat(Flatten(pieces)) == Concat(texts)
    decreases |pieces|
  {
    if pieces != [] {
      assert Cuts(pieces[0], texts[0], limit);
      CutsConcat(pieces[1..], texts[1..], limit);
      ConcatAppend(pieces[0], Flatten(pieces[1..]));
    }
  }

  /**
   * A finished run has sent, in order, pieces of exactly the lines the filter keeps of those
   * received, each cut from one line; without cancellation every line of the input was received.
   */
  lemma {:induction false} FinishedRunSendsKept(
      opts: Options, readError: bool, input: seq<Line>, actions: seq<Action>)
      returns (pieces: seq<seq<Line>>)
    requires Normal(opts) && Runs(opts, readError, Initial(input), actions)
    requires Final(opts, readError, Initial(input), actions).mode.Returned?
    ensures var t := Final(opts, readError, Initial(input), actions);
            && t.received <= input && (!t.cancelled ==> t.received == input)
            && Flatten(t.out.sent) == Flatten(pieces)
            && CutFrom(pieces, Kept(opts.filterLine, t.received), opts.maxForwardLineBytes)
            && Concat(Flatten(t.out.sent)) == Concat(Kept(opts.filterLine, t.received))
  {
    RunKeeps(opts, readError, input, Initial(input), actions);
    var t := Final(opts, readError, Initial(input), actions);
    assert t.out.All() == Flatten(t.out.sent);
    assert !t.cancelled ==> Stream(t) == t.received;
    ExpandIsPieces(opts, t.received);
    pieces := Pieces(Kept(opts.filterLine, t.received), opts.maxForwardLineBytes);
    PiecesCut(Kept(opts.filterLine, t.received), opts.maxForwardLineBytes);
    CutsConcat(pieces, Kept(opts.filterLine, t.received), opts.maxForwardLineBytes);
  }

  /** After a tick nothing that was received is left unsent. */
  lemma {:induction false} TickSendsReceived(opts: Options, readError: bool, input: seq<Line>, s: State)
    requires Normal(opts) && Invariant(opts, readError, input, s) && s.mode.Receiving?
    ensures var next := Next(opts, readError, s, Tick);
            next.out.batch == [] && Flatten(next.out.sent) == Expand(opts, next.received)
            && next.received == s.received && next.mode.Receiving?
  {
    FlushedKeeps(s.out, opts.batchSize);
    assert s.out.Flushed().All() == Flatten(s.out.Flushed().sent);
  }

  /** The scanner waits with a line in hand exactly when the channel holds two batches. */
  lemma ScannerWaitsIff(opts: Options, readError: bool, input: seq<Line>, s: State)
    requires Normal(opts) && Invariant(opts, readError, input, s) && s.scanner.Offering?
    ensures Enabled(opts, s, Push) <==> |s.queue| != 2 * opts.batchSize
  {
  }

  /** Once cancelled, the reader's error is no longer reported. */
  lemma {:induction false} CancelledStaysQuiet(opts: Options, readError: bool, s: State, actions: seq<Action>)
    requires s.cancelled && Runs(opts, readError, s, actions)
    ensures Final(opts, readError, s, actions).errorReported ==> s.errorReported
    decreases |actions|
  {
    if actions != [] {
      CancelledStaysQuiet(opts, readError, Next(opts, readError, s, actions[0]), actions[1..]);
    }
  }

  /** Work left: every step except a tick uses some of it up. */
  function Work(s: State): nat {
    4 * |s.unread|
    + (match s.scanner case Scanning => 1 case Offering(_) => 4 case Stopped(_) => 0)
    + 2 * |s.queue|
    + (if s.cancelled then 0 else 1)
    + (match s.mode case Receiving => 2 case Draining => 1 case Returned => 0)
  }

  function Moves(actions: seq<Action>): nat {
    if actions == [] then 0 else (if actions[0].Tick? then 0 else 1) + Moves(actions[1..])
  }

  /** No schedule goes on for ever: apart from ticks, a run has at most 4 steps a line and 4 more. */
  lemma {:induction false} RunsAreBounded(opts: Options, readError: bool, s: State, actions: seq<Action>)
    requires Runs(opts, readError, s, actions)
    ensures Moves(actions) + Work(Final(opts, readError, s, actions)) <= Work(s)
    decreases |actions|
  {
    if actions != [] {
      RunsAreBounded(opts, readError, Next(opts, readError, s, actions[0]), actions[1..]);
    }
  }

  /** And none gets stuck: until the loop returns, one of the two goroutines can move. */
  lemma NeverStuck(opts: Options, readError: bool, input: seq<Line>, s: State)
    requires Normal(opts) && Invariant(opts, readError, input, s) && !s.mode.Returned?
    ensures exists a :: Enabled(opts, s, a) && !a.Tick? && !a.Cancel?
  {
    var a := if s.mode.Draining? then (if s.queue != [] then DrainReceive else DrainEnd)
             else if s.queue != [] then Receive
             else match s.scanner
                  case Stopped(_) => ReceiveClosed
                  case Offering(_) => Push
                  case Scanning => if s.unread != [] then ScanToken else ScanEnd;
    assert Enabled(opts, s, a);
  }

  /** The scanner outlives the loop only for a moment: after the return it can still get to its end. */
  lemma ScannerCanFinish(opts: Options, readError: bool, input: seq<Line>, s: State)
    requires Invariant(opts, readError, input, s) && s.mode.Returned? && !s.scanner.Stopped?
    ensures exists a :: Enabled(opts, s, a) && (a.ScanToken? || a.Push? || a.Abandon? || a.ScanEnd?)
  {
    var a := match s.scanner
             case Offering(_) => Abandon
             case _ => if s.unread != [] then ScanToken else ScanEnd;
    assert Enabled(opts, s, a);
  }
}
