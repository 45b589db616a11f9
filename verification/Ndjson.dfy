/** The incremental line splitter of the block fetcher (crates/sqd-fetcher). */
module Ndjson {
  import opened Types
  import opened Blocks
  import opened Text

  const NEWLINE: Byte := 10

  datatype FetchError =
    | InvalidUtf8
    | JsonArray
    | BadBlock(line: string)
    | Http(message: string)
    | Refused(message: string)

  /** UTF-8 decoding and JSON parsing, as total functions. */
  datatype Wire = Wire(utf8: Bytes -> Option<string>, json: string -> Option<Block>)

  datatype Parsed = Nothing | Yield(block: Block) | Broken(error: FetchError)

  function ParseBlockLine(wire: Wire, line: string): Result<Block, FetchError> {
    if line != [] && line[0] == '[' then Err(JsonArray)
    else
      match wire.json(line)
      case Some(block) => Ok(block)
      case None => Err(BadBlock(line))
  }

  /** One line of the body: blank lines are passed over. */
  function ParseLine(wire: Wire, bytes: Bytes): Parsed {
    match wire.utf8(bytes)
    case None => Broken(InvalidUtf8)
    case Some(text) =>
      var line := Trim(text);
      if line == [] then Nothing
      else
        match ParseBlockLine(wire, line)
        case Ok(block) => Yield(block)
        case Err(e) => Broken(e)
  }

  /** A line yields a block exactly when it is text that, trimmed, is not blank, does not
      open an array and parses; it is passed over exactly when it is blank text. */
  lemma LineYieldsIff(wire: Wire, bytes: Bytes, block: Block)
    ensures ParseLine(wire, bytes) == Yield(block) <==>
      exists text :: wire.utf8(bytes) == Some(text) && Trim(text) != [] && Trim(text)[0] != '['
        && wire.json(Trim(text)) == Some(block)
    ensures ParseLine(wire, bytes) == Nothing <==> exists text :: wire.utf8(bytes) == Some(text) && Trim(text) == []
    ensures ParseLine(wire, bytes) == Broken(InvalidUtf8) <==> wire.utf8(bytes) == None
    ensures ParseLine(wire, bytes) == Broken(JsonArray) <==>
      exists text :: wire.utf8(bytes) == Some(text) && Trim(text) != [] && Trim(text)[0] == '['
  {
  }

  /** The blocks yielded, and the error that ended the stream, if any. */
  datatype Outcome = Outcome(blocks: seq<Block>, error: Option<FetchError>)

  function Next(wire: Wire, before: Outcome, line: Bytes): Outcome {
    if before.error.Some? then before
    else
      match ParseLine(wire, line)
      case Nothing => before
      case Yield(block) => before.(blocks := before.blocks + [block])
      case Broken(e) => before.(error := Some(e))
  }

  /** Parsing the lines of a whole body in order, up to the first bad one. */
  function ParseAll(wire: Wire, lines: seq<Bytes>): Outcome {
    if lines == [] then Outcome([], None)
    else Next(wire, ParseAll(wire, lines[..|lines| - 1]), lines[|lines| - 1])
  }

  // ---- splitting a whole body ----

  predicate OneLine(s: Bytes) {
    forall i :: 0 <= i < |s| ==> s[i] != NEWLINE
  }

  function Position(s: Bytes): (p: nat)
    ensures p <= |s| && OneLine(s[..p]) && (p < |s| ==> s[p] == NEWLINE)
  {
    if s == [] || s[0] == NEWLINE then 0 else 1 + Position(s[1..])
  }

  /** The pieces between newlines; the last one is what follows the last newline. */
  function Split(s: Bytes): (pieces: seq<Bytes>)
    ensures pieces != []
  {
    var p := Position(s);
    if p == |s| then [s] else [s[..p]] + Split(s[p + 1..])
  }

  function Join(pieces: seq<Bytes>): Bytes
    requires pieces != []
  {
    if |pieces| == 1 then pieces[0] else pieces[0] + [NEWLINE] + Join(pieces[1..])
  }

  predicate OneLineEach(pieces: seq<Bytes>) {
    forall i :: 0 <= i < |pieces| ==> OneLine(pieces[i])
  }

  lemma {:induction false} JoinSplit(s: Bytes)
    ensures Join(Split(s)) == s && OneLineEach(Split(s))
  {
    var p := Position(s);
    if p == |s| {
      assert s[..p] == s;
    } else {
      JoinSplit(s[p + 1..]);
      assert Split(s)[1..] == Split(s[p + 1..]);
      assert s == s[..p] + [NEWLINE] + s[p + 1..];
    }
  }

  lemma {:induction false} PositionIs(s: Bytes, p: nat)
    requires p <= |s| && OneLine(s[..p]) && (p < |s| ==> s[p] == NEWLINE)
    ensures Position(s) == p
  {
    if p > 0 {
      assert s[0] == s[..p][0];
      assert s[1..][..p - 1] == s[..p][1..];
      PositionIs(s[1..], p - 1);
    }
  }

  /** The only way to cut a body into lines. */
  lemma {:induction false} SplitJoin(pieces: seq<Bytes>)
    requires pieces != [] && OneLineEach(pieces)
    ensures Split(Join(pieces)) == pieces
  {
    var s := Join(pieces);
    if |pieces| == 1 {
      assert s[..|s|] == s;
      PositionIs(s, |s|);
    } else {
      var p, rest := |pieces[0]|, Join(pieces[1..]);
      assert s[..p] == pieces[0] && s[p] == NEWLINE && s[p + 1..] == rest;
      PositionIs(s, p);
      SplitJoin(pieces[1..]);
    }
  }

  lemma ConsInit<T>(x: T, rest: seq<T>, more: seq<T>)
    requires rest != []
    ensures ([x] + rest)[..|rest|] + more == [x] + (rest[..|rest| - 1] + more)
    ensures ([x] + rest)[|rest|] == rest[|rest| - 1]
  {
  }

  lemma PositionAppend(a: Bytes, b: Bytes)
    requires Position(a) < |a|
    ensures var p := Position(a);
      Position(a + b) == p && (a + b)[..p] == a[..p] && (a + b)[p + 1..] == a[p + 1..] + b
  {
    assert (a + b)[..Position(a)] == a[..Position(a)];
    PositionIs(a + b, Position(a));
  }

  /** More bytes only extend the last piece. */
  lemma {:induction false} SplitAppend(a: Bytes, b: Bytes)
    ensures var pieces := Split(a); var last := |pieces| - 1;
      Split(a + b) == pieces[..last] + Split(pieces[last] + b)
  {
    var p := Position(a);
    if p == |a| {
      NothingBefore(a, Split(a + b));
    } else {
      var rest := Split(a[p + 1..]);
      PositionAppend(a, b);
      SplitAppend(a[p + 1..], b);
      ConsInit(a[..p], rest, Split(rest[|rest| - 1] + b));
    }
  }

  lemma NothingBefore<T>(x: T, more: seq<T>)
    ensures [x][..0] + more == more
  {
  }

  /** The lines of a body: a last piece counts as a line unless it is empty. */
  function BodyLines(body: Bytes): seq<Bytes> {
    var pieces := Split(body);
    if pieces[|pieces| - 1] == [] then pieces[..|pieces| - 1] else pieces
  }

  // ---- a body that arrives in chunks ----

  type Chunk = Result<Bytes, string>

  /** The bytes before the first transport error, and that error. */
  function Received(chunks: seq<Chunk>): (Bytes, Option<string>) {
    if chunks == [] then ([], None)
    else
      var (bytes, error) := Received(chunks[..|chunks| - 1]);
      if error.Some? then (bytes, error)
      else
        match chunks[|chunks| - 1]
        case Ok(more) => (bytes + more, None)
        case Err(e) => (bytes, Some(e))
  }

  /** What reading a body yields, however it is cut into chunks. A transport error
      comes after all complete lines received before it. */
  function Read(wire: Wire, chunks: seq<Chunk>): Outcome {
    var (bytes, error) := Received(chunks);
    if error.None? then ParseAll(wire, BodyLines(bytes))
    else
      var pieces := Split(bytes);
      var outcome := ParseAll(wire, pieces[..|pieces| - 1]);
      if outcome.error.Some? then outcome else outcome.(error := Some(Http(error.value)))
  }

  /** The chunks `parts` arriving without a transport error. */
  function Delivered(parts: seq<Bytes>): seq<Chunk> {
    seq(|parts|, i requires 0 <= i < |parts| => Ok(parts[i]))
  }

  function Flatten(parts: seq<Bytes>): Bytes {
    if parts == [] then [] else parts[0] + Flatten(parts[1..])
  }

  lemma {:induction false} FlattenLast(parts: seq<Bytes>)
    requires parts != []
    ensures Flatten(parts) == Flatten(parts[..|parts| - 1]) + parts[|parts| - 1]
  {
    if |parts| > 1 {
      FlattenLast(parts[1..]);
      assert parts[1..][..|parts| - 2] == parts[..|parts| - 1][1..];
      assert parts[..|parts| - 1][0] == parts[0];
    }
  }

  lemma {:induction false} DeliveredBytes(parts: seq<Bytes>)
    ensures Received(Delivered(parts)) == (Flatten(parts), None)
  {
    if parts != [] {
      var n := |parts| - 1;
      DeliveredBytes(parts[..n]);
      FlattenLast(parts);
      assert Delivered(parts)[..n] == Delivered(parts[..n]);
    }
  }

  /** A transport error after `parts`; what would come later does not matter. */
  lemma {:induction false} ReceivedCut(parts: seq<Bytes>, message: string, rest: seq<Chunk>)
    ensures Received(Delivered(parts) + [Err(message)] + rest) == (Flatten(parts), Some(message))
  {
    var chunks := Delivered(parts) + [Err(message)] + rest;
    var n := |chunks| - 1;
    if rest == [] {
      DeliveredBytes(parts);
      assert chunks[..n] == Delivered(parts) && chunks[n] == Err(message);
    } else {
      ReceivedCut(parts, message, rest[..|rest| - 1]);
      assert chunks[..n] == Delivered(parts) + [Err(message)] + rest[..|rest| - 1];
    }
  }

  /** A body of the given lines reads as those lines, wherever it is cut: within a line,
      at a newline, into empty chunks. */
  lemma ReadsLines(wire: Wire, lines: seq<Bytes>, parts: seq<Bytes>)
    requires lines != [] && OneLineEach(lines) && Flatten(parts) == Join(lines)
    ensures var n := |lines| - 1;
      Read(wire, Delivered(parts)) == ParseAll(wire, if lines[n] == [] then lines[..n] else lines)
  {
    DeliveredBytes(parts);
    SplitJoin(lines);
  }

  /** ...and one cut short by a transport error as its complete lines. */
  lemma ReadsCompleteLines(
    wire: Wire, lines: seq<Bytes>, parts: seq<Bytes>, message: string, rest: seq<Chunk>)
    requires lines != [] && OneLineEach(lines) && Flatten(parts) == Join(lines)
    ensures var complete := ParseAll(wire, lines[..|lines| - 1]);
      Read(wire, Delivered(parts) + [Err(message)] + rest) ==
        if complete.error.Some? then complete else complete.(error := Some(Http(message)))
  {
    ReceivedCut(parts, message, rest);
    SplitJoin(lines);
  }

  lemma {:induction false} ErrorEnds(wire: Wire, lines: seq<Bytes>, n: nat)
    requires n <= |lines| && ParseAll(wire, lines[..n]).error.Some?
    ensures ParseAll(wire, lines) == ParseAll(wire, lines[..n])
    decreases |lines|
  {
    if n == |lines| {
      assert lines[..n] == lines;
    } else {
      assert lines[..|lines| - 1][..n] == lines[..n];
      ErrorEnds(wire, lines[..|lines| - 1], n);
    }
  }

  /** The good lines of a body, one block each. */
  function Yielded(wire: Wire, lines: seq<Bytes>): seq<Block> {
    if lines == [] then []
    else
      var parsed := ParseLine(wire, lines[|lines| - 1]);
      Yielded(wire, lines[..|lines| - 1]) + (if parsed.Yield? then [parsed.block] else [])
  }

  predicate NoneBroken(wire: Wire, lines: seq<Bytes>) {
    forall i :: 0 <= i < |lines| ==> !ParseLine(wire, lines[i]).Broken?
  }

  /** Without a bad line, and only then, every non-blank line is yielded. */
  lemma {:induction false} AllLinesGood(wire: Wire, lines: seq<Bytes>)
    ensures ParseAll(wire, lines).error.None? <==> NoneBroken(wire, lines)
    ensures NoneBroken(wire, lines) ==> ParseAll(wire, lines).blocks == Yielded(wire, lines)
  {
    if lines != [] { AllLinesGood(wire, lines[..|lines| - 1]); }
  }

  /** The first bad line ends the stream: exactly the lines before it are yielded. */
  lemma FirstBadLine(wire: Wire, lines: seq<Bytes>, k: nat)
    requires k < |lines| && NoneBroken(wire, lines[..k]) && ParseLine(wire, lines[k]).Broken?
    ensures ParseAll(wire, lines) == Outcome(Yielded(wire, lines[..k]), Some(ParseLine(wire, lines[k]).error))
  {
    AllLinesGood(wire, lines[..k]);
    assert lines[..k + 1][..k] == lines[..k];
    ErrorEnds(wire, lines, k + 1);
  }

  // ---- the imperative reader ----

  /** Everything up to here is parsed: the lines `done`, and then `buffer`. */
  ghost predicate Reading(wire: Wire, body: Bytes, done: seq<Bytes>, buffer: Bytes, out: seq<Block>) {
    && Split(body) == done + Split(buffer)
    && ParseAll(wire, done) == Outcome(out, None)
  }

  lemma ReadMore(wire: Wire, body: Bytes, done: seq<Bytes>, buffer: Bytes, out: seq<Block>, more: Bytes)
    requires Reading(wire, body, done, buffer, out) && OneLine(buffer)
    ensures Reading(wire, body + more, done, buffer + more, out)
  {
    PositionIs(buffer, |buffer|);
    assert buffer[..|buffer|] == buffer;
    SplitAppend(body, more);
    assert Split(body) == done + [buffer];
    assert Split(body)[..|done|] == done;
  }

  lemma NextLine(wire: Wire, body: Bytes, done: seq<Bytes>, buffer: Bytes, out: seq<Block>)
    requires Reading(wire, body, done, buffer, out) && Position(buffer) < |buffer|
    ensures var p := Position(buffer);
      && Split(body) == (done + [buffer[..p]]) + Split(buffer[p + 1..])
      && ParseAll(wire, done + [buffer[..p]]) == Next(wire, Outcome(out, None), buffer[..p])
  {
    var p := Position(buffer);
    assert (done + [buffer[..p]])[..|done|] == done;
  }

  /** Takes complete lines off the buffer until a newline is no longer in it. */
  method DrainLines(wire: Wire, before: Bytes, yielded: seq<Block>, ghost body: Bytes, ghost parsed: seq<Bytes>)
    returns (buffer: Bytes, out: seq<Block>, error: Option<FetchError>, ghost done: seq<Bytes>)
    requires Reading(wire, body, parsed, before, yielded)
    ensures error.None? ==> OneLine(buffer) && Reading(wire, body, done, buffer, out)
    ensures error.Some? ==> Outcome(out, error) == ParseAll(wire, Split(body)[..|Split(body)| - 1])
  {
    buffer, out, done := before, yielded, parsed;
    while Position(buffer) < |buffer|
      invariant Reading(wire, body, done, buffer, out)
      decreases |buffer|
    {
      var newlinePos := Position(buffer);
      NextLine(wire, body, done, buffer, out);
      match ParseLine(wire, buffer[..newlinePos]) {
        case Nothing =>
        case Yield(block) => out := out + [block];
        case Broken(e) =>
          LineEndsBody(wire, body, done, buffer, newlinePos);
          return buffer, out, Some(e), done;
      }
      done := done + [buffer[..newlinePos]];
      buffer := buffer[newlinePos + 1..];
    }
    assert buffer[..|buffer|] == buffer;
    error := None;
  }

  /** A bad complete line settles the outcome, whatever follows it. */
  lemma LineEndsBody(wire: Wire, body: Bytes, done: seq<Bytes>, buffer: Bytes, p: nat)
    requires p < |buffer| && Split(body) == (done + [buffer[..p]]) + Split(buffer[p + 1..])
    requires ParseAll(wire, done + [buffer[..p]]).error.Some?
    ensures ParseAll(wire, Split(body)[..|Split(body)| - 1]) == ParseAll(wire, done + [buffer[..p]])
  {
    var lines := Split(body)[..|Split(body)| - 1];
    assert lines[..|done| + 1] == done + [buffer[..p]];
    ErrorEnds(wire, lines, |done| + 1);
  }

  function Complete(body: Bytes): seq<Bytes> {
    Split(body)[..|Split(body)| - 1]
  }

  lemma StopEarly(wire: Wire, a: Bytes, b: Bytes)
    requires ParseAll(wire, Complete(a)).error.Some?
    ensures ParseAll(wire, Complete(a + b)) == ParseAll(wire, Complete(a))
    ensures ParseAll(wire, BodyLines(a + b)) == ParseAll(wire, Complete(a))
  {
    SplitAppend(a, b);
    var n := |Complete(a)|;
    assert Complete(a + b)[..n] == Complete(a) && BodyLines(a + b)[..n] == Complete(a);
    ErrorEnds(wire, Complete(a + b), n);
    ErrorEnds(wire, BodyLines(a + b), n);
  }

  lemma {:induction false} ReceivedPrefix(chunks: seq<Chunk>, n: nat) returns (rest: Bytes)
    requires n <= |chunks| && Received(chunks[..n]).1.None?
    ensures Received(chunks).0 == Received(chunks[..n]).0 + rest
    decreases |chunks|
  {
    if n == |chunks| {
      assert chunks[..n] == chunks;
      rest := [];
    } else {
      assert chunks[..|chunks| - 1][..n] == chunks[..n];
      rest := ReceivedPrefix(chunks[..|chunks| - 1], n);
      var last := chunks[|chunks| - 1];
      if Received(chunks[..|chunks| - 1]).1.None? && last.Ok? { rest := rest + last.value; }
    }
  }

  lemma {:induction false} TransportErrorSticks(chunks: seq<Chunk>, n: nat)
    requires n <= |chunks| && Received(chunks[..n]).1.Some?
    ensures Received(chunks) == Received(chunks[..n])
    decreases |chunks|
  {
    if n == |chunks| {
      assert chunks[..n] == chunks;
    } else {
      assert chunks[..|chunks| - 1][..n] == chunks[..n];
      TransportErrorSticks(chunks[..|chunks| - 1], n);
    }
  }

  lemma ReceivedNext(chunks: seq<Chunk>, n: nat, body: Bytes)
    requires n < |chunks| && Received(chunks[..n]) == (body, None)
    ensures Received(chunks[..n + 1]) ==
      if chunks[n].Ok? then (body + chunks[n].value, None) else (body, Some(chunks[n].error))
  {
    assert chunks[..n + 1][..n] == chunks[..n];
  }

  /** A bad line in what has arrived so far settles the reading. */
  lemma StoppedReading(wire: Wire, chunks: seq<Chunk>, n: nat, body: Bytes)
    requires n <= |chunks| && Received(chunks[..n]) == (body, None) && ParseAll(wire, Complete(body)).error.Some?
    ensures Read(wire, chunks) == ParseAll(wire, Complete(body))
  {
    var rest := ReceivedPrefix(chunks, n);
    StopEarly(wire, body, rest);
  }

  lemma FailedReading(
    wire: Wire, chunks: seq<Chunk>, n: nat, body: Bytes, done: seq<Bytes>, buffer: Bytes, out: seq<Block>)
    requires n < |chunks| && chunks[n].Err? && Received(chunks[..n]) == (body, None)
    requires OneLine(buffer) && Reading(wire, body, done, buffer, out)
    ensures Read(wire, chunks) == Outcome(out, Some(Http(chunks[n].error)))
  {
    ReceivedNext(chunks, n, body);
    TransportErrorSticks(chunks, n + 1);
    LastPiece(wire, body, done, buffer, out);
  }

  lemma LastPiece(wire: Wire, body: Bytes, done: seq<Bytes>, buffer: Bytes, out: seq<Block>)
    requires OneLine(buffer) && Reading(wire, body, done, buffer, out)
    ensures Split(body) == done + [buffer] && Complete(body) == done
  {
    PositionIs(buffer, |buffer|);
    assert buffer[..|buffer|] == buffer;
  }

  lemma LastLine(wire: Wire, body: Bytes, done: seq<Bytes>, buffer: Bytes, out: seq<Block>)
    requires OneLine(buffer) && Reading(wire, body, done, buffer, out)
    ensures ParseAll(wire, BodyLines(body)) ==
      if buffer == [] then Outcome(out, None) else Next(wire, Outcome(out, None), buffer)
  {
    LastPiece(wire, body, done, buffer, out);
    assert (done + [buffer])[..|done|] == done;
  }

  /** The reader's state once `n` chunks have arrived and their lines are drained. */
  ghost predicate Drained(
    wire: Wire, chunks: seq<Chunk>, n: nat, body: Bytes, done: seq<Bytes>, buffer: Bytes, out: seq<Block>)
  {
    n <= |chunks| && Received(chunks[..n]) == (body, None) && OneLine(buffer) && Reading(wire, body, done, buffer, out)
  }

  lemma NothingDrained(wire: Wire, chunks: seq<Chunk>)
    ensures Drained(wire, chunks, 0, [], [], [], [])
  {
  }

  lemma AllDrained(
    wire: Wire, chunks: seq<Chunk>, body: Bytes, done: seq<Bytes>, buffer: Bytes, out: seq<Block>)
    requires Drained(wire, chunks, |chunks|, body, done, buffer, out)
    ensures Read(wire, chunks) == if buffer == [] then Outcome(out, None) else Next(wire, Outcome(out, None), buffer)
  {
    assert chunks[..|chunks|] == chunks;
    LastLine(wire, body, done, buffer, out);
  }

  /** Another chunk joins the buffer, and its complete lines are taken off. */
  method TakeChunk(
    wire: Wire, chunks: seq<Chunk>, n: nat, ghost body: Bytes, ghost parsed: seq<Bytes>,
    before: Bytes, yielded: seq<Block>)
    returns (buffer: Bytes, out: seq<Block>, error: Option<FetchError>, ghost done: seq<Bytes>)
    requires n < |chunks| && chunks[n].Ok? && Drained(wire, chunks, n, body, parsed, before, yielded)
    ensures error.None? ==> Drained(wire, chunks, n + 1, body + chunks[n].value, done, buffer, out)
    ensures error.Some? ==> Outcome(out, error) == Read(wire, chunks)
  {
    ReceivedNext(chunks, n, body);
    ReadMore(wire, body, parsed, before, yielded, chunks[n].value);
    buffer, out, error, done := DrainLines(wire, before + chunks[n].value, yielded, body + chunks[n].value, parsed);
    if error.Some? { StoppedReading(wire, chunks, n + 1, body + chunks[n].value); }
  }

  /** Reads one response body, yielding blocks as their lines are completed. */
  method ReadBody(wire: Wire, chunks: seq<Chunk>) returns (out: seq<Block>, error: Option<FetchError>)
    ensures Outcome(out, error) == Read(wire, chunks)
  {
    var buffer: Bytes := [];
    out, error := [], None;
    ghost var body: Bytes, done: seq<Bytes> := [], [];
    NothingDrained(wire, chunks);
    for n := 0 to |chunks|
      invariant error.None? && Drained(wire, chunks, n, body, done, buffer, out)
    {
      if chunks[n].Err? {
        FailedReading(wire, chunks, n, body, done, buffer, out);
        return out, Some(Http(chunks[n].error));
      }
      buffer, out, error, done := TakeChunk(wire, chunks, n, body, done, buffer, out);
      if error.Some? {
        return;
      }
      body := body + chunks[n].value;
    }
    AllDrained(wire, chunks, body, done, buffer, out);
    if buffer != [] {
      match ParseLine(wire, buffer)
      case Nothing =>
      case Yield(block) => out := out + [block];
      case Broken(e) => error := Some(e);
    }
  }
}
