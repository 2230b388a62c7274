/**
 * The streaming review client: `streamCodeReview`, which turns the decoded
 * text of a streamed response into `onChunk`/`onComplete`/`onError` calls,
 * and `reviewCodeFallback`, which reads the same kind of stream into one
 * string.
 *
 * The network is not modelled. A `Response` says how `fetch` ended, and for a
 * response with a body, which decoded text pieces `reader.read()` delivered
 * and how the last read ended. The callbacks the client makes are returned
 * in order, as a sequence of `Callback` values.
 *
 * Every read appends its text to a buffer and routes the buffer:
 *   - line path: the buffer holds a newline and, once leading white space is
 *     dropped, starts with `data:`. It is split on `\n`, every complete line
 *     is handled, and the text after the last newline stays in the buffer;
 *   - brace path: otherwise. The complete top-level `{...}` objects are
 *     extracted and handled, and the leftover of `extractJsonObjects` stays.
 */
module StreamingService {
  import opened Wrappers
  import opened JsStrings
  import opened JsonScanner
  import opened StreamEvents

  /** A thrown JavaScript error: its `name` and its `message`. */
  datatype JsError = JsError(name: string, message: string)

  /** The error an aborted fetch or read rejects with. */
  predicate IsAbort(e: JsError) {
    e.name == "AbortError"
  }

  /** An error made with `new Error(message)`. */
  function PlainError(message: string): (e: JsError)
    ensures !IsAbort(e) && e.message == message
  {
    JsError("Error", message)
  }

  /** How the last `reader.read()` ended: `done`, or a rejection. */
  datatype Ending = Done | ReadFailed(error: JsError)

  /**
   * How the request went: `fetch` rejected, or a response came with its `ok`
   * flag, status, whether it has a body, the decoded text of each read, and
   * how reading ended.
   */
  datatype Response =
    | FetchFailed(error: JsError)
    | Response(ok: bool, status: nat, hasBody: bool, pieces: seq<string>, ending: Ending)

  /** A reader is taken exactly when the response is ok and has a body. */
  predicate ReaderObtained(response: Response) {
    response.Response? && response.ok && response.hasBody
  }

  /** The message thrown for a response that is not ok. */
  function HttpErrorMessage(status: nat): (m: string)
    ensures StartsWith(m, "HTTP error! status: ")
    ensures DecimalValue(m[|"HTTP error! status: "|..]) == status
  {
    var m := "HTTP error! status: " + Decimal(status);
    assert m[|"HTTP error! status: "|..] == Decimal(status);
    DecimalRoundTrip(status);
    m
  }

  // ---------------------------------------------------------------------------
  // Routing one read
  // ---------------------------------------------------------------------------

  /** `buffer.includes('\n') && buffer.trimStart().startsWith('data:')`. */
  predicate UseLinePath(buffer: string) {
    '\n' in buffer && StartsWith(TrimStart(buffer), "data:")
  }

  /** The callbacks of one pass over the buffer and the buffer kept for the next read. */
  datatype Pass = Pass(callbacks: seq<Callback>, buffer: string)

  /** The complete lines of a buffer on the line path: all `split` pieces but the last. */
  function CompleteLines(buffer: string): seq<string> {
    var lines := Split(buffer, '\n');
    lines[..|lines| - 1]
  }

  /** What stays in the buffer on the line path: the last `split` piece. */
  function PartialLine(buffer: string): string {
    var lines := Split(buffer, '\n');
    lines[|lines| - 1]
  }

  /** One pass of the streaming read loop over the grown buffer. */
  function StreamPass(buffer: string, parse: string -> Parsed): (p: Pass)
    ensures UseLinePath(buffer) ==> p == Pass(LinesCallbacks(CompleteLines(buffer), parse), PartialLine(buffer))
    ensures !UseLinePath(buffer) ==> p == Pass(ObjectsCallbacks(Objects(buffer), parse), StreamLeftover(buffer))
  {
    if UseLinePath(buffer) then Pass(LinesCallbacks(CompleteLines(buffer), parse), PartialLine(buffer))
    else Pass(ObjectsCallbacks(Objects(buffer), parse), StreamLeftover(buffer))
  }

  /** The callbacks of all reads so far, and the buffer after the last of them. */
  function StreamReads(pieces: seq<string>, parse: string -> Parsed): Pass {
    if pieces == [] then Pass([], [])
    else
      var prev := StreamReads(pieces[..|pieces| - 1], parse);
      var p := StreamPass(prev.buffer + pieces[|pieces| - 1], parse);
      Pass(prev.callbacks + p.callbacks, p.buffer)
  }

  /** The fallback's result text so far and its buffer. */
  datatype TextPass = TextPass(text: string, buffer: string)

  /** One pass of the fallback's read loop: the same routing, text instead of callbacks, its own leftover rule. */
  function FallbackPass(buffer: string, parse: string -> Parsed): (p: TextPass)
    ensures UseLinePath(buffer) ==> p.buffer == StreamPass(buffer, parse).buffer
    ensures p.text == ChunkText(StreamPass(buffer, parse).callbacks)
  {
    if UseLinePath(buffer) then TextPass(LinesText(CompleteLines(buffer), parse), PartialLine(buffer))
    else TextPass(ObjectsText(Objects(buffer), parse), FallbackLeftover(buffer))
  }

  /** The fallback's text after all reads so far, and its buffer. */
  function FallbackReads(pieces: seq<string>, parse: string -> Parsed): TextPass {
    if pieces == [] then TextPass([], [])
    else
      var prev := FallbackReads(pieces[..|pieces| - 1], parse);
      var p := FallbackPass(prev.buffer + pieces[|pieces| - 1], parse);
      TextPass(prev.text + p.text, p.buffer)
  }

  // ---------------------------------------------------------------------------
  // The loops
  // ---------------------------------------------------------------------------

  /** The `for (const line of lines)` loop of the line path. */
  method DispatchLines(lines: seq<string>, parse: string -> Parsed) returns (callbacks: seq<Callback>)
    ensures callbacks == LinesCallbacks(lines, parse)
  {
    callbacks := [];
    for i := 0 to |lines|
      invariant callbacks == LinesCallbacks(lines[..i], parse)
    {
      assert lines[..i + 1][..i] == lines[..i];
      var line := lines[i];
      if !IsBlank(line) && StartsWith(line, DataPrefix) {
        var payload := line[6..];
        if payload != DoneMarker {
          match parse(payload)
          case NotJson =>
            callbacks := callbacks + [OnChunk(payload)];
          case Json(rec) =>
            callbacks := callbacks + RecordCallbacks(rec);
        }
      }
    }
    assert lines[..|lines|] == lines;
  }

  /** The `for (const objStr of objects)` loop of the brace path. */
  method DispatchObjects(objects: seq<string>, parse: string -> Parsed) returns (callbacks: seq<Callback>)
    ensures callbacks == ObjectsCallbacks(objects, parse)
  {
    callbacks := [];
    for i := 0 to |objects|
      invariant callbacks == ObjectsCallbacks(objects[..i], parse)
    {
      assert objects[..i + 1][..i] == objects[..i];
      match parse(objects[i])
      case NotJson =>
      case Json(rec) =>
        callbacks := callbacks + RecordCallbacks(rec);
    }
    assert objects[..|objects|] == objects;
  }

  /** The `while (true)` read loop of `streamCodeReview`, up to the last read. */
  method ReadStream(pieces: seq<string>, parse: string -> Parsed) returns (callbacks: seq<Callback>, buffer: string)
    ensures Pass(callbacks, buffer) == StreamReads(pieces, parse)
  {
    callbacks, buffer := [], [];
    var i := 0;
    while i < |pieces|
      invariant 0 <= i <= |pieces|
      invariant Pass(callbacks, buffer) == StreamReads(pieces[..i], parse)
    {
      assert pieces[..i + 1][..i] == pieces[..i];
      ghost var before := callbacks;
      var found;
      found, buffer := ReadOnce(buffer + pieces[i], parse);
      assert StreamReads(pieces[..i + 1], parse) == Pass(before + found, buffer);
      callbacks := callbacks + found;
      i := i + 1;
    }
    assert pieces[..|pieces|] == pieces;
  }

  /** The body of the streaming read loop: route the grown buffer, dispatch what it holds, keep the rest. */
  method ReadOnce(buffer: string, parse: string -> Parsed) returns (found: seq<Callback>, rest: string)
    ensures Pass(found, rest) == StreamPass(buffer, parse)
  {
    if '\n' in buffer && StartsWith(TrimStart(buffer), "data:") {
      var lines := Split(buffer, '\n');
      rest := lines[|lines| - 1];
      found := DispatchLines(lines[..|lines| - 1], parse);
    } else {
      var objects;
      objects, rest := ExtractJsonObjects(buffer);
      found := DispatchObjects(objects, parse);
    }
  }

  /** The callbacks after the last read: `onComplete` at the natural end, `onError` for a failure that is not an abort. */
  function EndCallbacks(ending: Ending): (cbs: seq<Callback>)
    ensures ending.Done? ==> cbs == [OnComplete]
    ensures ending.ReadFailed? && IsAbort(ending.error) ==> cbs == []
    ensures ending.ReadFailed? && !IsAbort(ending.error) ==> cbs == [OnError(ending.error.message)]
  {
    match ending
    case Done => [OnComplete]
    case ReadFailed(e) => if IsAbort(e) then [] else [OnError(e.message)]
  }

  /** `!sessionId`: no session, or the empty string. */
  predicate HasSession(sessionId: Option<string>) {
    sessionId.Some? && sessionId.value != []
  }

  /**
   * `streamCodeReview`. Besides the callbacks it reports whether the request
   * was sent and whether a reader was taken and released.
   */
  method StreamCodeReview(code: string, sessionId: Option<string>, response: Response, parse: string -> Parsed)
    returns (callbacks: seq<Callback>, requested: bool, released: bool)
    ensures requested <==> !IsBlank(code) && HasSession(sessionId)
    ensures IsBlank(code) ==> callbacks == [OnError("Code cannot be empty")]
    ensures !IsBlank(code) && !HasSession(sessionId) ==> callbacks == [OnError("Session ID is required")]
    ensures requested && response.FetchFailed? && IsAbort(response.error) ==> callbacks == []
    ensures requested && response.FetchFailed? && !IsAbort(response.error) ==> callbacks == [OnError(response.error.message)]
    ensures requested && response.Response? && !response.ok ==> callbacks == [OnError(HttpErrorMessage(response.status))]
    ensures requested && response.Response? && response.ok && !response.hasBody
            ==> callbacks == [OnError("Response body is not readable")]
    ensures released <==> requested && ReaderObtained(response)
    ensures released ==> callbacks == StreamReads(response.pieces, parse).callbacks + EndCallbacks(response.ending)
  {
    callbacks, requested, released := [], false, false;
    // what the outer `catch` receives, if anything
    var error: Option<JsError> := None;
    if IsBlank(code) {
      error := Some(PlainError("Code cannot be empty"));
    } else if !HasSession(sessionId) {
      error := Some(PlainError("Session ID is required"));
    } else {
      requested := true;
      match response
      case FetchFailed(e) =>
        error := Some(e);
      case Response(ok, status, hasBody, pieces, ending) =>
        if !ok {
          error := Some(PlainError(HttpErrorMessage(status)));
        } else if !hasBody {
          error := Some(PlainError("Response body is not readable"));
        } else {
          var buffer;
          callbacks, buffer := ReadStream(pieces, parse);
          match ending {
            case Done =>
              callbacks := callbacks + [OnComplete];
            case ReadFailed(e) =>
              error := Some(e);
          }
          // the `finally` around the read loop
          released := true;
        }
    }
    if error.Some? && !IsAbort(error.value) {
      callbacks := callbacks + [OnError(error.value.message)];
    }
  }

  /** The `for (const line of lines)` loop of the fallback's line path. */
  method AccumulateLines(lines: seq<string>, parse: string -> Parsed) returns (text: string)
    ensures text == LinesText(lines, parse)
  {
    text := [];
    for i := 0 to |lines|
      invariant text == LinesText(lines[..i], parse)
    {
      assert lines[..i + 1][..i] == lines[..i];
      text := text + LineText(lines[i], parse);
    }
    assert lines[..|lines|] == lines;
  }

  /** The `for (const objStr of objects)` loop of the fallback's brace path. */
  method AccumulateObjects(objects: seq<string>, parse: string -> Parsed) returns (text: string)
    ensures text == ObjectsText(objects, parse)
  {
    text := [];
    for i := 0 to |objects|
      invariant text == ObjectsText(objects[..i], parse)
    {
      assert objects[..i + 1][..i] == objects[..i];
      text := text + ObjectText(objects[i], parse);
    }
    assert objects[..|objects|] == objects;
  }

  /** The `while (true)` read loop of `reviewCodeFallback`, up to the last read. */
  method ReadFallback(pieces: seq<string>, parse: string -> Parsed) returns (text: string, buffer: string)
    ensures TextPass(text, buffer) == FallbackReads(pieces, parse)
  {
    text, buffer := [], [];
    var i := 0;
    while i < |pieces|
      invariant 0 <= i <= |pieces|
      invariant TextPass(text, buffer) == FallbackReads(pieces[..i], parse)
    {
      assert pieces[..i + 1][..i] == pieces[..i];
      ghost var before := text;
      var found;
      found, buffer := ReadOnceFallback(buffer + pieces[i], parse);
      assert FallbackReads(pieces[..i + 1], parse) == TextPass(before + found, buffer);
      text := text + found;
      i := i + 1;
    }
    assert pieces[..|pieces|] == pieces;
  }

  /** The body of the fallback's read loop: route the grown buffer, collect the chunk text, keep the rest. */
  method ReadOnceFallback(buffer: string, parse: string -> Parsed) returns (found: string, rest: string)
    ensures TextPass(found, rest) == FallbackPass(buffer, parse)
  {
    if '\n' in buffer && StartsWith(TrimStart(buffer), "data:") {
      var lines := Split(buffer, '\n');
      rest := lines[|lines| - 1];
      found := AccumulateLines(lines[..|lines| - 1], parse);
    } else {
      var objects;
      objects, rest := ExtractJsonObjectsFallback(buffer);
      found := AccumulateObjects(objects, parse);
    }
  }

  /**
   * `reviewCodeFallback`: the concatenated chunk text, or the error that ended
   * the request. It reports whether a reader was taken and released.
   */
  method ReviewCodeFallback(response: Response, parse: string -> Parsed)
    returns (result: Result<string, JsError>, released: bool)
    ensures response.FetchFailed? ==> result == Failure(response.error)
    ensures response.Response? && !response.ok ==> result == Failure(PlainError(HttpErrorMessage(response.status)))
    ensures response.Response? && response.ok && !response.hasBody
            ==> result == Failure(PlainError("Response body is not readable"))
    ensures released <==> ReaderObtained(response)
    ensures released && response.ending.Done? ==> result == Success(FallbackReads(response.pieces, parse).text)
    ensures released && response.ending.ReadFailed? ==> result == Failure(response.ending.error)
  {
    match response
    case FetchFailed(e) =>
      return Failure(e), false;
    case Response(ok, status, hasBody, pieces, ending) =>
      if !ok {
        return Failure(PlainError(HttpErrorMessage(status))), false;
      }
      if !hasBody {
        return Failure(PlainError("Response body is not readable")), false;
      }
      var text, buffer := ReadFallback(pieces, parse);
      // the `finally` around the read loop
      released := true;
      match ending
      case Done =>
        result := Success(text);
      case ReadFailed(e) =>
        result := Failure(e);
  }

  // ---------------------------------------------------------------------------
  // Properties of the read loops
  // ---------------------------------------------------------------------------

  /**
   * On the line path the buffer keeps exactly the text after the last newline:
   * no newline is left in it, and the complete lines, the newline and the kept
   * text make up the buffer that was split.
   */
  lemma LinePathKeepsPartialLine(buffer: string)
    requires '\n' in buffer
    ensures var rest := PartialLine(buffer);
      && '\n' !in rest
      && |rest| < |buffer|
      && buffer[|buffer| - |rest| - 1] == '\n'
      && buffer[|buffer| - |rest|..] == rest
      && buffer == Join(CompleteLines(buffer), '\n') + "\n" + rest
  {
    var lines := Split(buffer, '\n');
    SplitSeparatorCount(buffer, '\n');
    JoinLast(lines, '\n');
    var rest := lines[|lines| - 1];
    var front := Join(lines[..|lines| - 1], '\n');
    assert buffer == front + "\n" + rest;
    assert buffer[|front| + 1..] == rest;
  }

  /** A buffer that starts with `{` always takes the brace path. */
  lemma ObjectTextTakesBracePath(buffer: string)
    requires buffer != [] && buffer[0] == '{'
    ensures !UseLinePath(buffer)
  {
    assert TrimStart(buffer) == buffer;
  }

  /** A stray `}` never drove a brace pass below depth zero: the only case where the copies' buffers part. */
  ghost predicate NoStrayCloser(pieces: seq<string>, parse: string -> Parsed) {
    if pieces == [] then true
    else
      var init := pieces[..|pieces| - 1];
      var b := StreamReads(init, parse).buffer + pieces[|pieces| - 1];
      NoStrayCloser(init, parse) && (UseLinePath(b) || LexAt(b, |b|).depth >= 0)
  }

  /**
   * The fallback returns the text the streaming reader passes to `onChunk`, in
   * the same order, and keeps the same buffer, as long as no stray `}` makes
   * the two leftover rules part.
   */
  lemma {:induction false} FallbackMatchesStream(pieces: seq<string>, parse: string -> Parsed)
    requires NoStrayCloser(pieces, parse)
    ensures FallbackReads(pieces, parse).text == ChunkText(StreamReads(pieces, parse).callbacks)
    ensures FallbackReads(pieces, parse).buffer == StreamReads(pieces, parse).buffer
  {
    if pieces != [] {
      var init := pieces[..|pieces| - 1];
      FallbackMatchesStream(init, parse);
      var prev := StreamReads(init, parse);
      var b := prev.buffer + pieces[|pieces| - 1];
      if !UseLinePath(b) {
        LeftoversAgree(b);
      }
      ChunkTextAppend(prev.callbacks, StreamPass(b, parse).callbacks);
    }
  }

  /** The first read routes exactly its own text. */
  lemma FirstRead(x: string, parse: string -> Parsed)
    ensures StreamReads([x], parse) == StreamPass(x, parse)
  {
    assert [x][..0] == [];
    assert [] + x == x;
  }

  /** A later read routes the buffer left by the reads before it, grown by its own text. */
  lemma NextRead(init: seq<string>, x: string, parse: string -> Parsed)
    ensures var prev := StreamReads(init, parse);
      var p := StreamPass(prev.buffer + x, parse);
      StreamReads(init + [x], parse) == Pass(prev.callbacks + p.callbacks, p.buffer)
  {
    assert (init + [x])[..|init|] == init;
  }

  /**
   * N complete objects arriving back to back in one read produce the callbacks
   * of those N objects, in order, and leave the buffer empty.
   */
  lemma BackToBackObjectsInOneRead(objs: seq<string>, parse: string -> Parsed)
    requires forall k :: 0 <= k < |objs| ==> Balanced(objs[k])
    ensures StreamReads([Concat(objs)], parse) == Pass(ObjectsCallbacks(objs, parse), [])
  {
    ConcatenatedObjectsExtracted(objs);
    if objs != [] {
      assert Balanced(objs[0]);
      ConcatStartsWithFirst(objs);
      ObjectTextTakesBracePath(Concat(objs));
    }
    FirstRead(Concat(objs), parse);
  }

  /**
   * An object cut into two reads anywhere inside: the first read calls
   * nothing and keeps its text, and after the second the callbacks and the
   * buffer are those of the whole object read at once.
   */
  lemma SplitObjectAcrossReads(o: string, n: nat, parse: string -> Parsed)
    requires Balanced(o) && 0 < n < |o|
    ensures StreamReads([o[..n]], parse) == Pass([], o[..n])
    ensures StreamReads([o[..n], o[n..]], parse) == Pass(ObjectCallbacks(o, parse), [])
    ensures StreamReads([o], parse) == Pass(ObjectCallbacks(o, parse), [])
  {
    SplitObjectWaitsForRest(o, n);
    assert o[..n][0] == '{';
    ObjectTextTakesBracePath(o[..n]);
    ObjectTextTakesBracePath(o);
    FirstRead(o[..n], parse);
    FirstRead(o, parse);
    NextRead([o[..n]], o[n..], parse);
    assert [o[..n]] + [o[n..]] == [o[..n], o[n..]];
    assert ObjectsCallbacks([o], parse) == ObjectCallbacks(o, parse) by {
      assert [o][..0] == [];
    }
  }

  /**
   * The state after some reads of back-to-back objects: the callbacks of the
   * first `k` objects have been made, and the buffer holds the start of the
   * next one (or nothing, once all are read).
   */
  ghost predicate ReadState(objs: seq<string>, k: int, pass: Pass, consumed: string, parse: string -> Parsed) {
    && CutAt(objs, k, pass.buffer)
    && consumed == Concat(objs[..k]) + pass.buffer
    && pass.callbacks == ObjectsCallbacks(objs[..k], parse)
  }

  /** What follows whole objects in a prefix of back-to-back objects is a prefix of the objects after them. */
  lemma RestIsPrefix(objs: seq<string>, k: int, t: string)
    requires 0 <= k <= |objs|
    requires var u := Concat(objs[..k]) + t; |u| <= |Concat(objs)| && u == Concat(objs)[..|u|]
    ensures |t| <= |Concat(objs[k..])| && t == Concat(objs[k..])[..|t|]
  {
    var a := Concat(objs[..k]);
    assert objs[..k] + objs[k..] == objs;
    ConcatAppend(objs[..k], objs[k..]);
    assert t == (a + t)[|a|..];
  }

  /** A prefix of back-to-back objects takes the brace path: the whole objects in it are dispatched and the start of the next is kept. */
  lemma BracePass(rest: seq<string>, t: string, parse: string -> Parsed) returns (i: int, p: string)
    requires forall n :: 0 <= n < |rest| ==> Balanced(rest[n])
    requires |t| <= |Concat(rest)| && t == Concat(rest)[..|t|]
    ensures CutAt(rest, i, p) && t == Concat(rest[..i]) + p
    ensures StreamPass(t, parse) == Pass(ObjectsCallbacks(rest[..i], parse), p)
  {
    PrefixOfObjects(rest, t);
    i, p :| CutAt(rest, i, p) && t == Concat(rest[..i]) + p && Objects(t) == rest[..i] && StreamLeftover(t) == p;
    if t != [] {
      ObjectTextTakesBracePath(t);
    }
  }

  /** A cut among the objects after the first `k` is a cut among all of them, `k` further on, after the same text. */
  lemma CutFurther(objs: seq<string>, k: int, i: int, j: int, p: string, u: string)
    requires 0 <= k <= |objs| && CutAt(objs[k..], i, p) && j == k + i
    requires u == Concat(objs[..k]) + (Concat(objs[k..][..i]) + p)
    ensures CutAt(objs, j, p)
    ensures u == Concat(objs[..j]) + p
  {
    var rest := objs[k..];
    assert objs[..j] == objs[..k] + rest[..i];
    ConcatAppend(objs[..k], rest[..i]);
    if i < |rest| {
      assert rest[i] == objs[k + i];
    }
  }

  /** The callbacks of the first `k` objects and of the `i` after them are those of the first `k + i`. */
  lemma CallbacksFurther(objs: seq<string>, k: int, i: int, j: int, before: seq<Callback>, after: seq<Callback>, parse: string -> Parsed)
    requires 0 <= k <= |objs| && 0 <= i <= |objs| - k && j == k + i
    requires before == ObjectsCallbacks(objs[..k], parse) && after == ObjectsCallbacks(objs[k..][..i], parse)
    ensures before + after == ObjectsCallbacks(objs[..j], parse)
  {
    assert objs[..j] == objs[..k] + objs[k..][..i];
    ObjectsCallbacksAppend(objs[..k], objs[k..][..i], parse);
  }

  /** One more read of back-to-back objects: the buffer grown by the read takes the brace path and moves the state on. */
  lemma ReadStep(objs: seq<string>, k: int, prev: Pass, c: string, x: string, parse: string -> Parsed) returns (j: int)
    requires forall n :: 0 <= n < |objs| ==> Balanced(objs[n])
    requires ReadState(objs, k, prev, c, parse)
    requires |c + x| <= |Concat(objs)| && c + x == Concat(objs)[..|c + x|]
    ensures ReadState(objs, j, Pass(prev.callbacks + StreamPass(prev.buffer + x, parse).callbacks,
                                    StreamPass(prev.buffer + x, parse).buffer), c + x, parse)
  {
    var t := prev.buffer + x;
    assert c + x == Concat(objs[..k]) + t;
    RestIsPrefix(objs, k, t);
    var i, p := BracePass(objs[k..], t, parse);
    j := k + i;
    StateAfterRead(objs, k, i, j, p, prev.callbacks, c + x, StreamPass(t, parse), parse);
  }

  /** The state after a read whose buffer held `i` more whole objects and then the start `p` of the next. */
  lemma StateAfterRead(objs: seq<string>, k: int, i: int, j: int, p: string, before: seq<Callback>, u: string, q: Pass, parse: string -> Parsed)
    requires 0 <= k <= |objs| && CutAt(objs[k..], i, p) && j == k + i
    requires u == Concat(objs[..k]) + (Concat(objs[k..][..i]) + p)
    requires before == ObjectsCallbacks(objs[..k], parse)
    requires q == Pass(ObjectsCallbacks(objs[k..][..i], parse), p)
    ensures ReadState(objs, j, Pass(before + q.callbacks, q.buffer), u, parse)
  {
    CutFurther(objs, k, i, j, p, u);
    CallbacksFurther(objs, k, i, j, before, q.callbacks, parse);
  }

  /** However the text of back-to-back objects is cut into reads, each read leaves a state of `ReadState`. */
  lemma {:induction false} ReadsOfObjects(objs: seq<string>, pieces: seq<string>, parse: string -> Parsed)
    requires forall n :: 0 <= n < |objs| ==> Balanced(objs[n])
    requires |Concat(pieces)| <= |Concat(objs)| && Concat(pieces) == Concat(objs)[..|Concat(pieces)|]
    ensures exists k :: ReadState(objs, k, StreamReads(pieces, parse), Concat(pieces), parse)
  {
    if pieces == [] {
      if objs != [] {
        assert Balanced(objs[0]);
      }
      assert objs[..0] == [];
      assert ReadState(objs, 0, StreamReads(pieces, parse), Concat(pieces), parse);
    } else {
      var init, x := pieces[..|pieces| - 1], pieces[|pieces| - 1];
      var c := Concat(init);
      assert Concat(pieces) == c + x;
      assert c == (c + x)[..|c|];
      ReadsOfObjects(objs, init, parse);
      var prev := StreamReads(init, parse);
      var k :| ReadState(objs, k, prev, c, parse);
      var j := ReadStep(objs, k, prev, c, x, parse);
      assert ReadState(objs, j, StreamReads(pieces, parse), Concat(pieces), parse);
    }
  }

  /**
   * Chunking invariance on the brace path: back-to-back balanced objects make
   * the callbacks of those objects, in order, and leave nothing buffered,
   * wherever the reads cut the text.
   */
  lemma ChunkingInvariance(objs: seq<string>, pieces: seq<string>, parse: string -> Parsed)
    requires forall n :: 0 <= n < |objs| ==> Balanced(objs[n])
    requires Concat(pieces) == Concat(objs)
    ensures StreamReads(pieces, parse) == Pass(ObjectsCallbacks(objs, parse), [])
  {
    ReadsOfObjects(objs, pieces, parse);
    var k :| ReadState(objs, k, StreamReads(pieces, parse), Concat(pieces), parse);
    if k < |objs| {
      CutIsShort(objs, k, StreamReads(pieces, parse).buffer);
      assert false;
    }
    assert objs[..k] == objs;
  }

  /**
   * Off the brace path, the callbacks depend on where the reads cut the text.
   * `data: hi {x}` and its newline read together form one `data: ` line, whose
   * payload `JSON.parse` rejects, so it is passed on verbatim. Read apart, the
   * first read has no newline: it takes the brace path, which drops the
   * unparsable `{x}` and the `data: hi ` before it, and the newline arrives alone.
   */
  lemma LinePathDependsOnReads(parse: string -> Parsed)
    requires parse("hi {x}").NotJson? && parse("{x}").NotJson?
    ensures StreamReads(["data: hi {x}\n"], parse).callbacks == [OnChunk("hi {x}")]
    ensures StreamReads(["data: hi {x}", "\n"], parse).callbacks == []
  {
    var first := "data: hi {x}";
    WholeLineRead(first, parse);
    assert first + "\n" == "data: hi {x}\n";
    ApartLineRead(first, parse);
  }

  /** `data: hi {x}` and its newline read apart: the object is taken by the brace path and the newline arrives alone. */
  lemma ApartLineRead(first: string, parse: string -> Parsed)
    requires first == "data: hi {x}" && parse("{x}").NotJson?
    ensures StreamReads([first, "\n"], parse).callbacks == []
  {
    BraceReadOfDataLine(first, parse);
    NewlineAlone(parse);
    TwoReads(first, "\n", parse);
    assert [] + "\n" == "\n";
  }

  /**
   * The quote kept after `{}"{}"` (see `LastIndexOfSkipsRepeatedText`) opens a
   * string at the start of the next read, so a whole object `{}` arriving next
   * is never dispatched: only the first object is.
   */
  lemma KeptQuoteHidesNextObject(parse: string -> Parsed)
    ensures StreamReads(["{}\"{}\"", "{}"], parse).callbacks == ObjectCallbacks("{}", parse)
  {
    var first, next := "{}\"{}\"", "{}";
    ObjectThenQuotedCopy(first, parse);
    assert "\"" + next == "\"{}";
    QuotedObjectAlone(parse);
    TwoReads(first, next, parse);
  }

  /** `{}"{}"` read on its own: `{}` is dispatched and the closing quote is kept. */
  lemma ObjectThenQuotedCopy(first: string, parse: string -> Parsed)
    requires first == "{}\"{}\""
    ensures StreamReads([first], parse) == Pass(ObjectCallbacks("{}", parse), "\"")
  {
    LastIndexOfSkipsRepeatedText();
    assert '\n' !in first;
    assert ObjectsCallbacks(["{}"], parse) == ObjectCallbacks("{}", parse) by {
      assert ["{}"][..0] == [];
    }
    FirstRead(first, parse);
  }

  /** `"{}` on its own: the braces are inside a string, so nothing is dispatched. */
  lemma QuotedObjectAlone(parse: string -> Parsed)
    ensures StreamPass("\"{}", parse).callbacks == []
  {
    var b := "\"{}";
    assert '\n' !in b;
    assert LexAt(b, 1).inString && LexAt(b, 2).inString;
    assert ScanAt(b, 3) == Scan(-1, []);
    assert Objects(b) == [];
  }

  /** Two reads: the second routes the buffer the first left, grown by its own text. */
  lemma TwoReads(a: string, b: string, parse: string -> Parsed)
    ensures var prev := StreamReads([a], parse);
      var p := StreamPass(prev.buffer + b, parse);
      StreamReads([a, b], parse) == Pass(prev.callbacks + p.callbacks, p.buffer)
  {
    assert [a, b][..1] == [a];
  }

  /** `data: hi {x}` read on its own has no newline: the brace path takes `{x}`, which does not parse, and keeps nothing. */
  lemma BraceReadOfDataLine(first: string, parse: string -> Parsed)
    requires first == "data: hi {x}" && parse("{x}").NotJson?
    ensures StreamReads([first], parse) == Pass([], [])
  {
    var lead, obj := "data: hi ", "{x}";
    assert first == lead + obj;
    assert forall i :: 0 <= i < |lead| ==> Plain(lead[i]);
    BraceXBalanced(obj);
    ObjectAfterPlainText(lead, obj);
    assert '\n' !in first;
    assert ObjectsCallbacks([obj], parse) == [] by {
      assert [obj][..0] == [];
    }
    FirstRead(first, parse);
  }

  /** `{x}` is one balanced object. */
  lemma BraceXBalanced(obj: string)
    requires obj == "{x}"
    ensures Balanced(obj)
  {
    assert obj[0] == '{' && obj[1] == 'x' && obj[2] == '}';
    assert LexAt(obj, 0) == Outside;
    assert LexAt(obj, 1) == Lex(1, false, false);
    assert LexAt(obj, 2) == Lex(1, false, false);
    assert LexAt(obj, 3) == Outside;
  }

  /** A newline on its own takes the brace path and calls nothing. */
  lemma NewlineAlone(parse: string -> Parsed)
    ensures StreamPass("\n", parse).callbacks == []
  {
    PlainScan("\n", 1);
    assert TrimStart("\n") == [];
    assert Objects("\n") == [];
    assert !UseLinePath("\n");
  }

  /** `data: hi {x}` and its newline read at once: one `data: ` line whose payload does not parse. */
  lemma WholeLineRead(first: string, parse: string -> Parsed)
    requires first == "data: hi {x}" && parse("hi {x}").NotJson?
    ensures StreamReads([first + "\n"], parse).callbacks == [OnChunk("hi {x}")]
  {
    FirstRead(first + "\n", parse);
    DataLineRoutes(first);
    DataLineCalls(first, parse);
  }

  /** `data: hi {x}` and its newline take the line path, with `data: hi {x}` as the one complete line. */
  lemma DataLineRoutes(first: string)
    requires first == "data: hi {x}"
    ensures UseLinePath(first + "\n") && CompleteLines(first + "\n") == [first]
  {
    var whole := first + "\n";
    assert TrimStart(whole) == whole;
    assert '\n' in whole && StartsWith(whole, "data:");
    SplitEndingInSeparator(first, '\n');
  }

  /** The line `data: hi {x}` passes its payload on verbatim when it does not parse. */
  lemma DataLineCalls(first: string, parse: string -> Parsed)
    requires first == "data: hi {x}" && parse("hi {x}").NotJson?
    ensures LinesCallbacks([first], parse) == [OnChunk("hi {x}")]
  {
    assert StartsWith(first, DataPrefix) && first[6..] == "hi {x}" && |DoneMarker| == 6;
    assert first[6..] != DoneMarker;
    assert LineCallbacks(first, parse) == [OnChunk("hi {x}")];
    assert [first][..0] == [];
  }
}
