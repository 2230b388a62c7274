/**
 * What one decoded record of the review stream makes the client do.
 *
 * The streaming client reads the stream either as `data: ` lines or as
 * back-to-back `{...}` objects, hands each payload to `JSON.parse`, and looks
 * at three properties of the parsed value: `type`, `data` and `message`.
 * `JSON.parse` itself is not modelled: callers pass it in as a function from
 * payload text to `Parsed`, where `NotJson` stands for the parse throwing.
 *
 * The streaming reader turns a record into callbacks; the non-streaming
 * fallback turns the same record into text appended to its result. The
 * functions of the fallback are stated against the callbacks of the
 * streaming reader, so the two copies of the dispatch cannot drift apart.
 */
module StreamEvents {
  import opened JsStrings

  /**
   * A property of a parsed value as `evt?.x` sees it: absent (also the case
   * for `null`, numbers, strings and arrays, which have no such property), a
   * string, or some other value, with its JavaScript truthiness and the text
   * `String(x)` gives for it.
   */
  datatype Field = Missing | Str(s: string) | NonString(truthy: bool, text: string)

  /** The three properties of a parsed payload the client reads. */
  datatype Record = Record(kind: Field, data: Field, message: Field)

  /** The outcome of `JSON.parse` on a payload. */
  datatype Parsed = NotJson | Json(rec: Record)

  /** A callback invocation: `onChunk({content})`, `onComplete()` or `onError(new Error(message))`. */
  datatype Callback = OnChunk(content: string) | OnComplete | OnError(message: string)

  /** JavaScript truthiness of a property value. */
  predicate Truthy(f: Field) {
    match f
    case Missing => false
    case Str(s) => s != []
    case NonString(t, _) => t
  }

  /** `new Error(evt.message || 'Streaming error').message`. */
  function ErrorMessage(f: Field): (m: string)
    ensures !Truthy(f) ==> m == "Streaming error"
    ensures f.Str? && Truthy(f) ==> m == f.s
    ensures f.NonString? && Truthy(f) ==> m == f.text
  {
    match f
    case Str(s) => if s != [] then s else "Streaming error"
    case NonString(t, text) =>
      // a truthy non-string value is kept as `String(x)`, which may be empty (`[]`)
      if t then text else "Streaming error"
    case Missing => "Streaming error"
  }

  /** `evt?.type === 'chunk' && typeof evt.data === 'string'`. */
  predicate IsChunk(rec: Record) {
    rec.kind == Str("chunk") && rec.data.Str?
  }

  /**
   * The dispatch on a parsed record: a chunk with string data is passed on,
   * `complete` completes, `error` reports its message, and every other
   * record (`connected`, unknown types, chunks whose data is not a string,
   * values without a `type`) is ignored.
   */
  function RecordCallbacks(rec: Record): (cbs: seq<Callback>)
    ensures |cbs| <= 1
    ensures IsChunk(rec) <==> rec.data.Str? && cbs == [OnChunk(rec.data.s)]
    ensures rec.kind == Str("complete") <==> cbs == [OnComplete]
    ensures rec.kind == Str("error") <==> cbs == [OnError(ErrorMessage(rec.message))]
    ensures cbs == [] <==> !IsChunk(rec) && rec.kind != Str("complete") && rec.kind != Str("error")
  {
    if IsChunk(rec) then [OnChunk(rec.data.s)]
    else if rec.kind == Str("complete") then [OnComplete]
    else if rec.kind == Str("error") then [OnError(ErrorMessage(rec.message))]
    else []
  }

  /** The text the chunks among some callbacks carry, in order. */
  function ChunkText(cbs: seq<Callback>): string {
    if cbs == [] then []
    else
      var last := cbs[|cbs| - 1];
      ChunkText(cbs[..|cbs| - 1]) + (if last.OnChunk? then last.content else [])
  }

  /** Chunk text distributes over concatenation of callback sequences. */
  lemma {:induction false} ChunkTextAppend(a: seq<Callback>, b: seq<Callback>)
    ensures ChunkText(a + b) == ChunkText(a) + ChunkText(b)
    decreases |b|
  {
    if b != [] {
      var b' := b[..|b| - 1];
      assert (a + b)[..|a + b| - 1] == a + b';
      ChunkTextAppend(a, b');
    } else {
      assert a + b == a;
    }
  }

  /** The payload of a `data: ` line. */
  const DataPrefix: string := "data: "

  /** The payload that marks the end of the stream on the line path. */
  const DoneMarker: string := "[DONE]"

  /**
   * One line of the line path: blank lines, lines not starting with `data: `
   * and the `[DONE]` payload are skipped; a payload that does not parse is
   * passed on verbatim as a chunk; a parsed one is dispatched.
   */
  function LineCallbacks(line: string, parse: string -> Parsed): (cbs: seq<Callback>)
    ensures IsBlank(line) || !StartsWith(line, DataPrefix) ==> cbs == []
    ensures StartsWith(line, DataPrefix) && line[6..] == DoneMarker ==> cbs == []
    ensures StartsWith(line, DataPrefix) && line[6..] != DoneMarker && parse(line[6..]).NotJson?
            ==> cbs == [OnChunk(line[6..])]
    ensures StartsWith(line, DataPrefix) && line[6..] != DoneMarker && parse(line[6..]).Json?
            ==> cbs == RecordCallbacks(parse(line[6..]).rec)
  {
    assert StartsWith(line, DataPrefix) ==> line[0] == DataPrefix[0];
    if IsBlank(line) || !StartsWith(line, DataPrefix) then []
    else
      var payload := line[6..];
      if payload == DoneMarker then []
      else
        match parse(payload)
        case NotJson => [OnChunk(payload)]
        case Json(rec) => RecordCallbacks(rec)
  }

  /** One object of the brace path: an object that does not parse is dropped. */
  function ObjectCallbacks(obj: string, parse: string -> Parsed): (cbs: seq<Callback>)
    ensures parse(obj).NotJson? ==> cbs == []
    ensures parse(obj).Json? ==> cbs == RecordCallbacks(parse(obj).rec)
  {
    match parse(obj)
    case NotJson => []
    case Json(rec) => RecordCallbacks(rec)
  }

  /** The callbacks of a run of complete lines, in order. */
  function LinesCallbacks(lines: seq<string>, parse: string -> Parsed): seq<Callback> {
    if lines == [] then []
    else LinesCallbacks(lines[..|lines| - 1], parse) + LineCallbacks(lines[|lines| - 1], parse)
  }

  /** The callbacks of a run of extracted objects, in order. */
  function ObjectsCallbacks(objs: seq<string>, parse: string -> Parsed): seq<Callback> {
    if objs == [] then []
    else ObjectsCallbacks(objs[..|objs| - 1], parse) + ObjectCallbacks(objs[|objs| - 1], parse)
  }

  /** The callbacks of two runs of objects are those of each run, in order. */
  lemma {:induction false} ObjectsCallbacksAppend(a: seq<string>, b: seq<string>, parse: string -> Parsed)
    ensures ObjectsCallbacks(a + b, parse) == ObjectsCallbacks(a, parse) + ObjectsCallbacks(b, parse)
    decreases |b|
  {
    if b != [] {
      var b' := b[..|b| - 1];
      assert (a + b)[..|a + b| - 1] == a + b';
      ObjectsCallbacksAppend(a, b', parse);
    } else {
      assert a + b == a;
    }
  }

  /** What the fallback appends for a parsed record: the data of a chunk, nothing otherwise. */
  function RecordText(rec: Record): (t: string)
    ensures t == ChunkText(RecordCallbacks(rec))
  {
    if IsChunk(rec) then rec.data.s else []
  }

  /**
   * What the fallback appends for one line: the same guards as the streaming
   * reader, raw text for a payload that does not parse, chunk data otherwise.
   */
  function LineText(line: string, parse: string -> Parsed): (t: string)
    ensures t == ChunkText(LineCallbacks(line, parse))
  {
    if IsBlank(line) || !StartsWith(line, DataPrefix) then []
    else
      var payload := line[6..];
      if payload == DoneMarker then []
      else
        match parse(payload)
        case NotJson =>
          assert ChunkText([OnChunk(payload)]) == ChunkText([]) + payload;
          payload
        case Json(rec) => RecordText(rec)
  }

  /** What the fallback appends for one extracted object. */
  function ObjectText(obj: string, parse: string -> Parsed): (t: string)
    ensures t == ChunkText(ObjectCallbacks(obj, parse))
  {
    match parse(obj)
    case NotJson => []
    case Json(rec) => RecordText(rec)
  }

  /** The fallback's text for a run of complete lines. */
  function LinesText(lines: seq<string>, parse: string -> Parsed): (t: string)
    ensures t == ChunkText(LinesCallbacks(lines, parse))
  {
    if lines == [] then []
    else
      var init := lines[..|lines| - 1];
      ChunkTextAppend(LinesCallbacks(init, parse), LineCallbacks(lines[|lines| - 1], parse));
      LinesText(init, parse) + LineText(lines[|lines| - 1], parse)
  }

  /** The fallback's text for a run of extracted objects. */
  function ObjectsText(objs: seq<string>, parse: string -> Parsed): (t: string)
    ensures t == ChunkText(ObjectsCallbacks(objs, parse))
  {
    if objs == [] then []
    else
      var init := objs[..|objs| - 1];
      ChunkTextAppend(ObjectsCallbacks(init, parse), ObjectCallbacks(objs[|objs| - 1], parse));
      ObjectsText(init, parse) + ObjectText(objs[|objs| - 1], parse)
  }
}
