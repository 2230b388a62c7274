/**
 * The state behind the streaming review screen (`useStreamingCodeReview`):
 * the code being edited, the review text built up from chunks, whether a
 * stream is running, the last error, the session id, the progress shown and
 * the chunks received, plus the abort handle of the running request.
 *
 * Each React state variable is a field and each setter a plain assignment;
 * the `useRef` holding the abort controller is the field `abortHandle`. The
 * service runs to completion inside `StartStreaming`, and the callbacks it
 * made are delivered in order afterwards: the callbacks only touch this
 * state, so the outcome is the same as delivering them as they happen.
 */
module StreamingReviewHook {
  import opened Wrappers
  import opened JsStrings
  import opened StreamEvents
  import opened StreamingService

  /**
   * A chunk as `handleChunk` receives it: an object whose `content` and
   * `delta` properties are read, or a bare string.
   */
  datatype Chunk = ChunkRecord(content: Field, delta: Field) | ChunkString(text: string)

  /** The text `prev + x` appends for a property value `x`. */
  function FieldText(f: Field): string {
    match f
    case Missing => "undefined"
    case Str(s) => s
    case NonString(_, text) => text
  }

  /** What `handleChunk` appends to the review: truthy `content`, else truthy `delta`, else a bare string. */
  function ChunkAppend(chunk: Chunk): (t: string)
    ensures chunk.ChunkString? ==> t == chunk.text
    ensures chunk.ChunkRecord? && Truthy(chunk.content) ==> t == FieldText(chunk.content)
    ensures chunk.ChunkRecord? && !Truthy(chunk.content) && Truthy(chunk.delta) ==> t == FieldText(chunk.delta)
    ensures chunk.ChunkRecord? && !Truthy(chunk.content) && !Truthy(chunk.delta) ==> t == []
  {
    match chunk
    case ChunkString(text) => text
    case ChunkRecord(content, delta) =>
      if Truthy(content) then FieldText(content)
      else if Truthy(delta) then FieldText(delta)
      else []
  }

  /** The chunk `onChunk({ content })` hands over for a callback of the service. */
  function ServiceChunk(content: string): (chunk: Chunk)
    ensures ChunkAppend(chunk) == content
  {
    ChunkRecord(Str(content), Missing)
  }

  /** The chunks handed to `handleChunk` by some callbacks, in order. */
  function ChunksOf(cbs: seq<Callback>): seq<Chunk> {
    if cbs == [] then []
    else
      var last := cbs[|cbs| - 1];
      ChunksOf(cbs[..|cbs| - 1]) + (if last.OnChunk? then [ServiceChunk(last.content)] else [])
  }

  /** The last callback that is not a chunk: the one that decides `isStreaming` and the progress. */
  function LastSignal(cbs: seq<Callback>): (s: Option<Callback>)
    ensures s.Some? ==>
      exists k :: 0 <= k < |cbs| && cbs[k] == s.value && !cbs[k].OnChunk? &&
        (forall j :: k < j < |cbs| ==> cbs[j].OnChunk?)
    ensures s.None? <==> forall k :: 0 <= k < |cbs| ==> cbs[k].OnChunk?
  {
    if cbs == [] then None
    else if !cbs[|cbs| - 1].OnChunk? then Some(cbs[|cbs| - 1])
    else LastSignal(cbs[..|cbs| - 1])
  }

  /** The error text after some callbacks: the message of the last `onError`, or `before` if there is none. */
  function ErrorAfter(cbs: seq<Callback>, before: Option<string>): (e: Option<string>)
    ensures (forall k :: 0 <= k < |cbs| ==> !cbs[k].OnError?) ==> e == before
    ensures e != before ==> e.Some? && OnError(e.value) in cbs
  {
    if cbs == [] then before
    else if cbs[|cbs| - 1].OnError? then Some(cbs[|cbs| - 1].message)
    else ErrorAfter(cbs[..|cbs| - 1], before)
  }

  /** `k` is the position of the last `onError` among the callbacks. */
  ghost predicate LastErrorAt(cbs: seq<Callback>, k: int) {
    && 0 <= k < |cbs| && cbs[k].OnError?
    && forall j :: k < j < |cbs| ==> !cbs[j].OnError?
  }

  /** Once any `onError` has been called, the error shown is the message of the last one. */
  lemma {:induction false} ErrorAfterIsLastError(cbs: seq<Callback>, before: Option<string>)
    requires exists k :: 0 <= k < |cbs| && cbs[k].OnError?
    ensures exists k :: LastErrorAt(cbs, k) && ErrorAfter(cbs, before) == Some(cbs[k].message)
  {
    var n := |cbs| - 1;
    if cbs[n].OnError? {
      assert LastErrorAt(cbs, n);
    } else {
      var init := cbs[..n];
      var i :| 0 <= i < |cbs| && cbs[i].OnError?;
      assert i < n && init[i] == cbs[i];
      ErrorAfterIsLastError(init, before);
      var k :| LastErrorAt(init, k) && ErrorAfter(init, before) == Some(init[k].message);
      assert init[k] == cbs[k];
      assert forall j :: k < j < n ==> init[j] == cbs[j];
      assert LastErrorAt(cbs, k);
      assert ErrorAfter(cbs, before) == ErrorAfter(init, before);
    }
  }

  /** The `AbortController` of a request: aborting it only sets its flag. */
  class AbortController {
    var aborted: bool

    constructor()
      ensures !aborted
    {
      aborted := false;
    }

    method Abort()
      modifies this
      ensures aborted
    {
      aborted := true;
    }
  }

  const EmptyCodeMessage: string := "Please enter some code to review"

  class StreamingReview {
    var code: string
    var review: string
    var isStreaming: bool
    var error: Option<string>
    var sessionId: Option<string>
    var streamProgress: int
    var chunks: seq<Chunk>
    var abortHandle: AbortController?

    /** The progress bar is either empty or full: nothing sets it to anything else. */
    predicate Valid()
      reads this
    {
      streamProgress == 0 || streamProgress == 100
    }

    /** The initial state of the hook. */
    constructor()
      ensures Valid()
      ensures code == [] && review == [] && !isStreaming && error == None
      ensures sessionId == None && streamProgress == 0 && chunks == [] && abortHandle == null
    {
      code, review, isStreaming, error := [], [], false, None;
      sessionId, streamProgress, chunks, abortHandle := None, 0, [], null;
    }

    /** `setCode`. */
    method SetCode(c: string)
      modifies this
      ensures code == c
      ensures review == old(review) && isStreaming == old(isStreaming) && error == old(error)
      ensures sessionId == old(sessionId) && streamProgress == old(streamProgress)
      ensures chunks == old(chunks) && abortHandle == old(abortHandle)
    {
      code := c;
    }

    /** `initializeSession`, with the new id (a fresh UUID) given as `freshId`. */
    method InitializeSession(freshId: string) returns (id: string)
      modifies this
      ensures id == freshId && sessionId == Some(freshId)
      ensures code == old(code) && review == old(review) && isStreaming == old(isStreaming)
      ensures error == old(error) && streamProgress == old(streamProgress)
      ensures chunks == old(chunks) && abortHandle == old(abortHandle)
    {
      sessionId := Some(freshId);
      id := freshId;
    }

    /** `handleChunk`: the chunk is always recorded; its text is appended when it has any. */
    method HandleChunk(chunk: Chunk)
      modifies this
      ensures chunks == old(chunks) + [chunk]
      ensures review == old(review) + ChunkAppend(chunk)
      ensures code == old(code) && isStreaming == old(isStreaming) && error == old(error)
      ensures sessionId == old(sessionId) && streamProgress == old(streamProgress)
      ensures abortHandle == old(abortHandle)
    {
      chunks := chunks + [chunk];
      match chunk
      case ChunkRecord(content, delta) =>
        if Truthy(content) {
          review := review + FieldText(content);
        } else if Truthy(delta) {
          review := review + FieldText(delta);
        }
      case ChunkString(text) =>
        review := review + text;
    }

    /** `handleComplete`: streaming stops with full progress; the review is kept. */
    method HandleComplete()
      modifies this
      ensures Valid()
      ensures !isStreaming && streamProgress == 100 && abortHandle == null
      ensures code == old(code) && review == old(review) && error == old(error)
      ensures sessionId == old(sessionId) && chunks == old(chunks)
    {
      isStreaming := false;
      streamProgress := 100;
      if abortHandle != null {
        abortHandle := null;
      }
    }

    /** `handleError`: the message is shown and streaming stops with empty progress. */
    method HandleError(message: string)
      modifies this
      ensures Valid()
      ensures error == Some(message) && !isStreaming && streamProgress == 0 && abortHandle == null
      ensures code == old(code) && review == old(review)
      ensures sessionId == old(sessionId) && chunks == old(chunks)
    {
      error := Some(message);
      isStreaming := false;
      streamProgress := 0;
      if abortHandle != null {
        abortHandle := null;
      }
    }

    /**
     * Delivers the callbacks of a run of the service, in order: the review
     * grows by the chunk text, every chunk is recorded, the last `onError`
     * decides the error, and the last signal that is not a chunk decides
     * whether streaming is still on.
     */
    method DeliverAll(cbs: seq<Callback>)
      requires Valid()
      modifies this
      ensures Valid()
      ensures review == old(review) + ChunkText(cbs)
      ensures chunks == old(chunks) + ChunksOf(cbs)
      ensures error == ErrorAfter(cbs, old(error))
      ensures code == old(code) && sessionId == old(sessionId)
      ensures LastSignal(cbs).None? ==>
        isStreaming == old(isStreaming) && streamProgress == old(streamProgress) && abortHandle == old(abortHandle)
      ensures LastSignal(cbs) == Some(OnComplete) ==> !isStreaming && streamProgress == 100 && abortHandle == null
      ensures LastSignal(cbs).Some? && LastSignal(cbs).value.OnError? ==>
        !isStreaming && streamProgress == 0 && abortHandle == null
    {
      for i := 0 to |cbs|
        invariant Valid()
        invariant review == old(review) + ChunkText(cbs[..i])
        invariant chunks == old(chunks) + ChunksOf(cbs[..i])
        invariant error == ErrorAfter(cbs[..i], old(error))
        invariant code == old(code) && sessionId == old(sessionId)
        invariant LastSignal(cbs[..i]).None? ==>
          isStreaming == old(isStreaming) && streamProgress == old(streamProgress) && abortHandle == old(abortHandle)
        invariant LastSignal(cbs[..i]) == Some(OnComplete) ==> !isStreaming && streamProgress == 100 && abortHandle == null
        invariant LastSignal(cbs[..i]).Some? && LastSignal(cbs[..i]).value.OnError? ==>
          !isStreaming && streamProgress == 0 && abortHandle == null
      {
        assert cbs[..i + 1][..i] == cbs[..i];
        match cbs[i]
        case OnChunk(content) =>
          HandleChunk(ServiceChunk(content));
        case OnComplete =>
          HandleComplete();
        case OnError(message) =>
          HandleError(message);
      }
      assert cbs[..|cbs|] == cbs;
    }

    /**
     * The state part of `startStreaming`: blank code only sets the error;
     * otherwise the session is reused or created, a fresh abort handle is
     * installed and the review, chunks, progress and error are reset.
     */
    method BeginStreaming(codeToReview: string, freshId: string) returns (started: bool, session: string)
      requires Valid()
      modifies this
      ensures Valid()
      ensures started <==> !IsBlank(codeToReview)
      ensures !started ==>
        && error == Some(EmptyCodeMessage)
        && code == old(code) && review == old(review) && isStreaming == old(isStreaming)
        && sessionId == old(sessionId) && streamProgress == old(streamProgress)
        && chunks == old(chunks) && abortHandle == old(abortHandle)
      ensures started && HasSession(old(sessionId)) ==> session == old(sessionId).value && sessionId == old(sessionId)
      ensures started && !HasSession(old(sessionId)) ==> session == freshId && sessionId == Some(freshId)
      ensures started ==>
        && abortHandle != null && fresh(abortHandle) && !abortHandle.aborted
        && isStreaming && error == None && review == [] && chunks == [] && streamProgress == 0
        && code == old(code)
    {
      if IsBlank(codeToReview) {
        error := Some(EmptyCodeMessage);
        return false, [];
      }
      started := true;
      if HasSession(sessionId) {
        session := sessionId.value;
      } else {
        session := InitializeSession(freshId);
      }
      var controller := new AbortController();
      abortHandle := controller;
      isStreaming := true;
      error := None;
      review := [];
      chunks := [];
      streamProgress := 0;
    }

    /**
     * `startStreaming`, run to the end of the stream. `freshId` stands for
     * the UUID a new session would get (never empty); the callbacks the
     * service made are returned as well.
     */
    method StartStreaming(codeToReview: string, freshId: string, response: Response, parse: string -> Parsed)
      returns (started: bool, callbacks: seq<Callback>)
      requires Valid() && freshId != []
      modifies this
      ensures Valid()
      ensures started <==> !IsBlank(codeToReview)
      ensures !started ==>
        && callbacks == [] && error == Some(EmptyCodeMessage)
        && review == old(review) && isStreaming == old(isStreaming) && sessionId == old(sessionId)
        && streamProgress == old(streamProgress) && chunks == old(chunks) && abortHandle == old(abortHandle)
      ensures started ==> sessionId == (if HasSession(old(sessionId)) then old(sessionId) else Some(freshId))
      ensures started ==> review == ChunkText(callbacks) && chunks == ChunksOf(callbacks)
      ensures started ==> error == ErrorAfter(callbacks, None)
      ensures started && ReaderObtained(response) ==>
        callbacks == StreamReads(response.pieces, parse).callbacks + EndCallbacks(response.ending)
      ensures started && ReaderObtained(response) && response.ending.Done? ==>
        !isStreaming && streamProgress == 100 && abortHandle == null
      ensures started && ReaderObtained(response) && response.ending.ReadFailed? && !IsAbort(response.ending.error) ==>
        !isStreaming && streamProgress == 0 && abortHandle == null && error == Some(response.ending.error.message)
      ensures started && !ReaderObtained(response) && !(response.FetchFailed? && IsAbort(response.error)) ==>
        !isStreaming && streamProgress == 0 && abortHandle == null && error.Some?
      ensures started && response.FetchFailed? && IsAbort(response.error) ==> callbacks == [] && error == None
      ensures started && response.FetchFailed? && !IsAbort(response.error) ==>
        callbacks == [OnError(response.error.message)] && error == Some(response.error.message)
      ensures started && response.Response? && !response.ok ==>
        callbacks == [OnError(HttpErrorMessage(response.status))] && error == Some(HttpErrorMessage(response.status))
      ensures started && response.Response? && response.ok && !response.hasBody ==>
        callbacks == [OnError("Response body is not readable")] && error == Some("Response body is not readable")
      ensures code == old(code)
    {
      var session;
      started, session := BeginStreaming(codeToReview, freshId);
      if !started {
        return false, [];
      }
      var requested, released;
      callbacks, requested, released := StreamCodeReview(codeToReview, Some(session), response, parse);
      DeliverAll(callbacks);
    }

    /**
     * The hook's `reviewCodeFallback`: blank code only sets the error;
     * otherwise the session is reused or created, and the review becomes the
     * fallback's text, or the error its message, with streaming off at the end.
     */
    method ReviewCodeFallback(codeToReview: string, freshId: string, response: Response, parse: string -> Parsed)
      returns (started: bool)
      requires Valid() && freshId != []
      modifies this
      ensures Valid()
      ensures started <==> !IsBlank(codeToReview)
      ensures !started ==>
        && error == Some(EmptyCodeMessage)
        && review == old(review) && isStreaming == old(isStreaming) && sessionId == old(sessionId)
      ensures started ==> sessionId == (if HasSession(old(sessionId)) then old(sessionId) else Some(freshId))
      ensures started ==> !isStreaming
      ensures started && ReaderObtained(response) && response.ending.Done? ==>
        review == FallbackReads(response.pieces, parse).text && error == None
      ensures started && response.FetchFailed? ==> review == [] && error == Some(response.error.message)
      ensures started && response.Response? && !response.ok ==>
        review == [] && error == Some(HttpErrorMessage(response.status))
      ensures started && response.Response? && response.ok && !response.hasBody ==>
        review == [] && error == Some("Response body is not readable")
      ensures started && ReaderObtained(response) && response.ending.ReadFailed? ==>
        review == [] && error == Some(response.ending.error.message)
      ensures code == old(code) && chunks == old(chunks) && streamProgress == old(streamProgress)
      ensures abortHandle == old(abortHandle)
    {
      if IsBlank(codeToReview) {
        error := Some(EmptyCodeMessage);
        return false;
      }
      started := true;
      if !HasSession(sessionId) {
        var _ := InitializeSession(freshId);
      }
      isStreaming := true;
      error := None;
      review := [];
      var result, released := StreamingService.ReviewCodeFallback(response, parse);
      match result {
        case Success(text) =>
          review := text;
        case Failure(e) =>
          error := Some(e.message);
      }
      isStreaming := false;
    }

    /** `stopStreaming`: aborts and drops the handle, stops streaming, empties progress; the review and chunks stay. */
    method StopStreaming()
      modifies this, abortHandle
      ensures Valid()
      ensures old(abortHandle) != null ==> old(abortHandle).aborted
      ensures abortHandle == null && !isStreaming && streamProgress == 0
      ensures code == old(code) && review == old(review) && error == old(error)
      ensures sessionId == old(sessionId) && chunks == old(chunks)
    {
      if abortHandle != null {
        abortHandle.Abort();
        abortHandle := null;
      }
      isStreaming := false;
      streamProgress := 0;
    }

    /** `clearAll`: everything back to the initial state, aborting a running request. */
    method ClearAll()
      modifies this, abortHandle
      ensures Valid()
      ensures old(abortHandle) != null ==> old(abortHandle).aborted
      ensures code == [] && review == [] && error == None && chunks == [] && streamProgress == 0
      ensures sessionId == None && abortHandle == null && !isStreaming
    {
      code := [];
      review := [];
      error := None;
      chunks := [];
      streamProgress := 0;
      sessionId := None;
      if abortHandle != null {
        abortHandle.Abort();
        abortHandle := null;
      }
      isStreaming := false;
    }

    /** `clearReview`: review, error, chunks and progress are reset; code, session and streaming are kept. */
    method ClearReview()
      modifies this
      ensures Valid()
      ensures review == [] && error == None && chunks == [] && streamProgress == 0
      ensures code == old(code) && sessionId == old(sessionId) && isStreaming == old(isStreaming)
      ensures abortHandle == old(abortHandle)
    {
      review := [];
      error := None;
      chunks := [];
      streamProgress := 0;
    }
  }
}
