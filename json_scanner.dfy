/**
 * The brace scanner `extractJsonObjects` of the streaming service. It walks a
 * text buffer one character at a time, tracking the nesting depth of `{`/`}`,
 * whether it is inside a double-quoted string and whether an escape is pending,
 * and cuts the buffer into the back-to-back JSON objects it holds. The string
 * and escape rules are those of section 7 of RFC 8259.
 *
 * The specification is given by functions over prefixes of the input:
 * `LexAt(input, n)` is the lexical state after `n` characters and
 * `ScanAt(input, n)` the open-object start and the closed-object spans after
 * `n` characters. `TopLevelObject` characterises, independently of the
 * scanner's bookkeeping, which slices are complete top-level objects, and
 * `ObjectsAreTopLevelObjects` proves the scanner returns exactly those, in order.
 */
module JsonScanner {
  import opened JsStrings

  /** Lexical state: nesting depth, inside a string, escape pending. */
  datatype Lex = Lex(depth: int, inString: bool, escape: bool)

  const Outside: Lex := Lex(0, false, false)

  /** One character of the scan loop, as far as depth and string state go. */
  function LexStep(l: Lex, ch: char): Lex {
    if l.inString then
      if l.escape then l.(escape := false)
      else if ch == '\\' then l.(escape := true)
      else if ch == '"' then l.(inString := false)
      else l
    else if ch == '"' then l.(inString := true)
    else if ch == '{' then l.(depth := l.depth + 1)
    else if ch == '}' then l.(depth := l.depth - 1)
    else l
  }

  /** The lexical state after the first `n` characters of `input`. */
  function LexAt(input: string, n: nat): Lex
    requires n <= |input|
  {
    if n == 0 then Outside else LexStep(LexAt(input, n - 1), input[n - 1])
  }

  /** The lexical state reached from `l` by reading `s`. */
  function LexRun(l: Lex, s: string): Lex
    decreases |s|
  {
    if s == [] then l else LexRun(LexStep(l, s[0]), s[1..])
  }

  /** The half-open slice `input[lo..hi]` of a closed object. */
  datatype Span = Span(lo: int, hi: int)

  /** Scanner bookkeeping: where the open top-level object starts (-1 if none) and the closed ones. */
  datatype Scan = Scan(start: int, spans: seq<Span>)

  /** One character of the scan loop, as far as `start` and the results go; `l` is the state before `ch`. */
  function ScanStep(st: Scan, l: Lex, i: int, ch: char): Scan {
    if l.inString || ch == '"' then st
    else if ch == '{' then
      if l.depth == 0 then st.(start := i) else st
    else if ch == '}' then
      if l.depth - 1 == 0 && st.start != -1 then Scan(-1, st.spans + [Span(st.start, i + 1)]) else st
    else st
  }

  /** The scanner bookkeeping after the first `n` characters of `input`. */
  function ScanAt(input: string, n: nat): (st: Scan)
    requires n <= |input|
    ensures -1 <= st.start < n
    ensures forall k :: 0 <= k < |st.spans| ==> 0 <= st.spans[k].lo < st.spans[k].hi <= n
  {
    if n == 0 then Scan(-1, [])
    else ScanStep(ScanAt(input, n - 1), LexAt(input, n - 1), n - 1, input[n - 1])
  }

  predicate SpansWithin(spans: seq<Span>, n: int) {
    forall k :: 0 <= k < |spans| ==> 0 <= spans[k].lo <= spans[k].hi <= n
  }

  function Slices(input: string, spans: seq<Span>): seq<string>
    requires SpansWithin(spans, |input|)
  {
    seq(|spans|, k requires 0 <= k < |spans| => input[spans[k].lo..spans[k].hi])
  }

  /** The objects `extractJsonObjects` returns for `input`. */
  function Objects(input: string): seq<string> {
    Slices(input, ScanAt(input, |input|).spans)
  }

  /** The leftover of the streaming copy: the open object, else the text after the last occurrence of the last object, else nothing. */
  function StreamLeftover(input: string): string {
    var l := LexAt(input, |input|);
    var st := ScanAt(input, |input|);
    var objs := Objects(input);
    if l.depth > 0 && st.start != -1 then input[st.start..]
    else if l.depth == 0 then
      var consumed :=
        if |objs| > 0 then
          var lastIndex := LastIndexOf(input, objs[|objs| - 1]);
          if lastIndex != -1 then lastIndex + |objs[|objs| - 1]| else 0
        else 0;
      input[consumed..]
    else []
  }

  /** The leftover of the fallback copy: the open object, else the text after the last occurrence of the last object, else the whole input. */
  function FallbackLeftover(input: string): string {
    var l := LexAt(input, |input|);
    var st := ScanAt(input, |input|);
    var objs := Objects(input);
    if l.depth > 0 && st.start != -1 then input[st.start..]
    else if |objs| > 0 then
      var lastIndex := LastIndexOf(input, objs[|objs| - 1]);
      if lastIndex != -1 then input[lastIndex + |objs[|objs| - 1]|..] else []
    else input
  }

  /** The scan loop shared by both copies of `extractJsonObjects`. */
  method ScanBraces(input: string) returns (objects: seq<string>, start: int, depth: int)
    ensures objects == Objects(input)
    ensures start == ScanAt(input, |input|).start
    ensures depth == LexAt(input, |input|).depth
  {
    objects := [];
    var i := 0;
    start := -1;
    depth := 0;
    var inString := false;
    var escape := false;
    while i < |input|
      invariant 0 <= i <= |input|
      invariant Lex(depth, inString, escape) == LexAt(input, i)
      invariant start == ScanAt(input, i).start
      invariant objects == Slices(input, ScanAt(input, i).spans)
    {
      var ch := input[i];
      if inString {
        if escape {
          escape := false;
        } else if ch == '\\' {
          escape := true;
        } else if ch == '"' {
          inString := false;
        }
      } else {
        if ch == '"' {
          inString := true;
        } else if ch == '{' {
          if depth == 0 {
            start := i;
          }
          depth := depth + 1;
        } else if ch == '}' {
          depth := depth - 1;
          if depth == 0 && start != -1 {
            ghost var spans := ScanAt(input, i).spans;
            assert Slices(input, spans + [Span(start, i + 1)]) == Slices(input, spans) + [input[start..i + 1]];
            objects := objects + [input[start..i + 1]];
            start := -1;
          }
        }
      }
      i := i + 1;
    }
  }

  /** `extractJsonObjects` of the streaming read loop. */
  method ExtractJsonObjects(input: string) returns (objects: seq<string>, leftover: string)
    ensures objects == Objects(input)
    ensures leftover == StreamLeftover(input)
  {
    var start, depth;
    objects, start, depth := ScanBraces(input);
    leftover := [];
    if depth > 0 && start != -1 {
      leftover := input[start..];
    } else if depth == 0 {
      var consumedLen := 0;
      if |objects| > 0 {
        var lastStr := objects[|objects| - 1];
        var lastIndex := LastIndexOf(input, lastStr);
        if lastIndex != -1 {
          consumedLen := lastIndex + |lastStr|;
        }
      }
      leftover := input[consumedLen..];
    }
  }

  /** `extractJsonObjects` of the non-streaming fallback, which differs only in its leftover. */
  method ExtractJsonObjectsFallback(input: string) returns (objects: seq<string>, leftover: string)
    ensures objects == Objects(input)
    ensures leftover == FallbackLeftover(input)
  {
    var start, depth;
    objects, start, depth := ScanBraces(input);
    leftover := [];
    if depth > 0 && start != -1 {
      leftover := input[start..];
    } else if |objects| > 0 {
      var lastStr := objects[|objects| - 1];
      var lastIndex := LastIndexOf(input, lastStr);
      if lastIndex != -1 {
        leftover := input[lastIndex + |lastStr|..];
      }
    } else {
      leftover := input;
    }
  }

  // ---------------------------------------------------------------------------
  // What the scanner computes
  // ---------------------------------------------------------------------------

  /**
   * `input[lo..hi]` is one complete top-level object: its `{` is read at depth 0
   * outside any string, and the depth first returns to 0 on its last character,
   * a `}`.
   */
  ghost predicate TopLevelObject(input: string, lo: int, hi: int) {
    && 0 <= lo < hi <= |input|
    && input[lo] == '{' && input[hi - 1] == '}'
    && LexAt(input, lo).depth == 0 && !LexAt(input, lo).inString
    && LexAt(input, hi).depth == 0
    && forall j :: lo < j < hi ==> LexAt(input, j).depth > 0
  }

  /** A top-level object opened at `lo` that is still open after the first `n` characters. */
  ghost predicate OpenObject(input: string, lo: int, n: int) {
    && 0 <= lo < n <= |input|
    && input[lo] == '{'
    && LexAt(input, lo).depth == 0 && !LexAt(input, lo).inString
    && forall j :: lo < j <= n ==> LexAt(input, j).depth > 0
  }

  /** Spans in left-to-right order, none overlapping the next. */
  ghost predicate Ordered(spans: seq<Span>) {
    forall a, b :: 0 <= a < b < |spans| ==> spans[a].hi <= spans[b].lo
  }

  /** An object is open exactly when the depth is positive, and every closed span ends before it. */
  ghost predicate StartInv(input: string, n: nat)
    requires n <= |input|
  {
    var l := LexAt(input, n);
    var st := ScanAt(input, n);
    && (st.start != -1 <==> l.depth > 0)
    && (st.start != -1 ==> OpenObject(input, st.start, n))
    && (st.start != -1 ==> forall k :: 0 <= k < |st.spans| ==> st.spans[k].hi <= st.start)
  }

  /** Every closed span is a complete top-level object. */
  ghost predicate SpansSound(input: string, n: nat)
    requires n <= |input|
  {
    var spans := ScanAt(input, n).spans;
    forall k :: 0 <= k < |spans| ==> TopLevelObject(input, spans[k].lo, spans[k].hi)
  }

  /** Every complete top-level object read so far has a span. */
  ghost predicate SpansComplete(input: string, n: nat)
    requires n <= |input|
  {
    forall lo, hi :: hi <= n && TopLevelObject(input, lo, hi) ==> Span(lo, hi) in ScanAt(input, n).spans
  }

  /** What holds of the scanner after every prefix. */
  ghost predicate ScanInv(input: string, n: nat)
    requires n <= |input|
  {
    && (!LexAt(input, n).inString ==> !LexAt(input, n).escape)
    && StartInv(input, n)
    && Ordered(ScanAt(input, n).spans)
    && SpansSound(input, n)
    && SpansComplete(input, n)
  }

  /** Reading one more character either changes nothing in the results or closes the open object. */
  lemma ScanStepShape(input: string, n: nat)
    requires n < |input| && StartInv(input, n)
    ensures var st, st' := ScanAt(input, n), ScanAt(input, n + 1);
      || st'.spans == st.spans
      || (st.start != -1 && input[n] == '}' && LexAt(input, n + 1).depth == 0
          && st' == Scan(-1, st.spans + [Span(st.start, n + 1)]))
  {
  }

  lemma StartInvStep(input: string, n: nat)
    requires n < |input| && StartInv(input, n)
    ensures StartInv(input, n + 1)
  {
    var l := LexAt(input, n);
    var st, st' := ScanAt(input, n), ScanAt(input, n + 1);
    if st'.start != -1 {
      if st'.start == n {
        assert OpenObject(input, n, n + 1);
      } else {
        assert st'.start == st.start && l.depth > 0;
        assert OpenObject(input, st.start, n + 1);
      }
    }
  }

  lemma OrderedStep(input: string, n: nat)
    requires n < |input| && StartInv(input, n) && Ordered(ScanAt(input, n).spans)
    ensures Ordered(ScanAt(input, n + 1).spans)
  {
    ScanStepShape(input, n);
  }

  lemma SpansSoundStep(input: string, n: nat)
    requires n < |input| && StartInv(input, n) && SpansSound(input, n)
    ensures SpansSound(input, n + 1)
  {
    var st, st' := ScanAt(input, n), ScanAt(input, n + 1);
    ScanStepShape(input, n);
    if st'.spans != st.spans {
      assert TopLevelObject(input, st.start, n + 1);
    }
  }

  lemma SpansCompleteStep(input: string, n: nat)
    requires n < |input| && StartInv(input, n) && SpansComplete(input, n)
    ensures SpansComplete(input, n + 1)
  {
    var l := LexAt(input, n);
    var st, st' := ScanAt(input, n), ScanAt(input, n + 1);
    assert st.spans <= st'.spans;
    forall lo, hi | hi <= n + 1 && TopLevelObject(input, lo, hi)
      ensures Span(lo, hi) in st'.spans
    {
      if hi == n + 1 {
        assert lo < n;
        assert l.depth > 0;
        assert st.start == lo;
        assert st'.spans == st.spans + [Span(lo, n + 1)];
      }
    }
  }

  lemma {:induction false} ScanInvStep(input: string, n: nat)
    requires n < |input| && ScanInv(input, n)
    ensures ScanInv(input, n + 1)
  {
    StartInvStep(input, n);
    OrderedStep(input, n);
    SpansSoundStep(input, n);
    SpansCompleteStep(input, n);
  }

  lemma {:induction false} ScanInvAll(input: string, n: nat)
    requires n <= |input|
    ensures ScanInv(input, n)
  {
    if n > 0 {
      ScanInvAll(input, n - 1);
      ScanInvStep(input, n - 1);
    }
  }

  /**
   * Every object returned is the slice of `input` of a complete top-level
   * object, starting with `{` and ending with its matching `}`; the objects come
   * back left to right without overlapping; and every complete top-level object
   * of `input` is returned.
   */
  lemma ObjectsAreTopLevelObjects(input: string)
    ensures var spans := ScanAt(input, |input|).spans;
      && |Objects(input)| == |spans|
      && Ordered(spans)
      && (forall k :: 0 <= k < |spans| ==>
            && TopLevelObject(input, spans[k].lo, spans[k].hi)
            && Objects(input)[k] == input[spans[k].lo..spans[k].hi]
            && Objects(input)[k][0] == '{'
            && Objects(input)[k][|Objects(input)[k]| - 1] == '}')
      && (forall lo, hi :: TopLevelObject(input, lo, hi) ==> Span(lo, hi) in spans)
  {
    ScanInvAll(input, |input|);
  }

  /**
   * When the scan ends inside an object, the leftover of both copies is exactly
   * the suffix from that object's opening `{`, and no returned object reaches
   * into it.
   */
  lemma UnfinishedObjectIsKept(input: string)
    requires LexAt(input, |input|).depth > 0
    ensures var st := ScanAt(input, |input|);
      && st.start != -1
      && OpenObject(input, st.start, |input|)
      && StreamLeftover(input) == input[st.start..]
      && FallbackLeftover(input) == input[st.start..]
      && forall k :: 0 <= k < |st.spans| ==> st.spans[k].hi <= st.start
  {
    ScanInvAll(input, |input|);
  }

  /**
   * When the scan ends at depth 0, both copies agree: with no object the leftover
   * is the whole input; otherwise it is a suffix of the text after the last
   * object, and all of that text exactly when the last object's text does not
   * occur again further right (`lastIndexOf` finds the last occurrence, not the
   * object's own position).
   */
  lemma LeftoverAtDepthZero(input: string)
    requires LexAt(input, |input|).depth == 0
    ensures FallbackLeftover(input) == StreamLeftover(input)
    ensures var spans := ScanAt(input, |input|).spans;
      && (spans == [] ==> StreamLeftover(input) == input)
      && (spans != [] ==> var last := spans[|spans| - 1]; SuffixAfterObject(input, last.lo, last.hi, StreamLeftover(input)))
  {
    if ScanAt(input, |input|).spans != [] {
      LastObjectLeftoverHolds(input);
      LastObjectLeftoversAgree(input);
    } else {
      NoObjectLeftover(input);
    }
  }

  /** At depth 0 with an object found, the streaming copy keeps a suffix of the text after the last object. */
  lemma LastObjectLeftoverHolds(input: string)
    requires LexAt(input, |input|).depth == 0 && ScanAt(input, |input|).spans != []
    ensures var spans := ScanAt(input, |input|).spans;
      var last := spans[|spans| - 1];
      SuffixAfterObject(input, last.lo, last.hi, StreamLeftover(input))
  {
    var spans := ScanAt(input, |input|).spans;
    var last := spans[|spans| - 1];
    var li := AfterLastObject(input);
    StreamLeftoverAt(input, li);
    SuffixAfter(input, last.lo, last.hi, li, StreamLeftover(input));
  }

  /** At depth 0 with an object found, both copies keep the text after the last occurrence of the last object. */
  lemma LastObjectLeftoversAgree(input: string)
    requires LexAt(input, |input|).depth == 0 && ScanAt(input, |input|).spans != []
    ensures FallbackLeftover(input) == StreamLeftover(input)
  {
    var spans := ScanAt(input, |input|).spans;
    var last := spans[|spans| - 1];
    var li := AfterLastObject(input);
    StreamLeftoverAt(input, li);
    FallbackLeftoverAt(input, li);
  }

  /** The text `input[lo..hi]` does not occur again anywhere right of `lo`. */
  ghost predicate NoLaterOccurrence(input: string, lo: int, hi: int)
    requires 0 <= lo <= hi <= |input|
  {
    forall j :: lo < j ==> !OccursAt(input, input[lo..hi], j)
  }

  /**
   * `left` is a suffix of the text after `input[lo..hi]`, and all of it exactly
   * when that text does not occur again further right.
   */
  ghost predicate SuffixAfterObject(input: string, lo: int, hi: int, left: string)
    requires 0 <= lo <= hi <= |input|
  {
    var tail := input[hi..];
    && |left| <= |tail| && left == tail[|tail| - |left|..]
    && (left == tail <==> NoLaterOccurrence(input, lo, hi))
  }

  /** With no object found at depth 0, both copies keep the whole input. */
  lemma NoObjectLeftover(input: string)
    requires LexAt(input, |input|).depth == 0 && ScanAt(input, |input|).spans == []
    ensures StreamLeftover(input) == input && FallbackLeftover(input) == input
  {
    assert Objects(input) == [];
  }

  /** Cutting a text at or after the end of a slice leaves a suffix of the text after the slice. */
  lemma SuffixAfter(input: string, lo: int, hi: int, li: int, left: string)
    requires 0 <= lo <= li && lo < hi && li + (hi - lo) <= |input|
    requires li == lo <==> NoLaterOccurrence(input, lo, hi)
    requires left == input[li + (hi - lo)..]
    ensures SuffixAfterObject(input, lo, hi, left)
  {
    var tail := input[hi..];
    assert |left| == |input| - li - (hi - lo) && |tail| == |input| - hi;
    assert left == tail[|tail| - |left|..];
  }

  /** The streaming leftover at depth 0 when `lastIndexOf` finds the last object at `li`. */
  lemma StreamLeftoverAt(input: string, li: int)
    requires LexAt(input, |input|).depth == 0 && ScanAt(input, |input|).spans != []
    requires var spans := ScanAt(input, |input|).spans;
      var last := spans[|spans| - 1];
      var objs := Objects(input);
      && objs != [] && objs[|objs| - 1] == input[last.lo..last.hi]
      && li == LastIndexOf(input, input[last.lo..last.hi])
      && last.lo <= li && li + (last.hi - last.lo) <= |input|
    ensures var spans := ScanAt(input, |input|).spans;
      var last := spans[|spans| - 1];
      StreamLeftover(input) == input[li + (last.hi - last.lo)..]
  {
  }

  /** The fallback leftover at depth 0 when `lastIndexOf` finds the last object at `li`. */
  lemma FallbackLeftoverAt(input: string, li: int)
    requires LexAt(input, |input|).depth == 0 && ScanAt(input, |input|).spans != []
    requires var spans := ScanAt(input, |input|).spans;
      var last := spans[|spans| - 1];
      var objs := Objects(input);
      && objs != [] && objs[|objs| - 1] == input[last.lo..last.hi]
      && li == LastIndexOf(input, input[last.lo..last.hi])
      && last.lo <= li && li + (last.hi - last.lo) <= |input|
    ensures var spans := ScanAt(input, |input|).spans;
      var last := spans[|spans| - 1];
      FallbackLeftover(input) == input[li + (last.hi - last.lo)..]
  {
  }

  /** Unless a stray `}` drove the depth below zero, the two copies keep the same leftover. */
  lemma LeftoversAgree(input: string)
    requires LexAt(input, |input|).depth >= 0
    ensures FallbackLeftover(input) == StreamLeftover(input)
  {
    if LexAt(input, |input|).depth > 0 {
      UnfinishedObjectIsKept(input);
    } else {
      LeftoverAtDepthZero(input);
    }
  }

  /** Where `lastIndexOf` finds the last object: never left of the object itself. */
  lemma AfterLastObject(input: string) returns (li: int)
    requires ScanAt(input, |input|).spans != []
    ensures var spans := ScanAt(input, |input|).spans;
      var last := spans[|spans| - 1];
      var objs := Objects(input);
      && objs != [] && objs[|objs| - 1] == input[last.lo..last.hi]
      && li == LastIndexOf(input, input[last.lo..last.hi])
      && last.lo <= li && li + (last.hi - last.lo) <= |input|
      && (li == last.lo <==> NoLaterOccurrence(input, last.lo, last.hi))
  {
    var spans := ScanAt(input, |input|).spans;
    var last := spans[|spans| - 1];
    var needle := input[last.lo..last.hi];
    assert OccursAt(input, needle, last.lo);
    li := LastIndexOf(input, needle);
  }

  /**
   * When a stray `}` leaves the depth negative, the streaming copy keeps nothing,
   * while the fallback copy keeps the whole input if no object was found and
   * otherwise a suffix of the text after the last object.
   */
  lemma LeftoverAtNegativeDepth(input: string)
    requires LexAt(input, |input|).depth < 0
    ensures StreamLeftover(input) == []
    ensures var spans := ScanAt(input, |input|).spans;
      && (spans == [] ==> FallbackLeftover(input) == input)
      && (spans != [] ==>
            var tail := input[spans[|spans| - 1].hi..];
            var left := FallbackLeftover(input);
            |left| <= |tail| && left == tail[|tail| - |left|..])
  {
    var spans := ScanAt(input, |input|).spans;
    if spans != [] {
      var li := AfterLastObject(input);
    }
  }

  /** A stray closing brace: the two copies of `extractJsonObjects` keep different leftovers. */
  lemma StrayBraceLeftovers()
    ensures Objects("}x") == []
    ensures StreamLeftover("}x") == []
    ensures FallbackLeftover("}x") == "}x"
  {
    assert LexAt("}x", 2).depth == -1;
  }

  /**
   * The leftover found through `lastIndexOf` can be shorter than the text after
   * the last object: here the last object `{}` recurs inside a trailing string,
   * so only the closing quote is kept instead of `"{}"`.
   */
  lemma LastIndexOfSkipsRepeatedText()
    ensures Objects("{}\"{}\"") == ["{}"]
    ensures StreamLeftover("{}\"{}\"") == "\""
  {
    var input := "{}\"{}\"";
    assert LexAt(input, 6) == Outside;
    assert ScanAt(input, 6) == Scan(-1, [Span(0, 2)]);
    assert input[0..2] == "{}";
    assert Objects(input) == ["{}"];
    assert OccursAt(input, "{}", 3);
    assert !OccursAt(input, "{}", 4);
    assert LastIndexOf(input, "{}") == 3;
  }

  // ---------------------------------------------------------------------------
  // Strings and escapes
  // ---------------------------------------------------------------------------

  /**
   * The characters between the quotes of a string, as the scanner sees them: no
   * bare `"`, and every `\` followed by one more character. Every string body
   * allowed by section 7 of RFC 8259 is one.
   */
  ghost predicate StringBody(b: string)
    decreases |b|
  {
    || b == []
    || (b[0] == '\\' && |b| >= 2 && StringBody(b[2..]))
    || (b[0] != '\\' && b[0] != '"' && StringBody(b[1..]))
  }

  lemma {:induction false} StringBodyStaysInString(m: Lex, b: string)
    requires m.inString && !m.escape && StringBody(b)
    ensures LexRun(m, b) == m
    ensures forall j :: 0 <= j <= |b| ==> LexRun(m, b[..j]).inString && LexRun(m, b[..j]).depth == m.depth
    decreases |b|
  {
    if b != [] {
      if b[0] == '\\' {
        var m' := LexStep(m, b[0]);
        assert LexStep(m', b[1]) == m;
        StringBodyStaysInString(m, b[2..]);
        assert LexRun(m, b) == LexRun(m, b[2..]);
        forall j | 0 <= j <= |b|
          ensures LexRun(m, b[..j]).inString && LexRun(m, b[..j]).depth == m.depth
        {
          if j >= 2 {
            assert b[..j][1..][1..] == b[2..][..j - 2];
          } else if j == 1 {
            assert b[..j][1..] == [];
          }
        }
      } else {
        assert LexStep(m, b[0]) == m;
        StringBodyStaysInString(m, b[1..]);
        forall j | 0 <= j <= |b|
          ensures LexRun(m, b[..j]).inString && LexRun(m, b[..j]).depth == m.depth
        {
          if j >= 1 {
            assert b[..j][1..] == b[1..][..j - 1];
          }
        }
      }
    }
  }

  /**
   * Reading a whole string literal `"b"` from outside any string leaves the
   * lexical state as it was, and the depth never changes inside it: braces in a
   * string are not counted, and an escaped quote does not end the string.
   */
  lemma QuotedStringKeepsDepth(l: Lex, b: string)
    requires !l.inString && !l.escape && StringBody(b)
    ensures var lit := ['"'] + b + ['"'];
      && LexRun(l, lit) == l
      && forall j :: 0 <= j <= |lit| ==> LexRun(l, lit[..j]).depth == l.depth
  {
    var lit := ['"'] + b + ['"'];
    var m := l.(inString := true);
    StringBodyStaysInString(m, b);
    LexRunAppend(m, b, ['"']);
    assert lit[1..] == b + ['"'];
    forall j | 0 <= j <= |lit|
      ensures LexRun(l, lit[..j]).depth == l.depth
    {
      if 1 <= j <= |b| + 1 {
        assert lit[..j][1..] == b[..j - 1];
      } else if j == |lit| {
        assert lit[..j] == lit;
      }
    }
  }

  lemma {:induction false} LexRunAppend(l: Lex, s: string, t: string)
    ensures LexRun(l, s + t) == LexRun(LexRun(l, s), t)
    decreases |s|
  {
    if s != [] {
      assert (s + t)[0] == s[0];
      assert (s + t)[1..] == s[1..] + t;
      LexRunAppend(LexStep(l, s[0]), s[1..], t);
      assert LexRun(l, s + t) == LexRun(LexStep(l, s[0]), s[1..] + t);
    } else {
      assert s + t == t;
    }
  }

  /** The state after `m + j` characters is the state after `m` characters run over the next `j`. */
  lemma {:induction false} LexAtIsRun(input: string, m: nat, j: nat)
    requires m + j <= |input|
    ensures LexAt(input, m + j) == LexRun(LexAt(input, m), input[m..m + j])
  {
    if j > 0 {
      LexAtIsRun(input, m, j - 1);
      LexRunAppend(LexAt(input, m), input[m..m + j - 1], [input[m + j - 1]]);
      assert input[m..m + j] == input[m..m + j - 1] + [input[m + j - 1]];
    }
  }

  /**
   * A string literal that the scanner meets outside any string leaves depth and
   * string state unchanged, and no brace inside it moves the depth.
   */
  lemma QuotedBracesIgnored(input: string, m: nat, b: string)
    requires StringBody(b) && m + |b| + 2 <= |input|
    requires input[m..m + |b| + 2] == ['"'] + b + ['"']
    requires !LexAt(input, m).inString
    ensures LexAt(input, m + |b| + 2) == LexAt(input, m)
    ensures forall j :: m <= j <= m + |b| + 2 ==> LexAt(input, j).depth == LexAt(input, m).depth
  {
    ScanInvAll(input, m);
    var lit := ['"'] + b + ['"'];
    QuotedStringKeepsDepth(LexAt(input, m), b);
    LexAtIsRun(input, m, |lit|);
    forall j | m <= j <= m + |lit|
      ensures LexAt(input, j).depth == LexAt(input, m).depth
    {
      LexAtIsRun(input, m, j - m);
      assert input[m..j] == lit[..j - m];
    }
  }

  // ---------------------------------------------------------------------------
  // Back-to-back objects
  // ---------------------------------------------------------------------------

  /** Objects written one after the other with nothing between them. */
  function Concat(objs: seq<string>): string {
    if objs == [] then [] else Concat(objs[..|objs| - 1]) + objs[|objs| - 1]
  }

  /** The text of two runs of pieces is the text of each run, in order. */
  lemma {:induction false} ConcatAppend(a: seq<string>, b: seq<string>)
    ensures Concat(a + b) == Concat(a) + Concat(b)
    decreases |b|
  {
    if b != [] {
      var b' := b[..|b| - 1];
      assert (a + b)[..|a + b| - 1] == a + b';
      ConcatAppend(a, b');
    } else {
      assert a + b == a;
    }
  }

  /** Back-to-back text starts where its first piece starts. */
  lemma {:induction false} ConcatStartsWithFirst(objs: seq<string>)
    requires objs != [] && objs[0] != []
    ensures Concat(objs) != [] && Concat(objs)[0] == objs[0][0]
  {
    if |objs| > 1 {
      ConcatStartsWithFirst(objs[..|objs| - 1]);
    } else {
      assert Concat(objs) == Concat([]) + objs[0];
    }
  }

  lemma {:induction false} PrefixScan(a: string, b: string, n: nat)
    requires n <= |a|
    ensures LexAt(a + b, n) == LexAt(a, n) && ScanAt(a + b, n) == ScanAt(a, n)
  {
    if n > 0 {
      PrefixScan(a, b, n - 1);
      assert (a + b)[n - 1] == a[n - 1];
    }
  }

  /** `spans` moved right by `off`. */
  function ShiftSpans(spans: seq<Span>, off: int): seq<Span> {
    if spans == [] then []
    else
      var last := spans[|spans| - 1];
      ShiftSpans(spans[..|spans| - 1], off) + [Span(last.lo + off, last.hi + off)]
  }

  /** Scanner bookkeeping for text read after a prefix of `off` characters that closed the spans `before`. */
  function Shift(st: Scan, off: nat, before: seq<Span>): Scan {
    Scan(if st.start == -1 then -1 else st.start + off, before + ShiftSpans(st.spans, off))
  }

  lemma ShiftStep(st: Scan, l: Lex, i: nat, ch: char, off: nat, before: seq<Span>)
    requires -1 <= st.start
    ensures ScanStep(Shift(st, off, before), l, i + off, ch) == Shift(ScanStep(st, l, i, ch), off, before)
  {
    assert (st.spans + [Span(st.start, i + 1)])[..|st.spans|] == st.spans;
  }

  /** Text `b` read from offset `off` of `c`, where `c` is outside every object, is lexed as if on its own. */
  lemma {:induction false} LexAfter(c: string, off: nat, b: string, j: nat)
    requires off + |b| <= |c| && c[off..off + |b|] == b
    requires LexAt(c, off) == Outside && j <= |b|
    ensures LexAt(c, off + j) == LexAt(b, j)
  {
    if j > 0 {
      LexAfter(c, off, b, j - 1);
      assert c[off + j - 1] == c[off..off + |b|][j - 1];
    }
  }

  /** Text `b` read from offset `off` of `c`, where no object is open, is scanned as if on its own. */
  lemma {:induction false} ScanAfter(c: string, off: nat, b: string, j: nat)
    requires off + |b| <= |c| && c[off..off + |b|] == b
    requires LexAt(c, off) == Outside && ScanAt(c, off).start == -1 && j <= |b|
    ensures ScanAt(c, off + j) == Shift(ScanAt(b, j), off, ScanAt(c, off).spans)
  {
    if j == 0 {
      assert ShiftSpans([], off) == [];
    } else {
      ScanAfter(c, off, b, j - 1);
      LexAfter(c, off, b, j - 1);
      assert c[off + j - 1] == c[off..off + |b|][j - 1];
      ScanStepAfter(c, b, off, j, ScanAt(c, off).spans);
    }
  }

  /** One scan step over text `b` read after `off` characters keeps the scanner shifted by `off`. */
  lemma ScanStepAfter(c: string, b: string, off: nat, j: nat, before: seq<Span>)
    requires 0 < j <= |b| && off + j <= |c| && c[off + j - 1] == b[j - 1]
    requires ScanAt(c, off + (j - 1)) == Shift(ScanAt(b, j - 1), off, before)
    requires LexAt(c, off + (j - 1)) == LexAt(b, j - 1)
    ensures ScanAt(c, off + j) == Shift(ScanAt(b, j), off, before)
  {
    ShiftStep(ScanAt(b, j - 1), LexAt(b, j - 1), j - 1, b[j - 1], off, before);
  }

  /** Spans of nonempty slices cannot all end at offset 0 unless there are none. */
  lemma NoSpanEndsAtStart(spans: seq<Span>)
    ensures (forall k :: 0 <= k < |spans| ==> 0 <= spans[k].lo < spans[k].hi <= 0) ==> spans == []
  {
    if spans != [] {
      assert spans[0] in spans;
    }
  }

  lemma OrderedFirstTwo(spans: seq<Span>)
    ensures Ordered(spans) && |spans| > 1 ==> spans[0].hi <= spans[1].lo
  {
  }

  /** The only complete top-level object inside a balanced object is the whole of it. */
  lemma OnlyObjectOfBalanced(o: string, lo: int, hi: int)
    requires Balanced(o) && TopLevelObject(o, lo, hi)
    ensures lo == 0 && hi == |o|
  {
  }

  /** One balanced object on its own is returned whole and leaves the scanner outside. */
  lemma SingleObjectScan(o: string)
    requires Balanced(o)
    ensures LexAt(o, |o|) == Outside
    ensures ScanAt(o, |o|) == Scan(-1, [Span(0, |o|)])
  {
    ScanInvAll(o, |o|);
    var spans := ScanAt(o, |o|).spans;
    assert Span(0, |o|) in spans;
    forall k | 0 <= k < |spans|
      ensures spans[k] == Span(0, |o|)
    {
      OnlyObjectOfBalanced(o, spans[k].lo, spans[k].hi);
    }
    if |spans| > 1 {
      OrderedFirstTwo(spans);
      assert false;
    }
    assert |o| >= 2 && LexAt(o, |o| - 1).depth > 0;
  }

  lemma SlicesExtend(a: string, o: string, before: seq<Span>)
    requires SpansWithin(before, |a|)
    ensures SpansWithin(before + [Span(|a|, |a| + |o|)], |a + o|)
    ensures Slices(a + o, before + [Span(|a|, |a| + |o|)]) == Slices(a, before) + [o]
  {
    var c := a + o;
    assert c[..|a|] == a;
    forall k | 0 <= k < |before|
      ensures c[before[k].lo..before[k].hi] == a[before[k].lo..before[k].hi]
    {
      assert c[before[k].lo..before[k].hi] == c[..|a|][before[k].lo..before[k].hi];
    }
    assert c[|a|..|c|] == o;
  }

  /** A complete object on its own: the objects `ConcatenatedObjectsExtracted` is about. */
  ghost predicate Balanced(o: string) {
    TopLevelObject(o, 0, |o|)
  }

  /** Appending one balanced object after a prefix that ends outside every object closes exactly one more span. */
  lemma AppendObject(a: string, o: string)
    requires LexAt(a, |a|) == Outside && ScanAt(a, |a|).start == -1
    requires LexAt(o, |o|) == Outside && ScanAt(o, |o|) == Scan(-1, [Span(0, |o|)])
    ensures LexAt(a + o, |a + o|) == Outside
    ensures ScanAt(a + o, |a + o|) == Scan(-1, ScanAt(a, |a|).spans + [Span(|a|, |a| + |o|)])
  {
    var c := a + o;
    PrefixScan(a, o, |a|);
    assert c[|a|..|a| + |o|] == o;
    ObjectAfter(c, |a|, o);
  }

  /** A balanced object read from offset `off` to the end of `c`, where no object is open, closes one more span. */
  lemma ObjectAfter(c: string, off: nat, o: string)
    requires off + |o| == |c| && c[off..off + |o|] == o
    requires LexAt(c, off) == Outside && ScanAt(c, off).start == -1
    requires LexAt(o, |o|) == Outside && ScanAt(o, |o|) == Scan(-1, [Span(0, |o|)])
    ensures LexAt(c, off + |o|) == Outside
    ensures ScanAt(c, off + |o|) == Scan(-1, ScanAt(c, off).spans + [Span(off, off + |o|)])
  {
    LexAfter(c, off, o, |o|);
    ScanAfter(c, off, o, |o|);
    ShiftOne(ScanAt(c, off + |o|), ScanAt(o, |o|), |o|, off, ScanAt(c, off).spans);
  }

  /** The scanner state of one whole object read after `off` characters that closed `before`. */
  lemma ShiftOne(s: Scan, t: Scan, len: nat, off: nat, before: seq<Span>)
    requires s == Shift(t, off, before) && t == Scan(-1, [Span(0, len)])
    ensures s == Scan(-1, before + [Span(off, off + len)])
  {
    assert [Span(0, len)][..0] == [];
    assert ShiftSpans([Span(0, len)], off) == [Span(off, off + len)];
  }

  lemma ConcatStep(a: string, init: seq<string>, o: string)
    requires LexAt(a, |a|) == Outside && ScanAt(a, |a|).start == -1 && Objects(a) == init
    requires Balanced(o)
    ensures LexAt(a + o, |a + o|) == Outside
    ensures ScanAt(a + o, |a + o|).start == -1
    ensures Objects(a + o) == init + [o]
  {
    SingleObjectScan(o);
    AppendObject(a, o);
    SlicesExtend(a, o, ScanAt(a, |a|).spans);
  }

  lemma {:induction false} ConcatScan(objs: seq<string>)
    requires forall k :: 0 <= k < |objs| ==> Balanced(objs[k])
    ensures var c := Concat(objs);
      && LexAt(c, |c|) == Outside
      && ScanAt(c, |c|).start == -1
      && Objects(c) == objs
  {
    if objs != [] {
      var init, o := objs[..|objs| - 1], objs[|objs| - 1];
      assert objs == init + [o];
      assert forall k :: 0 <= k < |init| ==> init[k] == objs[k];
      ConcatScan(init);
      ConcatStep(Concat(init), init, o);
    }
  }

  /**
   * N balanced objects written back to back, with nothing before or after them,
   * yield exactly those N strings and an empty leftover, in both copies.
   */
  lemma ConcatenatedObjectsExtracted(objs: seq<string>)
    requires forall k :: 0 <= k < |objs| ==> Balanced(objs[k])
    ensures Objects(Concat(objs)) == objs
    ensures StreamLeftover(Concat(objs)) == []
    ensures FallbackLeftover(Concat(objs)) == []
  {
    ConcatScan(objs);
    if objs != [] {
      var o := objs[|objs| - 1];
      EndsWithLastObject(Concat(objs[..|objs| - 1]), o);
    }
  }

  /** Input that ends with its last object leaves nothing over. */
  lemma EndsWithLastObject(a: string, o: string)
    requires var c := a + o; LexAt(c, |c|).depth == 0 && Objects(c) != [] && Objects(c)[|Objects(c)| - 1] == o
    ensures StreamLeftover(a + o) == [] && FallbackLeftover(a + o) == []
  {
    var c := a + o;
    assert c[|c| - |o|..] == o;
    assert OccursAt(c, o, |c| - |o|);
    var li := LastIndexOf(c, o);
    assert li == |c| - |o|;
    assert StreamLeftover(c) == c[li + |o|..];
    assert FallbackLeftover(c) == c[li + |o|..];
  }

  /**
   * A balanced object cut anywhere inside: the first part yields no object and
   * is kept whole as leftover; once the rest is appended the object is returned
   * whole and nothing is left over.
   */
  lemma SplitObjectWaitsForRest(o: string, n: nat)
    requires Balanced(o) && 0 < n < |o|
    ensures Objects(o[..n]) == []
    ensures StreamLeftover(o[..n]) == o[..n] && FallbackLeftover(o[..n]) == o[..n]
    ensures o[..n] + o[n..] == o
    ensures Objects(o) == [o] && StreamLeftover(o) == []
  {
    var p := o[..n];
    assert p + o[n..] == o;
    PrefixScan(p, o[n..], n);
    assert LexAt(p, n).depth > 0;
    UnfinishedObjectIsKept(p);
    var st := ScanAt(p, n);
    PrefixScan(p, o[n..], st.start);
    assert st.start == 0;
    NoSpanEndsAtStart(st.spans);
    assert Objects(p) == [];
    ConcatenatedObjectsExtracted([o]);
    assert Concat([o]) == o;
  }

  /** A proper prefix of a balanced object, on its own: the object is open from offset 0 and nothing has closed. */
  lemma OpenPrefixScan(o: string, n: nat)
    requires Balanced(o) && 0 < n < |o|
    ensures LexAt(o[..n], n).depth > 0
    ensures ScanAt(o[..n], n) == Scan(0, [])
  {
    var p := o[..n];
    assert p + o[n..] == o;
    PrefixScan(p, o[n..], n);
    assert LexAt(p, n).depth > 0;
    UnfinishedObjectIsKept(p);
    var st := ScanAt(p, n);
    PrefixScan(p, o[n..], st.start);
    assert st.start == 0;
    NoSpanEndsAtStart(st.spans);
  }

  /** Spans inside `a` cut the same slices out of `a + b`. */
  lemma SlicesOfPrefix(a: string, b: string, spans: seq<Span>)
    requires SpansWithin(spans, |a|)
    ensures SpansWithin(spans, |a + b|)
    ensures Slices(a + b, spans) == Slices(a, spans)
  {
    var c := a + b;
    assert c[..|a|] == a;
    forall k | 0 <= k < |spans|
      ensures c[spans[k].lo..spans[k].hi] == a[spans[k].lo..spans[k].hi]
    {
      assert c[spans[k].lo..spans[k].hi] == c[..|a|][spans[k].lo..spans[k].hi];
    }
  }

  /** Text that opens an object and closes none, read after text outside every object: that object is open. */
  lemma OpenAfterOutside(c: string, p: string)
    requires LexAt(c, |c|) == Outside && ScanAt(c, |c|).start == -1
    requires LexAt(p, |p|).depth > 0 && ScanAt(p, |p|) == Scan(0, [])
    ensures LexAt(c + p, |c + p|).depth > 0
    ensures ScanAt(c + p, |c + p|) == Scan(|c|, ScanAt(c, |c|).spans)
  {
    AppendedLex(c, p);
    AppendedScan(c, p);
    assert ShiftSpans([], |c|) == [];
  }

  /** Text read after text outside every object is lexed as if on its own. */
  lemma AppendedLex(c: string, p: string)
    requires LexAt(c, |c|) == Outside
    ensures LexAt(c + p, |c + p|) == LexAt(p, |p|)
  {
    var d := c + p;
    PrefixScan(c, p, |c|);
    assert d[|c|..|c| + |p|] == p;
    LexAfter(d, |c|, p, |p|);
  }

  /** Text read after text outside every object is scanned as if on its own, moved right by the length of the first. */
  lemma AppendedScan(c: string, p: string)
    requires LexAt(c, |c|) == Outside && ScanAt(c, |c|).start == -1
    ensures ScanAt(c + p, |c + p|) == Shift(ScanAt(p, |p|), |c|, ScanAt(c, |c|).spans)
  {
    var d := c + p;
    PrefixScan(c, p, |c|);
    assert d[|c|..|c| + |p|] == p;
    ScanAfter(d, |c|, p, |p|);
  }

  /** With an object open from offset `|c|`, the objects are those of `c` and the streaming leftover is the rest. */
  lemma OpenAfterLeftover(c: string, p: string)
    requires SpansWithin(ScanAt(c, |c|).spans, |c|)
    requires LexAt(c + p, |c + p|).depth > 0
    requires ScanAt(c + p, |c + p|) == Scan(|c|, ScanAt(c, |c|).spans)
    ensures Objects(c + p) == Objects(c)
    ensures StreamLeftover(c + p) == p
  {
    SlicesOfPrefix(c, p, ScanAt(c, |c|).spans);
    assert (c + p)[|c|..] == p;
  }

  /**
   * Balanced objects followed by the first `m` characters of one more: the
   * complete objects are returned, and the started one is kept whole as the
   * streaming leftover.
   */
  lemma ObjectsThenPart(objs: seq<string>, o: string, m: nat)
    requires forall k :: 0 <= k < |objs| ==> Balanced(objs[k])
    requires Balanced(o) && m < |o|
    ensures Objects(Concat(objs) + o[..m]) == objs
    ensures StreamLeftover(Concat(objs) + o[..m]) == o[..m]
  {
    var c := Concat(objs);
    ConcatScan(objs);
    if m == 0 {
      assert c + o[..m] == c;
      ConcatenatedObjectsExtracted(objs);
    } else {
      OpenPrefixScan(o, m);
      OpenAfterOutside(c, o[..m]);
      OpenAfterLeftover(c, o[..m]);
    }
  }

  /** `p` is what follows the first `i` pieces when a prefix is cut there: a proper start of the next piece, or nothing after the last. */
  ghost predicate CutAt(ws: seq<string>, i: int, p: string) {
    && 0 <= i <= |ws|
    && (i < |ws| ==> |p| < |ws[i]| && p == ws[i][..|p|])
    && (i == |ws| ==> p == [])
  }

  /** Any prefix of back-to-back nonempty pieces is some whole pieces followed by a proper start of the next one, or all of them. */
  lemma {:induction false} PrefixOfConcat(ws: seq<string>, t: string)
    requires forall k :: 0 <= k < |ws| ==> ws[k] != []
    requires |t| <= |Concat(ws)| && t == Concat(ws)[..|t|]
    ensures exists i, p :: CutAt(ws, i, p) && t == Concat(ws[..i]) + p && (|t| < |Concat(ws)| ==> i < |ws|)
  {
    if ws == [] {
      assert CutAt(ws, 0, []) && t == Concat(ws[..0]) + [];
    } else {
      var n := |ws| - 1;
      var init, last := ws[..n], ws[n];
      var ci := Concat(init);
      assert Concat(ws) == ci + last;
      if |t| < |ci| {
        assert t == ci[..|t|];
        PrefixOfConcat(init, t);
        var i, p :| CutAt(init, i, p) && t == Concat(init[..i]) + p && i < |init|;
        assert init[..i] == ws[..i] && init[i] == ws[i];
        assert CutAt(ws, i, p);
      } else {
        var p := t[|ci|..];
        assert t == ci + p;
        assert p == last[..|p|];
        if |p| < |last| {
          assert CutAt(ws, n, p);
        } else {
          assert ws[..|ws|] == ws;
          assert CutAt(ws, |ws|, []) && t == Concat(ws[..|ws|]) + [];
        }
      }
    }
  }

  /** Whole balanced objects followed by a proper start of the next: what a scan of that text returns and keeps. */
  lemma CutOfObjects(ws: seq<string>, i: int, p: string)
    requires forall k :: 0 <= k < |ws| ==> Balanced(ws[k])
    requires CutAt(ws, i, p)
    ensures Objects(Concat(ws[..i]) + p) == ws[..i]
    ensures StreamLeftover(Concat(ws[..i]) + p) == p
  {
    if i < |ws| {
      ObjectsThenPart(ws[..i], ws[i], |p|);
    } else {
      assert ws[..i] == ws && Concat(ws) + p == Concat(ws);
      ConcatenatedObjectsExtracted(ws);
    }
  }

  /** Whole balanced objects followed by a proper start of the next begin with `{`, unless there is nothing at all. */
  lemma CutStartsWithBrace(ws: seq<string>, i: int, p: string)
    requires forall k :: 0 <= k < |ws| ==> Balanced(ws[k])
    requires CutAt(ws, i, p)
    ensures var t := Concat(ws[..i]) + p; t == [] || t[0] == '{'
  {
    if i > 0 {
      ConcatStartsWithFirst(ws[..i]);
    } else if p != [] {
      assert Concat(ws[..i]) + p == p && p[0] == ws[0][0];
    }
  }

  /**
   * A prefix of back-to-back balanced objects, scanned on its own, returns the
   * objects it holds whole and keeps the start of the next one as the streaming
   * leftover; it is empty or starts with `{`.
   */
  lemma PrefixOfObjects(ws: seq<string>, t: string)
    requires forall k :: 0 <= k < |ws| ==> Balanced(ws[k])
    requires |t| <= |Concat(ws)| && t == Concat(ws)[..|t|]
    ensures exists i, p :: CutAt(ws, i, p) && t == Concat(ws[..i]) + p && Objects(t) == ws[..i] && StreamLeftover(t) == p
    ensures t == [] || t[0] == '{'
  {
    PrefixOfConcat(ws, t);
    var i, p :| CutAt(ws, i, p) && t == Concat(ws[..i]) + p;
    CutOfObjects(ws, i, p);
    CutStartsWithBrace(ws, i, p);
  }

  /** Cutting before the last piece ends leaves the text strictly shorter than all of it. */
  lemma CutIsShort(ws: seq<string>, i: int, p: string)
    requires CutAt(ws, i, p) && i < |ws|
    ensures |Concat(ws[..i]) + p| < |Concat(ws)|
  {
    assert ws[..i] + ws[i..] == ws;
    ConcatAppend(ws[..i], ws[i..]);
    assert [ws[i]] + ws[i + 1..] == ws[i..];
    ConcatAppend([ws[i]], ws[i + 1..]);
    assert Concat([ws[i]]) == Concat([]) + ws[i];
  }

  /** A character that neither opens nor closes an object or a string. */
  predicate Plain(ch: char) {
    ch != '{' && ch != '}' && ch != '"'
  }

  /** Text of plain characters leaves the scanner where it started: outside, with nothing open or closed. */
  lemma {:induction false} PlainScan(s: string, n: nat)
    requires n <= |s| && forall i :: 0 <= i < n ==> Plain(s[i])
    ensures LexAt(s, n) == Outside && ScanAt(s, n) == Scan(-1, [])
  {
    if n > 0 {
      PlainScan(s, n - 1);
    }
  }

  /** Plain text followed by one balanced object: that object is returned and nothing is left over. */
  lemma ObjectAfterPlainText(lead: string, obj: string)
    requires forall i :: 0 <= i < |lead| ==> Plain(lead[i])
    requires Balanced(obj)
    ensures Objects(lead + obj) == [obj] && StreamLeftover(lead + obj) == []
  {
    PlainScan(lead, |lead|);
    ConcatStep(lead, [], obj);
    EndsWithLastObject(lead, obj);
  }
}
