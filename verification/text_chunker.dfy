/** Semantic chunking of long texts before they are stored: the text is cut into
    paragraphs at runs of blank lines, the paragraphs are packed greedily into
    chunks of at most `max` characters that overlap by `overlap` characters, and
    a chunk grown past one and a half times the limit is cut again at sentence
    ends. Python's `str.strip`, the two `re.split` patterns and negative-index
    slicing are written out as string functions. */
module TextChunker {
  import opened Common

  // ---------------------------------------------------------------------------
  // String primitives

  /** `str.isspace` for one character (Unicode White_Space and the separators
      U+001C..U+001F that Python also counts). */
  predicate IsSpace(c: char) {
    || c == ' ' || c == '\t' || c == '\n' || c == '\r' || c == '\U{000B}' || c == '\U{000C}'
    || ('\U{001C}' <= c <= '\U{001F}') || c == '\U{0085}' || c == '\U{00A0}' || c == '\U{1680}'
    || ('\U{2000}' <= c <= '\U{200A}') || c == '\U{2028}' || c == '\U{2029}' || c == '\U{202F}'
    || c == '\U{205F}' || c == '\U{3000}'
  }

  predicate Blank(s: string) {
    forall k :: 0 <= k < |s| ==> IsSpace(s[k])
  }

  function LStrip(s: string): (r: string)
    ensures |r| <= |s| && r == s[|s| - |r|..]
    ensures r == [] || !IsSpace(r[0])
    ensures r == [] <==> Blank(s)
  {
    if s != [] && IsSpace(s[0]) then
      var r := LStrip(s[1..]);
      assert Blank(s[1..]) ==> Blank(s) by {
        if Blank(s[1..]) {
          forall k | 0 <= k < |s| ensures IsSpace(s[k]) {
            if k > 0 { assert s[k] == s[1..][k - 1]; }
          }
        }
      }
      r
    else s
  }

  function RStrip(s: string): (r: string)
    ensures |r| <= |s| && r == s[..|r|]
    ensures r == [] || !IsSpace(r[|r| - 1])
    ensures r == [] <==> Blank(s)
  {
    if s != [] && IsSpace(s[|s| - 1]) then
      var r := RStrip(s[..|s| - 1]);
      assert Blank(s[..|s| - 1]) ==> Blank(s) by {
        if Blank(s[..|s| - 1]) {
          forall k | 0 <= k < |s| ensures IsSpace(s[k]) {
            if k < |s| - 1 { assert s[k] == s[..|s| - 1][k]; }
          }
        }
      }
      r
    else s
  }

  /** `s.strip()`: no leading or trailing white space is left, and only a blank
      string strips to the empty one. */
  function Strip(s: string): (r: string)
    ensures |r| <= |s|
    ensures Stripped(r)
    ensures r == [] <==> Blank(s)
  {
    var l := LStrip(s);
    var r := RStrip(l);
    assert r != [] ==> r[0] == l[0];
    r
  }

  /** No white space at either end. */
  predicate Stripped(s: string) {
    s == [] || (!IsSpace(s[0]) && !IsSpace(s[|s| - 1]))
  }

  /** A stripped string is its own `strip()`; so stripping twice is stripping
      once. */
  lemma StripFixes(s: string)
    ensures Stripped(s) ==> Strip(s) == s
    ensures Strip(Strip(s)) == Strip(s)
  {
    if Stripped(s) {
      assert LStrip(s) == s;
      assert RStrip(s) == s;
    }
    var r := Strip(s);
    assert LStrip(r) == r;
    assert RStrip(r) == r;
  }

  /** `s[-n:]` for any integer `n`: the last `n` characters when `0 < n`; but
      `s[-0:]` is `s[0:]`, the whole string, and a negative `n` drops the first
      `-n` characters. */
  function PyTail(s: string, n: int): (r: string)
    ensures 0 < n <= |s| ==> |r| == n && r == s[|s| - n..]
    ensures n == 0 ==> r == s
  {
    if n > 0 then (if n >= |s| then s else s[|s| - n..])
    else if n == 0 then s
    else if -n >= |s| then "" else s[-n..]
  }

  /** Drops the leading characters satisfying `p`. */
  function DropWhile(s: string, p: char -> bool): (r: string)
    ensures |r| <= |s| && r == s[|s| - |r|..]
    ensures s != [] && p(s[0]) ==> |r| < |s|
    ensures r == [] || !p(r[0])
  {
    if s != [] && p(s[0]) then DropWhile(s[1..], p) else s
  }

  predicate IsNewline(c: char) {
    c == '\n'
  }

  /** `re.split(r'\n\n+', s)`: every maximal run of two or more newlines
      separates two pieces. */
  function SplitParagraphs(s: string): (r: seq<string>)
    ensures |r| >= 1
    decreases |s|
  {
    if s == [] then [""]
    else if |s| >= 2 && s[0] == '\n' && s[1] == '\n' then [""] + SplitParagraphs(DropWhile(s, IsNewline))
    else
      var rest := SplitParagraphs(s[1..]);
      [[s[0]] + rest[0]] + rest[1..]
  }

  /** A piece of a blank text is blank. */
  lemma {:induction false} SplitParagraphsBlank(s: string)
    requires Blank(s)
    ensures forall k :: 0 <= k < |SplitParagraphs(s)| ==> Blank(SplitParagraphs(s)[k])
    decreases |s|
  {
    if s == [] {
    } else if |s| >= 2 && s[0] == '\n' && s[1] == '\n' {
      var d := DropWhile(s, IsNewline);
      assert Blank(d) by {
        forall k | 0 <= k < |d| ensures IsSpace(d[k]) {
          assert d[k] == s[|s| - |d| + k];
        }
      }
      SplitParagraphsBlank(d);
    } else {
      assert Blank(s[1..]) by {
        forall k | 0 <= k < |s| - 1 ensures IsSpace(s[1..][k]) {
          assert s[1..][k] == s[k + 1];
        }
      }
      SplitParagraphsBlank(s[1..]);
      var rest := SplitParagraphs(s[1..]);
      assert Blank([s[0]] + rest[0]) by {
        forall k | 0 <= k < |[s[0]] + rest[0]| ensures IsSpace(([s[0]] + rest[0])[k]) {
          if k > 0 { assert ([s[0]] + rest[0])[k] == rest[0][k - 1]; }
        }
      }
      var r := SplitParagraphs(s);
      assert r == [[s[0]] + rest[0]] + rest[1..];
      forall k | 0 <= k < |r| ensures Blank(r[k]) {
        if k > 0 { assert r[k] == rest[k]; }
      }
    }
  }

  /** `s` holds two newlines in a row. */
  predicate HasBreak(s: string) {
    exists k :: 0 <= k < |s| - 1 && s[k] == '\n' && s[k + 1] == '\n'
  }

  /** No piece holds two newlines in a row, and the first piece starts where `s`
      starts. */
  lemma {:induction false} SplitParagraphsNoBreak(s: string)
    ensures forall k :: 0 <= k < |SplitParagraphs(s)| ==> !HasBreak(SplitParagraphs(s)[k])
    ensures var r := SplitParagraphs(s); r[0] == [] || (s != [] && r[0][0] == s[0])
    decreases |s|
  {
    if s == [] {
      assert !HasBreak("");
    } else if |s| >= 2 && s[0] == '\n' && s[1] == '\n' {
      var d := DropWhile(s, IsNewline);
      SplitParagraphsNoBreak(d);
      var r := SplitParagraphs(s);
      assert !HasBreak("");
      forall k | 0 <= k < |r| ensures !HasBreak(r[k]) {
        if k > 0 { assert r[k] == SplitParagraphs(d)[k - 1]; }
      }
    } else {
      SplitParagraphsNoBreak(s[1..]);
      var rest := SplitParagraphs(s[1..]);
      var first := [s[0]] + rest[0];
      var r := SplitParagraphs(s);
      assert r == [first] + rest[1..];
      forall k | 0 <= k < |r| ensures !HasBreak(r[k]) {
        if k > 0 { assert r[k] == rest[k]; }
      }
    }
  }

  predicate EndsSentence(c: char) {
    c == '.' || c == '!' || c == '?'
  }

  /** `re.split(r'(?<=[.!?])\s+', s)`: every maximal run of white space right
      after `.`, `!` or `?` separates two pieces. `afterStop` says whether the
      character before `s` ends a sentence. */
  function SplitSentencesFrom(s: string, afterStop: bool): (r: seq<string>)
    ensures |r| >= 1
    decreases |s|
  {
    if s == [] then [""]
    else if afterStop && IsSpace(s[0]) then [""] + SplitSentencesFrom(DropWhile(s, IsSpace), false)
    else
      var rest := SplitSentencesFrom(s[1..], EndsSentence(s[0]));
      [[s[0]] + rest[0]] + rest[1..]
  }

  /** Every piece but the last ends with `.`, `!` or `?`; when there are several
      pieces, the first is empty only if it was preceded by a sentence end. */
  lemma {:induction false} SentencesEndWithStop(s: string, afterStop: bool)
    ensures var r := SplitSentencesFrom(s, afterStop);
      && (forall k :: 0 < k < |r| - 1 ==> r[k] != [] && EndsSentence(r[k][|r[k]| - 1]))
      && (|r| > 1 ==> (r[0] == [] ==> afterStop) && (r[0] != [] ==> EndsSentence(r[0][|r[0]| - 1])))
    decreases |s|
  {
    if s == [] {
    } else if afterStop && IsSpace(s[0]) {
      var d := DropWhile(s, IsSpace);
      SentencesEndWithStop(d, false);
      var r := SplitSentencesFrom(s, afterStop);
      var t := SplitSentencesFrom(d, false);
      forall k | 0 < k < |r| - 1 ensures r[k] != [] && EndsSentence(r[k][|r[k]| - 1]) {
        assert r[k] == t[k - 1];
      }
    } else {
      var b := EndsSentence(s[0]);
      SentencesEndWithStop(s[1..], b);
      var rest := SplitSentencesFrom(s[1..], b);
      var r := SplitSentencesFrom(s, afterStop);
      assert r == [[s[0]] + rest[0]] + rest[1..];
      forall k | 0 < k < |r| - 1 ensures r[k] != [] && EndsSentence(r[k][|r[k]| - 1]) {
        assert r[k] == rest[k];
      }
    }
  }

  function SplitSentences(s: string): (r: seq<string>)
    ensures |r| >= 1
  {
    SplitSentencesFrom(s, false)
  }

  // ---------------------------------------------------------------------------
  // Packing

  /** The loop state: the chunks emitted so far and `current_chunk`. */
  datatype Packing = Packing(chunks: seq<string>, current: string)

  predicate EndsWith(s: string, suffix: string) {
    |suffix| <= |s| && s[|s| - |suffix|..] == suffix
  }

  /** Chunks once emitted are never taken back. */
  predicate IsPrefix(a: seq<string>, b: seq<string>) {
    |a| <= |b| && b[..|a|] == a
  }

  lemma PrefixTrans(a: seq<string>, b: seq<string>, c: seq<string>)
    requires IsPrefix(a, b) && IsPrefix(b, c)
    ensures IsPrefix(a, c)
  {
    assert c[..|a|] == c[..|b|][..|a|];
  }

  /** Every emitted chunk is already stripped. */
  predicate AllStripped(chunks: seq<string>) {
    forall k :: 0 <= k < |chunks| ==> Stripped(chunks[k])
  }

  /** Adds the stripped, non-blank paragraph `p` to the state: when it would not
      fit, the current chunk is emitted stripped and the next one starts with the
      overlap (when the emitted chunk was longer than it) and the paragraph. */
  function PlaceParagraph(st: Packing, p: string, max: int, overlap: int): (r: Packing)
    ensures EndsWith(r.current, p)
    ensures r.chunks == st.chunks || r.chunks == st.chunks + [Strip(st.current)]
    ensures r.chunks != st.chunks <==> |st.current| + |p| + 2 > max && st.current != ""
    ensures AllStripped(st.chunks) ==> AllStripped(r.chunks)
  {
    var cur := st.current;
    if |cur| + |p| + 2 > max && cur != "" then
      var next := if |cur| > overlap then PyTail(cur, overlap) + "\n\n" + p else p;
      JoinEndsWith(PyTail(cur, overlap) + "\n\n", p);
      AllStrippedSnoc(st.chunks, Strip(cur));
      Packing(st.chunks + [Strip(cur)], next)
    else
      var next := if cur != "" then cur + "\n\n" + p else p;
      JoinEndsWith(cur + "\n\n", p);
      Packing(st.chunks, next)
  }

  /** The same for one sentence of an oversized chunk, joined with a space. */
  function PlaceSentence(st: Packing, sentence: string, max: int, overlap: int): (r: Packing)
    ensures EndsWith(r.current, sentence)
    ensures r.chunks == st.chunks || r.chunks == st.chunks + [Strip(st.current)]
    ensures r.chunks != st.chunks <==> |st.current| + |sentence| > max && st.current != ""
    ensures AllStripped(st.chunks) ==> AllStripped(r.chunks)
  {
    var temp := st.current;
    if |temp| + |sentence| > max && temp != "" then
      var next := if |temp| > overlap then PyTail(temp, overlap) + " " + sentence else sentence;
      JoinEndsWith(PyTail(temp, overlap) + " ", sentence);
      AllStrippedSnoc(st.chunks, Strip(temp));
      Packing(st.chunks + [Strip(temp)], next)
    else
      var next := temp + (if temp != "" then " " else "") + sentence;
      JoinEndsWith(temp + (if temp != "" then " " else ""), sentence);
      Packing(st.chunks, next)
  }

  lemma JoinEndsWith(a: string, b: string)
    ensures EndsWith(a + b, b) && EndsWith(b, b)
  {
    assert (a + b)[|a + b| - |b|..] == b;
    assert b[|b| - |b|..] == b;
  }

  lemma AllStrippedSnoc(chunks: seq<string>, c: string)
    requires Stripped(c)
    ensures AllStripped(chunks) ==> AllStripped(chunks + [c])
  {
    if AllStripped(chunks) {
      forall k | 0 <= k < |chunks| + 1 ensures Stripped((chunks + [c])[k]) {
        if k < |chunks| { assert (chunks + [c])[k] == chunks[k]; }
      }
    }
  }

  /** The sentence loop over `sentences`, started from `start`. */
  function PackSentences(start: Packing, sentences: seq<string>, max: int, overlap: int): (r: Packing)
    ensures IsPrefix(start.chunks, r.chunks)
    ensures AllStripped(start.chunks) ==> AllStripped(r.chunks)
  {
    if sentences == [] then start
    else
      var prev := PackSentences(start, sentences[..|sentences| - 1], max, overlap);
      var r := PlaceSentence(prev, sentences[|sentences| - 1], max, overlap);
      assert IsPrefix(prev.chunks, r.chunks);
      PrefixTrans(start.chunks, prev.chunks, r.chunks);
      r
  }

  /** `len(current_chunk) > max_chunk_size * 1.5` */
  predicate Oversized(current: string, max: int) {
    (|current| as real) > (max as real) * 1.5
  }

  /** The float comparison is the integer comparison `2 * len > 3 * max`. */
  lemma OversizedExact(current: string, max: int)
    ensures Oversized(current, max) <==> 2 * |current| > 3 * max
  {
  }

  /** Re-splitting an oversized chunk: the emitted chunks stay, and the sentence
      loop starts from an empty `temp_chunk`; what it leaves becomes the current
      chunk. */
  function Resplit(st: Packing, max: int, overlap: int): Packing {
    PackSentences(Packing(st.chunks, ""), SplitSentences(st.current), max, overlap)
  }

  /** One turn of the paragraph loop: a blank paragraph is skipped. */
  function ParagraphStep(st: Packing, para: string, max: int, overlap: int): (r: Packing)
    ensures Blank(para) ==> r == st
    ensures IsPrefix(st.chunks, r.chunks)
    ensures AllStripped(st.chunks) ==> AllStripped(r.chunks)
  {
    var p := Strip(para);
    if p == "" then st
    else
      var placed := PlaceParagraph(st, p, max, overlap);
      assert IsPrefix(st.chunks, placed.chunks);
      if Oversized(placed.current, max) then
        var r := Resplit(placed, max, overlap);
        PrefixTrans(st.chunks, placed.chunks, r.chunks);
        r
      else placed
  }

  /** The paragraph loop over `paras`. */
  function PackParagraphs(paras: seq<string>, max: int, overlap: int): (r: Packing)
    ensures AllStripped(r.chunks)
  {
    if paras == [] then Packing([], "")
    else ParagraphStep(PackParagraphs(paras[..|paras| - 1], max, overlap), paras[|paras| - 1], max, overlap)
  }

  /** The paragraph loop after one more paragraph. */
  lemma PackParagraphsSnoc(paras: seq<string>, i: nat, max: int, overlap: int)
    requires i < |paras|
    ensures PackParagraphs(paras[..i + 1], max, overlap)
         == ParagraphStep(PackParagraphs(paras[..i], max, overlap), paras[i], max, overlap)
  {
    assert paras[..i + 1][..i] == paras[..i];
  }

  /** The sentence loop after one more sentence. */
  lemma PackSentencesSnoc(start: Packing, sentences: seq<string>, j: nat, max: int, overlap: int)
    requires j < |sentences|
    ensures PackSentences(start, sentences[..j + 1], max, overlap)
         == PlaceSentence(PackSentences(start, sentences[..j], max, overlap), sentences[j], max, overlap)
  {
    assert sentences[..j + 1][..j] == sentences[..j];
  }

  /** `if current_chunk and current_chunk.strip(): chunks.append(...)` */
  function Finish(st: Packing): (r: seq<string>)
    ensures AllStripped(st.chunks) ==> AllStripped(r)
    ensures r == st.chunks || (r == st.chunks + [Strip(st.current)] && !Blank(st.current))
  {
    if st.current != "" && Strip(st.current) != "" then
      AllStrippedSnoc(st.chunks, Strip(st.current));
      st.chunks + [Strip(st.current)]
    else st.chunks
  }

  /** One entry of the result; `hasOverlap` is absent from the single-chunk
      result. */
  datatype Chunk = Chunk(text: string, chunkIndex: nat, totalChunks: nat, chunkSize: nat,
                         isChunked: bool, hasOverlap: Option<bool>)

  function Annotated(chunks: seq<string>, overlap: int): (r: seq<Chunk>)
    ensures |r| == |chunks|
  {
    seq(|chunks|, i requires 0 <= i < |chunks| =>
      Chunk(chunks[i], i, |chunks|, |chunks[i]|, |chunks| > 1, Some(i > 0 && overlap > 0)))
  }

  /** `chunk_text_semantic(text, max_chunk_size, overlap_size)` with both sizes
      resolved. */
  function ChunkText(text: string, max: int, overlap: int): seq<Chunk> {
    if |text| <= max then [Chunk(text, 0, 1, |text|, false, None)]
    else Annotated(Finish(PackParagraphs(SplitParagraphs(text), max, overlap)), overlap)
  }

  /** A blank text longer than the limit gives no chunk at all: every paragraph
      is skipped and the last chunk is empty. */
  lemma BlankTextHasNoChunks(text: string, max: int, overlap: int)
    requires Blank(text) && |text| > max
    ensures ChunkText(text, max, overlap) == []
  {
    var paras := SplitParagraphs(text);
    SplitParagraphsBlank(text);
    BlankParagraphsPackNothing(paras, max, overlap);
  }

  lemma {:induction false} BlankParagraphsPackNothing(paras: seq<string>, max: int, overlap: int)
    requires forall k :: 0 <= k < |paras| ==> Blank(paras[k])
    ensures PackParagraphs(paras, max, overlap) == Packing([], "")
  {
    if paras != [] {
      BlankParagraphsPackNothing(paras[..|paras| - 1], max, overlap);
    }
  }

  /** When a paragraph does not fit and the current chunk is longer than a
      positive overlap, that chunk is emitted stripped and the next one starts
      with its last `overlap` characters (before stripping), then a blank line
      and the paragraph. */
  lemma OverlapCarried(st: Packing, p: string, max: int, overlap: int)
    requires 0 < overlap < |st.current| && |st.current| + |p| + 2 > max
    ensures PlaceParagraph(st, p, max, overlap)
         == Packing(st.chunks + [Strip(st.current)], st.current[|st.current| - overlap..] + "\n\n" + p)
  {
    assert PyTail(st.current, overlap) == st.current[|st.current| - overlap..];
  }

  /** When a paragraph does not fit and the current chunk is no longer than the
      overlap, that chunk is emitted stripped and the next one is the paragraph
      alone: nothing is carried over. */
  lemma ShortChunkNotCarried(st: Packing, p: string, max: int, overlap: int)
    requires st.current != "" && |st.current| <= overlap && |st.current| + |p| + 2 > max
    ensures PlaceParagraph(st, p, max, overlap) == Packing(st.chunks + [Strip(st.current)], p)
  {
  }

  /** With `overlap == 0`, `current_chunk[-0:]` is the whole chunk: the chunk
      just emitted is repeated in full at the start of the next one, while its
      entry says `has_overlap` is false. */
  lemma ZeroOverlapRepeatsChunk(st: Packing, p: string, max: int)
    requires st.current != "" && |st.current| + |p| + 2 > max
    ensures PlaceParagraph(st, p, max, 0).current == st.current + "\n\n" + p
    ensures forall i :: 0 <= i < |Annotated(st.chunks, 0)| ==> Annotated(st.chunks, 0)[i].hasOverlap == Some(false)
  {
  }

  // ---------------------------------------------------------------------------
  // The loops

  /** `int(os.getenv(NAME, default))` unless the caller gave a value; `env` is the
      variable's value when it is set. */
  function Setting(given: Option<int>, env: Option<int>, default: int): (r: int)
    ensures given.Some? ==> r == given.value
    ensures given.None? && env.Some? ==> r == env.value
    ensures given.None? && env.None? ==> r == default
  {
    if given.Some? then given.value else env.GetOr(default)
  }

  const DEFAULT_MAX_CHUNK := 1000
  const DEFAULT_OVERLAP := 150

  /** The inner loop of `chunk_text_semantic` over the sentences of an oversized
      chunk. */
  method ResplitSentences(chunks: seq<string>, current: string, max: int, overlap: int)
    returns (out: seq<string>, temp: string)
    ensures Packing(out, temp) == Resplit(Packing(chunks, current), max, overlap)
    ensures IsPrefix(chunks, out)
  {
    var sentences := SplitSentences(current);
    out, temp := chunks, "";
    for j := 0 to |sentences|
      invariant Packing(out, temp) == PackSentences(Packing(chunks, ""), sentences[..j], max, overlap)
    {
      var sentence := sentences[j];
      ghost var before := Packing(out, temp);
      PackSentencesSnoc(Packing(chunks, ""), sentences, j, max, overlap);
      if |temp| + |sentence| > max && temp != "" {
        out := out + [Strip(temp)];
        if |temp| > overlap {
          temp := PyTail(temp, overlap) + " " + sentence;
        } else {
          temp := sentence;
        }
      } else {
        temp := temp + (if temp != "" then " " else "") + sentence;
      }
    }
    assert sentences[..|sentences|] == sentences;
  }

  /** The metadata loop. */
  method Annotate(chunks: seq<string>, overlap: int) returns (result: seq<Chunk>)
    ensures result == Annotated(chunks, overlap)
    ensures forall i :: 0 <= i < |result| ==>
      && result[i].text == chunks[i] && result[i].chunkIndex == i && result[i].totalChunks == |result|
      && result[i].chunkSize == |result[i].text| && (result[i].isChunked <==> |result| > 1)
      && result[i].hasOverlap == Some(i > 0 && overlap > 0)
  {
    result := [];
    for idx := 0 to |chunks|
      invariant |result| == idx
      invariant forall i :: 0 <= i < idx ==>
        result[i] == Chunk(chunks[i], i, |chunks|, |chunks[i]|, |chunks| > 1, Some(i > 0 && overlap > 0))
    {
      result := result + [Chunk(chunks[idx], idx, |chunks|, |chunks[idx]|, |chunks| > 1, Some(idx > 0 && overlap > 0))];
    }
    assert forall i :: 0 <= i < |chunks| ==> result[i] == Annotated(chunks, overlap)[i];
  }

  /** One turn of the paragraph loop of `chunk_text_semantic`: the paragraph is
      stripped and skipped when blank, placed, and the current chunk is split
      again at sentence ends when it grew past one and a half times the limit. */
  method ParagraphTurn(chunks: seq<string>, current: string, paragraph: string, max: int, overlap: int)
    returns (chunks': seq<string>, current': string)
    ensures Packing(chunks', current') == ParagraphStep(Packing(chunks, current), paragraph, max, overlap)
  {
    chunks', current' := chunks, current;
    var para := Strip(paragraph);
    if para != "" {
      if |current'| + |para| + 2 > max && current' != "" {
        chunks' := chunks' + [Strip(current')];
        if |current'| > overlap {
          current' := PyTail(current', overlap) + "\n\n" + para;
        } else {
          current' := para;
        }
      } else {
        if current' != "" {
          current' := current' + "\n\n" + para;
        } else {
          current' := para;
        }
      }
      assert Packing(chunks', current') == PlaceParagraph(Packing(chunks, current), para, max, overlap);
      OversizedExact(current', max);
      if 2 * |current'| > 3 * max {
        chunks', current' := ResplitSentences(chunks', current', max, overlap);
      }
    }
  }

  /** The paragraph loop of `chunk_text_semantic`. */
  method PackParagraphsLoop(paragraphs: seq<string>, max: int, overlap: int)
    returns (chunks: seq<string>, current: string)
    ensures Packing(chunks, current) == PackParagraphs(paragraphs, max, overlap)
  {
    chunks, current := [], "";
    for i := 0 to |paragraphs|
      invariant Packing(chunks, current) == PackParagraphs(paragraphs[..i], max, overlap)
    {
      PackParagraphsSnoc(paragraphs, i, max, overlap);
      chunks, current := ParagraphTurn(chunks, current, paragraphs[i], max, overlap);
    }
    assert paragraphs[..|paragraphs|] == paragraphs;
  }

  /** `chunk_text_semantic(text, max_chunk_size, overlap_size)`; `envMax` and
      `envOverlap` are CHUNK_MAX_SIZE and CHUNK_OVERLAP_SIZE when set. */
  method ChunkTextSemantic(text: string, maxChunkSize: Option<int>, overlapSize: Option<int>,
                           envMax: Option<int>, envOverlap: Option<int>) returns (result: seq<Chunk>)
    ensures var max := Setting(maxChunkSize, envMax, DEFAULT_MAX_CHUNK);
      var overlap := Setting(overlapSize, envOverlap, DEFAULT_OVERLAP);
      result == ChunkText(text, max, overlap)
    ensures |text| <= Setting(maxChunkSize, envMax, DEFAULT_MAX_CHUNK) ==>
      result == [Chunk(text, 0, 1, |text|, false, None)]
  {
    var max := Setting(maxChunkSize, envMax, DEFAULT_MAX_CHUNK);
    var overlap := Setting(overlapSize, envOverlap, DEFAULT_OVERLAP);
    if |text| <= max {
      return [Chunk(text, 0, 1, |text|, false, None)];
    }
    var paragraphs := SplitParagraphs(text);
    var chunks, current := PackParagraphsLoop(paragraphs, max, overlap);
    ghost var packed := Packing(chunks, current);
    if current != "" && Strip(current) != "" {
      chunks := chunks + [Strip(current)];
    }
    assert chunks == Finish(packed);
    result := Annotate(chunks, overlap);
  }

  /** Over the limit, every chunk carries its position, the total, its size and
      the two flags, and its text is stripped. */
  lemma ChunkTextMetadata(text: string, max: int, overlap: int)
    requires |text| > max
    ensures var r := ChunkText(text, max, overlap);
      forall i :: 0 <= i < |r| ==>
        && r[i].chunkIndex == i && r[i].totalChunks == |r|
        && r[i].chunkSize == |r[i].text| && (r[i].isChunked <==> |r| > 1)
        && r[i].hasOverlap == Some(i > 0 && overlap > 0)
        && Stripped(r[i].text)
  {
    var chunks := Finish(PackParagraphs(SplitParagraphs(text), max, overlap));
    assert AllStripped(chunks);
    var r := ChunkText(text, max, overlap);
    assert r == Annotated(chunks, overlap);
    forall i | 0 <= i < |r| ensures Stripped(r[i].text) {
      assert r[i].text == chunks[i];
    }
  }

  // ---------------------------------------------------------------------------
  // Helpers around the chunks

  /** `add_chunk_markers(chunk)`: an unchunked text comes back unchanged; a
      chunked one gets a `[Part i/n]` header and a blank line. */
  function AddChunkMarkers(c: Chunk): (r: string)
    ensures !c.isChunked ==> r == c.text
    ensures c.isChunked ==>
      r == "[Part " + NatToString(c.chunkIndex + 1) + "/" + NatToString(c.totalChunks) + "]\n\n" + c.text
  {
    if !c.isChunked then c.text
    else "[Part " + NatToString(c.chunkIndex + 1) + "/" + NatToString(c.totalChunks) + "]\n\n" + c.text
  }

  /** The header of a chunked text reads back: the digits between `[Part ` and
      `/` denote the one-based chunk number, those between `/` and `]` the chunk
      count, and the text follows a blank line. */
  lemma ChunkMarkerNumbers(c: Chunk) returns (slash: nat, close: nat)
    requires c.isChunked
    ensures var r := AddChunkMarkers(c);
      && 6 < slash < close < |r|
      && r[..6] == "[Part " && r[slash] == '/' && r[close..] == "]\n\n" + c.text
      && AllDigits(r[6..slash]) && AllDigits(r[slash + 1..close])
      && DecimalValue(r[6..slash]) == c.chunkIndex + 1
      && DecimalValue(r[slash + 1..close]) == c.totalChunks
  {
    var a := NatToString(c.chunkIndex + 1);
    var b := NatToString(c.totalChunks);
    slash, close := HeaderLayout(a, b, c.text);
    NatToStringValue(c.chunkIndex + 1);
    NatToStringValue(c.totalChunks);
  }

  /** Where the pieces of `[Part a/b]\n\n` + text sit. */
  lemma HeaderLayout(a: string, b: string, text: string) returns (slash: nat, close: nat)
    requires |a| >= 1 && |b| >= 1
    ensures var r := "[Part " + a + "/" + b + "]\n\n" + text;
      && slash == 6 + |a| && close == slash + 1 + |b| && close < |r|
      && r[..6] == "[Part " && r[6..slash] == a && r[slash] == '/'
      && r[slash + 1..close] == b && r[close..] == "]\n\n" + text
  {
    slash := 6 + |a|;
    close := slash + 1 + |b|;
    var h := "[Part " + a;
    var r := h + "/" + b + "]\n\n" + text;
    assert r == h + ("/" + (b + ("]\n\n" + text)));
    assert r[..6] == h[..6];
    assert r[6..slash] == h[6..];
    var rest := "/" + (b + ("]\n\n" + text));
    assert r[slash..] == rest;
    assert rest[1..1 + |b|] == b;
    assert rest[1 + |b|..] == "]\n\n" + text;
  }

  /** `estimate_tokens(text)`: a quarter of the length, rounded down. */
  function EstimateTokens(text: string): (r: nat)
    ensures 4 * r <= |text| < 4 * r + 4
  {
    |text| / 4
  }

  /** `should_chunk(text, threshold)` */
  predicate ShouldChunk(text: string, threshold: int) {
    |text| > threshold
  }

  /** A text is chunked exactly when it is longer than the threshold that the
      chunker uses as its limit; otherwise it comes back as its single chunk. */
  lemma ShouldChunkAgrees(text: string, max: int, overlap: int)
    ensures !ShouldChunk(text, max) ==> ChunkText(text, max, overlap) == [Chunk(text, 0, 1, |text|, false, None)]
    ensures !ShouldChunk(text, max) ==> AddChunkMarkers(ChunkText(text, max, overlap)[0]) == text
    ensures ShouldChunk(text, max) ==> forall c :: c in ChunkText(text, max, overlap) ==> c.hasOverlap.Some?
    ensures ShouldChunk(text, max) ==> ChunkText(text, max, overlap) != [Chunk(text, 0, 1, |text|, false, None)]
  {
    if ShouldChunk(text, max) {
      AnnotatedSaysOverlap(Finish(PackParagraphs(SplitParagraphs(text), max, overlap)), overlap);
    }
  }

  /** Every annotated chunk reports whether it overlaps. */
  lemma AnnotatedSaysOverlap(chunks: seq<string>, overlap: int)
    ensures forall c :: c in Annotated(chunks, overlap) ==> c.hasOverlap.Some?
  {
    var r := Annotated(chunks, overlap);
    forall c | c in r
      ensures c.hasOverlap.Some?
    {
      var i :| 0 <= i < |r| && r[i] == c;
    }
  }
}
