/** The summarizer of cli.py: summarize_transcript (cli.py:89-115) cuts the
    prefixed transcript's tokens into windows of 15000, decodes each window
    into a chunk, summarises every chunk and joins the summaries with "\n".

    The tokenizer (tiktoken's cl100k_base) and the chat-completion request are
    foreign code: they are the parameters `encode`, `decode` and `summarise`.
    Being arrow-typed, they are total: the encoder's ValueError on text that
    holds a special-token string, and a failing request, are not modelled.
    Beyond totality nothing is assumed of them unless a lemma says so. The
    model never assumes that decoding a window gives back a piece of the text:
    a window boundary can fall inside a multi-byte character. */
module Summarizer {
  import opened Chunking

  /** Tokens per chunk (cli.py:108, 111). */
  const ChunkSize: nat := 15000

  /** The instruction prepended to the transcript before it is tokenised
      (cli.py:103-104). */
  const Prompt: string := "Por favor, resuma o seguinte texto:\n\n"

  /** The token sequence the loop starts from (cli.py:104-106): the encoding
      of the prefixed transcript, never empty for an encoder that keeps
      non-empty strings non-empty, because the prompt is never empty. */
  function Tokens<Token>(transcript: string, encode: string -> seq<Token>): (tokens: seq<Token>)
    ensures (forall s: string :: |s| > 0 ==> |encode(s)| > 0) ==> |tokens| > 0
  {
    encode(Prompt + transcript)
  }

  /** Decodes each window, keeping the order. */
  function DecodeAll<Token>(windows: seq<seq<Token>>, decode: seq<Token> -> string): (texts: seq<string>)
  {
    seq(|windows|, i requires 0 <= i < |windows| => decode(windows[i]))
  }

  /** The chunk texts summarize_transcript produces, as a function: one per
      window of the tokens, so none exactly when there are no tokens, and never
      more chunks than tokens. */
  function Chunks<Token>(transcript: string, encode: string -> seq<Token>,
                         decode: seq<Token> -> string): (chunks: seq<string>)
    ensures |chunks| == 0 <==> |Tokens(transcript, encode)| == 0
    ensures |chunks| <= |Tokens(transcript, encode)|
  {
    DecodeAll(Windows(Tokens(transcript, encode), ChunkSize), decode)
  }

  /** The chunking loop of cli.py:102-111. `tokens` shrinks on every pass,
      so the loop ends; the chunks are the decoded windows, in order: there
      are ceil(n / 15000) of them for n tokens, and chunk i is the decode of
      tokens [i * 15000, min((i + 1) * 15000, n)). */
  method ChunkTranscript<Token>(transcript: string, encode: string -> seq<Token>,
                                decode: seq<Token> -> string)
    returns (chunks: seq<string>)
    ensures chunks == Chunks(transcript, encode, decode)
    ensures |chunks| == (|Tokens(transcript, encode)| + ChunkSize - 1) / ChunkSize
    ensures forall i :: 0 <= i < |chunks| ==>
      var all := Tokens(transcript, encode);
      chunks[i] == decode(all[i * ChunkSize .. Min((i + 1) * ChunkSize, |all|)])
  {
    chunks := [];
    var text := Prompt + transcript;
    var tokens := encode(text);
    ghost var all := tokens;
    while |tokens| > 0
      invariant DecodeAll(Windows(all, ChunkSize), decode) == chunks + DecodeAll(Windows(tokens, ChunkSize), decode)
      decreases |tokens|
    {
      var cut := Min(ChunkSize, |tokens|);
      var chunkTokens := tokens[..cut];
      var chunkText := decode(chunkTokens);
      var rest := tokens[cut..];
      DecodeAllCons(chunkTokens, Windows(rest, ChunkSize), decode);
      chunks := chunks + [chunkText];
      tokens := rest;
    }
    ChunkLayout(transcript, encode, decode);
  }

  lemma DecodeAllCons<Token>(w: seq<Token>, ws: seq<seq<Token>>, decode: seq<Token> -> string)
    ensures DecodeAll([w] + ws, decode) == [decode(w)] + DecodeAll(ws, decode)
  {
  }

  /** The chunks, counted and located: ceil(n / 15000) of them for n tokens,
      chunk i being the decode of tokens [i * 15000, min((i + 1) * 15000, n)). */
  lemma ChunkLayout<Token>(transcript: string, encode: string -> seq<Token>,
                           decode: seq<Token> -> string)
    ensures |Chunks(transcript, encode, decode)| == (|Tokens(transcript, encode)| + ChunkSize - 1) / ChunkSize
    ensures forall i :: 0 <= i < |Chunks(transcript, encode, decode)| ==>
      var all := Tokens(transcript, encode);
      Chunks(transcript, encode, decode)[i] == decode(all[i * ChunkSize .. Min((i + 1) * ChunkSize, |all|)])
  {
    var all := Tokens(transcript, encode);
    WindowCount(all, ChunkSize);
    forall i | 0 <= i < |Chunks(transcript, encode, decode)|
      ensures Chunks(transcript, encode, decode)[i] == decode(all[i * ChunkSize .. Min((i + 1) * ChunkSize, |all|)])
    {
      WindowAt(all, ChunkSize, i);
    }
  }

  /** Python's "\n".join(parts): the first part opens the result, the last
      part closes it, and two or more parts are separated by a newline. */
  function Join(parts: seq<string>): (joined: string)
    ensures |parts| > 0 ==> parts[0] <= joined
    ensures |parts| > 0 ==> var last := parts[|parts| - 1];
      |last| <= |joined| && joined[|joined| - |last|..] == last
    ensures |parts| > 1 ==> '\n' in joined
  {
    if |parts| == 0 then ""
    else if |parts| == 1 then parts[0]
    else parts[0] + "\n" + Join(parts[1..])
  }

  /** Python's s.split("\n"): the pieces between newlines; at least one. */
  function Split(s: string): (pieces: seq<string>)
    ensures |pieces| >= 1
    decreases |s|
  {
    if |s| == 0 then [""]
    else if s[0] == '\n' then [""] + Split(s[1..])
    else
      var rest := Split(s[1..]);
      [[s[0]] + rest[0]] + rest[1..]
  }

  /** The number of newlines in a string. */
  function Newlines(s: string): (count: nat)
  {
    if |s| == 0 then 0 else (if s[0] == '\n' then 1 else 0) + Newlines(s[1..])
  }

  /** The number of newlines in all the parts together. */
  function NewlinesIn(parts: seq<string>): (count: nat)
  {
    if |parts| == 0 then 0 else Newlines(parts[0]) + NewlinesIn(parts[1..])
  }

  lemma {:induction false} NewlinesAppend(a: string, b: string)
    ensures Newlines(a + b) == Newlines(a) + Newlines(b)
    decreases |a|
  {
    if |a| > 0 {
      assert (a + b)[1..] == a[1..] + b;
      NewlinesAppend(a[1..], b);
    } else {
      assert a + b == b;
    }
  }

  /** The join adds exactly one "\n" between consecutive parts: |parts| - 1
      separators in all. */
  lemma {:induction false} JoinSeparators(parts: seq<string>)
    requires |parts| > 0
    ensures Newlines(Join(parts)) == NewlinesIn(parts) + |parts| - 1
    decreases |parts|
  {
    if |parts| > 1 {
      JoinSeparators(parts[1..]);
      NewlinesAppend(parts[0] + "\n", Join(parts[1..]));
      NewlinesAppend(parts[0], "\n");
      assert Newlines("\n") == 1 by {
        assert "\n"[1..] == "";
      }
    } else {
      assert NewlinesIn(parts) == Newlines(parts[0]) + NewlinesIn(parts[1..]);
    }
  }

  /** Splitting a newline-free piece followed by "\n" and more text gives
      that piece, then the pieces of the rest. */
  lemma {:induction false} SplitAfterPiece(p: string, s: string)
    requires '\n' !in p
    ensures Split(p + "\n" + s) == [p] + Split(s)
    decreases |p|
  {
    if |p| == 0 {
      assert p + "\n" + s == "\n" + s;
      assert ("\n" + s)[1..] == s;
    } else {
      assert (p + "\n" + s)[1..] == p[1..] + "\n" + s;
      SplitAfterPiece(p[1..], s);
      assert [p[0]] + p[1..] == p;
    }
  }

  /** A newline-free string splits into itself alone. */
  lemma {:induction false} SplitPlain(p: string)
    requires '\n' !in p
    ensures Split(p) == [p]
    decreases |p|
  {
    if |p| > 0 {
      SplitPlain(p[1..]);
      assert [p[0]] + p[1..] == p;
    }
  }

  /** Split undoes Join: a non-empty list of newline-free parts is recovered,
      part by part and in order, from its join. */
  lemma {:induction false} SplitJoin(parts: seq<string>)
    requires |parts| > 0
    requires forall i :: 0 <= i < |parts| ==> '\n' !in parts[i]
    ensures Split(Join(parts)) == parts
    decreases |parts|
  {
    if |parts| == 1 {
      SplitPlain(parts[0]);
    } else {
      SplitJoin(parts[1..]);
      SplitAfterPiece(parts[0], Join(parts[1..]));
      assert [parts[0]] + parts[1..] == parts;
    }
  }

  /** The summaries of the chunks, one call per chunk, in chunk order
      (the list comprehension of cli.py:113). */
  function SummariesOf(chunks: seq<string>, summarise: string -> string): (summaries: seq<string>)
    ensures |summaries| == |chunks|
    ensures forall i :: 0 <= i < |chunks| ==> summaries[i] == summarise(chunks[i])
  {
    if |chunks| == 0 then [] else [summarise(chunks[0])] + SummariesOf(chunks[1..], summarise)
  }

  /** The summary cli.py:113 returns for a list of chunks: empty for none,
      the lone summary for one, opened by the first summary and closed by the
      last, with one more newline than the summaries hold for every chunk
      after the first. */
  function Assemble(chunks: seq<string>, summarise: string -> string): (summary: string)
    ensures |chunks| == 0 ==> summary == ""
    ensures |chunks| == 1 ==> summary == summarise(chunks[0])
    ensures |chunks| > 0 ==> summarise(chunks[0]) <= summary
    ensures |chunks| > 0 ==> var last := summarise(chunks[|chunks| - 1]);
      |last| <= |summary| && summary[|summary| - |last|..] == last
    ensures |chunks| > 0 ==>
      Newlines(summary) == NewlinesIn(SummariesOf(chunks, summarise)) + |chunks| - 1
  {
    var summaries := SummariesOf(chunks, summarise);
    if |chunks| == 0 then ""
    else
      JoinSeparators(summaries);
      assert summaries[0] == summarise(chunks[0]);
      assert summaries[|summaries| - 1] == summarise(chunks[|chunks| - 1]);
      Join(summaries)
  }

  /** The summary summarize_transcript returns for a transcript: empty when
      there are no chunks, the one chunk's summary when there is one, and in
      every case opened by the first chunk's summary. */
  function Summary<Token>(transcript: string, encode: string -> seq<Token>,
                          decode: seq<Token> -> string, summarise: string -> string): (summary: string)
    ensures |Chunks(transcript, encode, decode)| == 0 ==> summary == ""
    ensures |Chunks(transcript, encode, decode)| == 1 ==>
      summary == summarise(Chunks(transcript, encode, decode)[0])
    ensures |Chunks(transcript, encode, decode)| > 0 ==>
      summarise(Chunks(transcript, encode, decode)[0]) <= summary
  {
    Assemble(Chunks(transcript, encode, decode), summarise)
  }

  /** summarize_transcript (cli.py:89-115): chunk, summarise each chunk,
      join. A failing request aborts the Python run; here `summarise` is
      total, so that path is not modelled. */
  method SummarizeTranscript<Token>(transcript: string, encode: string -> seq<Token>,
                                    decode: seq<Token> -> string, summarise: string -> string)
    returns (summary: string)
    ensures summary == Summary(transcript, encode, decode, summarise)
  {
    var chunks := ChunkTranscript(transcript, encode, decode);
    summary := Join(SummariesOf(chunks, summarise));
  }

  /** An encoder that maps every non-empty string to a non-empty token
      sequence, as a real tokenizer does. */
  ghost predicate NonEmptyEncoding<Token(!new)>(encode: string -> seq<Token>)
  {
    forall s: string :: |s| > 0 ==> |encode(s)| > 0
  }

  /** Because the fixed prompt is never empty, every transcript the encoder
      accepts, even the empty one, gives at least one chunk and so at least
      one request. */
  lemma AtLeastOneChunk<Token(!new)>(transcript: string, encode: string -> seq<Token>,
                                     decode: seq<Token> -> string)
    requires NonEmptyEncoding(encode)
    ensures |Chunks(transcript, encode, decode)| >= 1
  {
  }

  /** Each line of the summary is the summary of its own chunk, in chunk
      order, when no chunk summary itself contains a newline; and there are
      as many lines as chunks. SummaryLinesInOrder covers multi-line
      summaries. */
  lemma SummaryLines(chunks: seq<string>, summarise: string -> string)
    requires |chunks| > 0
    requires forall i :: 0 <= i < |chunks| ==> '\n' !in summarise(chunks[i])
    ensures |Split(Assemble(chunks, summarise))| == |chunks|
    ensures forall i :: 0 <= i < |chunks| ==> Split(Assemble(chunks, summarise))[i] == summarise(chunks[i])
  {
    SplitJoin(SummariesOf(chunks, summarise));
  }

  /** Python's split on a string with a "\n" in it: the pieces before that
      newline, then the pieces after it. */
  lemma {:induction false} SplitNewline(a: string, b: string)
    ensures Split(a + "\n" + b) == Split(a) + Split(b)
    decreases |a|
  {
    if |a| == 0 {
      assert a + "\n" + b == ['\n'] + b;
      SplitConsNewline(b);
    } else {
      var tail := a[1..] + "\n" + b;
      SplitNewline(a[1..], b);
      SplitStep(a[0], a[1..], tail, Split(b));
      assert [a[0]] + a[1..] == a;
      assert [a[0]] + tail == a + "\n" + b;
    }
  }

  /** One step of SplitNewline: if t splits as a's pieces followed by more
      pieces, so does t with a character in front, against a with it. */
  lemma SplitStep(c: char, a: string, t: string, more: seq<string>)
    requires Split(t) == Split(a) + more
    ensures Split([c] + t) == Split([c] + a) + more
  {
    var left := Split(a);
    if c == '\n' {
      SplitConsNewline(t);
      SplitConsNewline(a);
      assert [""] + (left + more) == ([""] + left) + more;
    } else {
      SplitConsOther(c, t);
      SplitConsOther(c, a);
      GlueHead([c], left, more);
    }
  }

  /** Split on a string that starts with a newline. */
  lemma SplitConsNewline(t: string)
    ensures Split(['\n'] + t) == [""] + Split(t)
  {
    assert (['\n'] + t)[1..] == t;
  }

  /** Split on a string that starts with a character other than a newline. */
  lemma SplitConsOther(c: char, t: string)
    requires c != '\n'
    ensures Split([c] + t) == [[c] + Split(t)[0]] + Split(t)[1..]
  {
    assert ([c] + t)[0] == c;
    assert ([c] + t)[1..] == t;
  }

  /** Gluing a prefix onto the first piece commutes with appending pieces. */
  lemma GlueHead(p: string, left: seq<string>, more: seq<string>)
    requires |left| >= 1
    ensures [p + (left + more)[0]] + (left + more)[1..] == ([p + left[0]] + left[1..]) + more
  {
    assert (left + more)[0] == left[0];
    assert (left + more)[1..] == left[1..] + more;
  }

  /** The lines of each summary in turn: the pieces of every part's split,
      concatenated in order. */
  function LinesOf(parts: seq<string>): (lines: seq<string>)
    ensures |lines| >= |parts|
  {
    if |parts| == 0 then [] else Split(parts[0]) + LinesOf(parts[1..])
  }

  /** The lines of a join are the lines of its parts, part by part, whatever
      the parts hold. */
  lemma {:induction false} SplitJoinLines(parts: seq<string>)
    requires |parts| > 0
    ensures Split(Join(parts)) == LinesOf(parts)
    decreases |parts|
  {
    if |parts| == 1 {
      assert LinesOf(parts[1..]) == [];
      assert Split(parts[0]) + [] == Split(parts[0]);
    } else {
      SplitJoinLines(parts[1..]);
      SplitNewline(parts[0], Join(parts[1..]));
    }
  }

  /** For every non-empty list of chunks, whatever the summaries hold, the
      lines of the summary are the lines of each chunk's summary, chunk by
      chunk in chunk order. */
  lemma {:induction false} SummaryLinesInOrder(chunks: seq<string>, summarise: string -> string)
    requires |chunks| > 0
    ensures Split(Assemble(chunks, summarise)) ==
      Flatten(seq(|chunks|, i requires 0 <= i < |chunks| => Split(summarise(chunks[i]))))
  {
    SplitJoinLines(SummariesOf(chunks, summarise));
    LinesOfSummaries(chunks, summarise);
  }

  lemma {:induction false} LinesOfSummaries(chunks: seq<string>, summarise: string -> string)
    ensures LinesOf(SummariesOf(chunks, summarise)) ==
      Flatten(seq(|chunks|, i requires 0 <= i < |chunks| => Split(summarise(chunks[i]))))
    decreases |chunks|
  {
    var lines := seq(|chunks|, i requires 0 <= i < |chunks| => Split(summarise(chunks[i])));
    if |chunks| > 0 {
      var rest := chunks[1..];
      LinesOfSummaries(rest, summarise);
      assert SummariesOf(chunks, summarise)[1..] == SummariesOf(rest, summarise);
      assert lines[1..] == seq(|rest|, i requires 0 <= i < |rest| => Split(summarise(rest[i])));
    }
  }

  /** A transcript whose prefixed text fits in 15000 tokens is one chunk, the
      decode of all its tokens, and the summary is that chunk's summary
      unchanged. */
  lemma OneChunkSummary<Token(!new)>(transcript: string, encode: string -> seq<Token>,
                                     decode: seq<Token> -> string, summarise: string -> string)
    requires NonEmptyEncoding(encode)
    requires |Tokens(transcript, encode)| <= ChunkSize
    ensures Chunks(transcript, encode, decode) == [decode(Tokens(transcript, encode))]
    ensures Summary(transcript, encode, decode, summarise) == summarise(decode(Tokens(transcript, encode)))
  {
    assert |Prompt + transcript| > 0;
    SingleWindow(Tokens(transcript, encode), ChunkSize);
  }
}
