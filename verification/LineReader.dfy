/** Cutting a stream of bytes into lines (collector/core/LineReader.cpp). */
module LineReader {
  import opened Text

  predicate NoNewline(s: string) {
    '\n' !in s
  }

  /** The newline-terminated lines of a stream, in order. */
  function Lines(stream: string): seq<string> {
    var end := Find(stream, '\n', 0);
    if end == |stream| then [] else [stream[..end]] + Lines(stream[end + 1..])
  }

  /** What follows the last newline. */
  function Tail(stream: string): string {
    var end := Find(stream, '\n', 0);
    if end == |stream| then stream else Tail(stream[end + 1..])
  }

  /** The lines as a sender puts them on the wire. */
  function Framed(lines: seq<string>): string {
    if lines == [] then "" else lines[0] + "\n" + Framed(lines[1..])
  }

  function Fitting(lines: seq<string>, limit: nat): seq<string> {
    if lines == [] then []
    else (if |lines[0]| <= limit then [lines[0]] else []) + Fitting(lines[1..], limit)
  }

  function TooLong(lines: seq<string>, limit: nat): nat {
    if lines == [] then 0 else (if |lines[0]| > limit then 1 else 0) + TooLong(lines[1..], limit)
  }

  /** The lines a reader hands on from a whole stream. */
  function Emitted(stream: string, limit: nat): seq<string> {
    Fitting(Lines(stream), limit)
  }

  /** The lines it gives up on: the complete ones over the limit, and the tail once it is over it. */
  function Discarded(stream: string, limit: nat): nat {
    TooLong(Lines(stream), limit) + (if |Tail(stream)| > limit then 1 else 0)
  }

  // ----- appending to a stream -----

  lemma NewlineAt(head: string, rest: string)
    requires NoNewline(head)
    ensures Lines(head + "\n" + rest) == [head] + Lines(rest)
    ensures Tail(head + "\n" + rest) == Tail(rest)
  {
    var s := head + "\n" + rest;
    assert s[0..|head|] == head && s[|head| + 1..] == rest;
    FindIsFirst(s, '\n', 0, |head|);
  }

  lemma NewlineNowhere(s: string)
    requires NoNewline(s)
    ensures Lines(s) == [] && Tail(s) == s
  {
    assert s[0..|s|] == s;
    FindIsFirst(s, '\n', 0, |s|);
  }

  lemma FirstLineSplits(s: string) returns (head: string, rest: string)
    requires !NoNewline(s)
    ensures NoNewline(head) && s == head + "\n" + rest
  {
    var end := Find(s, '\n', 0);
    assert s[0..end] == s[..end];
    head, rest := s[..end], s[end + 1..];
  }

  lemma FramedCons(head: string, lines: seq<string>, rest: string)
    ensures Framed([head] + lines) + rest == head + "\n" + (Framed(lines) + rest)
  {
    assert ([head] + lines)[1..] == lines;
    Regroup(head + "\n", Framed(lines), rest);
  }

  lemma {:induction false} FramedOfConcat(a: seq<string>, b: seq<string>)
    ensures Framed(a + b) == Framed(a) + Framed(b)
  {
    if a == [] {
      assert a + b == b;
    } else {
      assert (a + b)[1..] == a[1..] + b;
      FramedOfConcat(a[1..], b);
    }
  }

  lemma FramedOfOne(line: string)
    ensures Framed([line]) == line + "\n"
  {
    assert Framed([line][1..]) == "";
  }

  /** A stream is its lines framed, then its tail. */
  lemma {:induction false} StreamIsItsLines(stream: string)
    ensures stream == Framed(Lines(stream)) + Tail(stream)
    ensures NoNewline(Tail(stream)) && forall l | l in Lines(stream) :: NoNewline(l)
    decreases |stream|
  {
    if NoNewline(stream) {
      NewlineNowhere(stream);
    } else {
      hide Lines, Tail, Framed;
      var head, rest := FirstLineSplits(stream);
      NewlineAt(head, rest);
      StreamIsItsLines(rest);
      FramedCons(head, Lines(rest), Tail(rest));
    }
  }

  /** Cutting undoes framing: the lines and the tail of a framed stream are the ones it was made of. */
  lemma {:induction false} CuttingUndoesFraming(lines: seq<string>, rest: string)
    requires forall l | l in lines :: NoNewline(l)
    ensures Lines(Framed(lines) + rest) == lines + Lines(rest)
    ensures Tail(Framed(lines) + rest) == Tail(rest)
  {
    hide Lines, Tail;
    if lines == [] {
      assert Framed(lines) + rest == rest;
      assert lines + Lines(rest) == Lines(rest);
    } else {
      hide Framed;
      var head, more := lines[0], lines[1..];
      assert lines == [head] + more;
      FramedCons(head, more, rest);
      NewlineAt(head, Framed(more) + rest);
      CuttingUndoesFraming(more, rest);
      Regroup([head], more, Lines(rest));
    }
  }

  /** Lines are only ever added as a stream grows, and what is added depends on the tail alone. */
  lemma LinesOfConcat(stream: string, more: string)
    ensures Lines(stream + more) == Lines(stream) + Lines(Tail(stream) + more)
    ensures Tail(stream + more) == Tail(Tail(stream) + more)
  {
    hide Lines, Tail, Framed;
    StreamIsItsLines(stream);
    assert stream + more == Framed(Lines(stream)) + (Tail(stream) + more);
    CuttingUndoesFraming(Lines(stream), Tail(stream) + more);
  }

  lemma AppendPart(stream: string, part: string)
    requires NoNewline(part)
    ensures Lines(stream + part) == Lines(stream) && Tail(stream + part) == Tail(stream) + part
  {
    LinesOfConcat(stream, part);
    StreamIsItsLines(stream);
    NewlineNowhere(Tail(stream) + part);
  }

  lemma AppendLine(stream: string, part: string)
    requires NoNewline(part)
    ensures Lines(stream + part + "\n") == Lines(stream) + [Tail(stream) + part]
    ensures Tail(stream + part + "\n") == ""
  {
    hide Lines, Tail;
    StreamIsItsLines(stream);
    LinesOfConcat(stream, part + "\n");
    assert stream + part + "\n" == stream + (part + "\n");
    var last := Tail(stream) + part;
    assert Tail(stream) + (part + "\n") == last + "\n" + "";
    NewlineAt(last, "");
    NewlineNowhere("");
  }

  lemma {:induction false} FittingOfConcat(a: seq<string>, b: seq<string>, limit: nat)
    ensures Fitting(a + b, limit) == Fitting(a, limit) + Fitting(b, limit)
    ensures TooLong(a + b, limit) == TooLong(a, limit) + TooLong(b, limit)
  {
    if a == [] {
      assert a + b == b;
    } else {
      assert (a + b)[1..] == a[1..] + b;
      FittingOfConcat(a[1..], b, limit);
    }
  }

  /** A line is handed on when it is no longer than the limit, and given up on when it is. */
  lemma FittingOfOne(line: string, limit: nat)
    ensures Fitting([line], limit) == if |line| <= limit then [line] else []
    ensures TooLong([line], limit) == if |line| <= limit then 0 else 1
    ensures DEFAULT_LIMIT == 1024 * 1024
  {
    assert [line][1..] == [];
  }

  /** What appending a part of a line, or the rest of one, does to the two results. */
  lemma PartEffect(stream: string, part: string, limit: nat)
    requires NoNewline(part)
    ensures Emitted(stream + part, limit) == Emitted(stream, limit)
    ensures var now := |Tail(stream)| + |part| > limit; var before := |Tail(stream)| > limit;
            Discarded(stream + part, limit) == Discarded(stream, limit) + (if now && !before then 1 else 0)
  {
    AppendPart(stream, part);
  }

  lemma LineEffect(stream: string, part: string, limit: nat)
    requires NoNewline(part)
    ensures var last := Tail(stream) + part;
            Emitted(stream + part + "\n", limit) ==
            Emitted(stream, limit) + (if |last| <= limit then [last] else [])
    ensures var now := |Tail(stream)| + |part| > limit; var before := |Tail(stream)| > limit;
            Discarded(stream + part + "\n", limit) == Discarded(stream, limit) + (if now && !before then 1 else 0)
  {
    var last := Tail(stream) + part;
    AppendLine(stream, part);
    FittingOfConcat(Lines(stream), [last], limit);
  }

  /** Emitted lines are never taken back. */
  lemma EmittedOnlyGrows(stream: string, more: string, limit: nat)
    ensures Emitted(stream, limit) <= Emitted(stream + more, limit)
  {
    LinesOfConcat(stream, more);
    FittingOfConcat(Lines(stream), Lines(Tail(stream) + more), limit);
  }

  // ----- how many lines one chunk can discard -----

  /** Every discarded line of a fresh stream takes more than `limit` bytes of it. */
  lemma {:induction false} ShortStreamsDiscardLittle(stream: string, limit: nat)
    ensures |stream| <= limit ==> Discarded(stream, limit) == 0
    ensures |stream| <= limit + 1 ==> Discarded(stream, limit) <= 1
    decreases |stream|
  {
    if NoNewline(stream) {
      NewlineNowhere(stream);
    } else {
      var head, rest := FirstLineSplits(stream);
      NewlineAt(head, rest);
      ShortStreamsDiscardLittle(rest, limit);
      assert Lines(stream)[1..] == Lines(rest);
    }
  }

  lemma DiscardedAfterLine(stream: string, more: string, limit: nat)
    requires Tail(stream) == ""
    ensures Discarded(stream + more, limit) == Discarded(stream, limit) + Discarded(more, limit)
  {
    LinesOfConcat(stream, more);
    assert Tail(stream) + more == more;
    FittingOfConcat(Lines(stream), Lines(more), limit);
  }

  /** A chunk of at most `limit + 2` bytes makes a reader give up on at most one line. */
  lemma ShortChunkDiscardsAtMostOne(stream: string, chunk: string, limit: nat)
    requires |chunk| <= limit + 2
    ensures Discarded(stream, limit) <= Discarded(stream + chunk, limit) <= Discarded(stream, limit) + 1
  {
    hide Lines, Tail, Emitted, Discarded;
    if NoNewline(chunk) {
      PartEffect(stream, chunk, limit);
    } else {
      var head, rest := FirstLineSplits(chunk);
      LineEffect(stream, head, limit);
      AppendLine(stream, head);
      assert stream + chunk == (stream + head + "\n") + rest;
      DiscardedAfterLine(stream + head + "\n", rest, limit);
      ShortStreamsDiscardLittle(rest, limit);
    }
  }

  function Repeat(c: char, n: nat): (s: string)
    ensures |s| == n && forall e | e in s :: e == c
  {
    seq(n, _ => c)
  }

  /** For every limit every longer size has a chunk that makes a reader give up on two. */
  lemma LongerChunkCanDiscardTwo(limit: nat, size: nat) returns (stream: string, chunk: string)
    requires size >= limit + 3
    ensures |chunk| == size && Discarded(stream + chunk, limit) == Discarded(stream, limit) + 2
  {
    hide Lines, Tail, Emitted;
    var rest := Repeat('b', size - 2);
    stream, chunk := Repeat('a', limit), "a" + "\n" + rest;
    NewlineNowhere(stream);
    LineEffect(stream, "a", limit);
    AppendLine(stream, "a");
    assert stream + chunk == (stream + "a" + "\n") + rest;
    DiscardedAfterLine(stream + "a" + "\n", rest, limit);
    NewlineNowhere(rest);
  }

  predicate DiscardsAtMostOneMore(stream: string, chunk: string, limit: nat) {
    Discarded(stream + chunk, limit) <= Discarded(stream, limit) + 1
  }

  /** So false returns count the lines given up on exactly for chunk sizes up to the limit plus two. */
  lemma OneChunkDiscardsOneIff(limit: nat, size: nat)
    ensures size <= limit + 2 <==>
            forall stream, chunk: string | |chunk| == size :: DiscardsAtMostOneMore(stream, chunk, limit)
  {
    hide Discarded;
    if size <= limit + 2 {
      forall stream, chunk: string | |chunk| == size ensures DiscardsAtMostOneMore(stream, chunk, limit) {
        ShortChunkDiscardsAtMostOne(stream, chunk, limit);
      }
    } else {
      var stream, chunk := LongerChunkCanDiscardTwo(limit, size);
      assert !DiscardsAtMostOneMore(stream, chunk, limit);
    }
  }

  // ----- the reader -----

  const DEFAULT_LIMIT := 1048576

  class LineReader {
    const limit: nat
    var pending: string
    var skipping: bool
    /** Everything fed so far. */
    ghost var stream: string

    /** The two fields are determined by the stream alone, however it was cut. */
    ghost predicate Valid()
      reads this
    {
      && skipping == (|Tail(stream)| > limit)
      && pending == (if skipping then "" else Tail(stream))
    }

    constructor (limit: nat)
      ensures Valid() && this.limit == limit && stream == ""
    {
      this.limit := limit;
      pending, skipping, stream := "", false, "";
      NewlineNowhere("");
    }

    method Feed(chunk: string, lines: seq<string>) returns (complete: bool, out: seq<string>)
      requires Valid()
      modifies this
      ensures Valid() && stream == old(stream) + chunk
      ensures lines <= out
      ensures Emitted(stream, limit) == Emitted(old(stream), limit) + out[|lines|..]
      ensures Discarded(old(stream), limit) <= Discarded(stream, limit)
      ensures complete <==> Discarded(stream, limit) == Discarded(old(stream), limit)
    {
      hide Lines, Tail, Emitted, Discarded;
      complete, out := true, lines;
      var left := chunk;
      ghost var added: seq<string> := [];
      while left != ""
        invariant Valid() && stream + left == old(stream) + chunk
        invariant out == lines + added
        invariant Emitted(stream, limit) == Emitted(old(stream), limit) + added
        invariant Discarded(old(stream), limit) <= Discarded(stream, limit)
        invariant complete <==> Discarded(stream, limit) == Discarded(old(stream), limit)
        decreases |left|
      {
        var end := Find(left, '\n', 0);
        ghost var part := left[..end];
        assert left[0..end] == part;
        if end == |left| {
          PartEffect(stream, part, limit);
          AppendPart(stream, part);
          stream := stream + part;
          if skipping {
            return;
          }
          if |pending| + |left| > limit {
            pending, skipping := "", true;
            return false, out;
          }
          pending := pending + left;
          return;
        }

        LineEffect(stream, part, limit);
        AppendLine(stream, part);
        ghost var rest := left[end + 1..];
        assert left == part + "\n" + rest;
        assert stream + left == (stream + part + "\n") + rest;
        stream := stream + part + "\n";
        if skipping {
          left := left[end + 1..];
          skipping := false;
          continue;
        }
        if |pending| + end > limit {
          pending, complete := "", false;
        } else {
          pending := pending + left[..end];
          out, added := out + [pending], added + [pending];
          pending := "";
        }
        left := left[end + 1..];
      }
    }
  }

  function Joined(chunks: seq<string>): string {
    if chunks == [] then "" else Joined(chunks[..|chunks| - 1]) + chunks[|chunks| - 1]
  }

  /** However a stream is cut into chunks, a fresh reader hands on the same lines and ends in the same state;
      and when no chunk is longer than `limit + 2`, it reports exactly the lines it gave up on. */
  method FeedAll(chunks: seq<string>, limit: nat) returns (reader: LineReader, lines: seq<string>, failures: nat)
    ensures fresh(reader) && reader.Valid() && reader.limit == limit && reader.stream == Joined(chunks)
    ensures lines == Emitted(Joined(chunks), limit)
    ensures failures <= Discarded(Joined(chunks), limit)
    ensures (forall c | c in chunks :: |c| <= limit + 2) ==> failures == Discarded(Joined(chunks), limit)
  {
    hide Lines, Tail;
    reader := new LineReader(limit);
    lines, failures := [], 0;
    NewlineNowhere("");
    for i := 0 to |chunks|
      invariant reader.Valid() && reader.limit == limit && reader.stream == Joined(chunks[..i]) && fresh(reader)
      invariant lines == Emitted(reader.stream, limit)
      invariant failures <= Discarded(reader.stream, limit)
      invariant (forall c | c in chunks[..i] :: |c| <= limit + 2) ==> failures == Discarded(reader.stream, limit)
    {
      ghost var before := reader.stream;
      var complete;
      complete, lines := reader.Feed(chunks[i], lines);
      if !complete {
        failures := failures + 1;
      }
      assert chunks[..i + 1][..i] == chunks[..i] && chunks[i] in chunks[..i + 1];
      if |chunks[i]| <= limit + 2 {
        ShortChunkDiscardsAtMostOne(before, chunks[i], limit);
      }
    }
    assert chunks[..|chunks|] == chunks;
  }
}
