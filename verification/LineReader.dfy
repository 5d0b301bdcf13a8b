/**
 The bounded line reader of a connection: it assembles one newline-terminated line from whatever chunks the
 socket delivers, never buffering more than `maxLen` bytes, and drains over-long lines.
 Lines are byte strings here; the lossy UTF-8 decoding of the result is not modelled.
 */
module LineReader {

  newtype byte = x: int | 0 <= x < 256

  const LF: byte := 10
  const CR: byte := 13

  /** `Err` is an I/O error, `Eof` the end of the stream with nothing read. */
  datatype ReadResult = Err | Eof | Line(bytes: seq<byte>)

  predicate NoLf(s: seq<byte>) {
    forall i :: 0 <= i < |s| ==> s[i] != LF
  }

  /** The index of the first newline, or the length if there is none. */
  function Newline(s: seq<byte>): (p: nat)
    ensures p <= |s| && (p < |s| ==> s[p] == LF)
    ensures forall i :: 0 <= i < p ==> s[i] != LF
  {
    if s == [] || s[0] == LF then 0 else 1 + Newline(s[1..])
  }

  function Flatten(chunks: seq<seq<byte>>): seq<byte> {
    if chunks == [] then [] else chunks[0] + Flatten(chunks[1..])
  }

  /** A buffered socket: the chunks still to be delivered, the first one possibly consumed in part.
      When they run out the peer has closed the connection, or the read fails. */
  class Reader {
    var chunks: seq<seq<byte>>
    const fails: bool

    constructor (chunks: seq<seq<byte>>, fails: bool)
      requires [] !in chunks
      ensures Valid() && Rest() == Flatten(chunks) && this.fails == fails
    {
      this.chunks := chunks;
      this.fails := fails;
    }

    ghost predicate Valid()
      reads this
    {
      [] !in chunks
    }

    /** The bytes still to come, however they are cut into chunks. */
    ghost function Rest(): seq<byte>
      reads this
    {
      Flatten(chunks)
    }

    /** The buffered bytes, after a read if there are none; empty at the end of the stream. */
    method FillBuf() returns (ok: bool, chunk: seq<byte>)
      requires Valid()
      ensures chunks == [] ==> ok == !fails && chunk == []
      ensures chunks != [] ==> ok && chunk == chunks[0] && chunk != [] && chunk <= Rest()
    {
      if chunks == [] {
        return !fails, [];
      }
      return true, chunks[0];
    }

    method Consume(n: nat)
      requires Valid() && chunks != [] && n <= |chunks[0]|
      modifies this
      ensures Valid() && n <= |old(Rest())| && Rest() == old(Rest())[n..]
    {
      var left := chunks[0][n..];
      var others := chunks[1..];
      assert Rest() == chunks[0] + Flatten(others);
      assert Rest()[n..] == left + Flatten(others);
      if left == [] {
        chunks := others;
      } else {
        chunks := [left] + others;
        assert chunks[1..] == others;
      }
    }
  }

  // ---- The specification: split on newline ----

  function StripCr(line: seq<byte>): seq<byte> {
    if line != [] && line[|line| - 1] == CR then line[..|line| - 1] else line
  }

  /** The next line of a byte stream. An over-long line comes out empty; a newline-ended line loses one
      trailing CR; an unterminated last line keeps it; nothing left is the end. */
  function NextLine(s: seq<byte>, fails: bool, maxLen: nat): ReadResult {
    var p := Newline(s);
    if p == |s| && fails then Err
    else if s == [] then Eof
    else if p > maxLen then Line([])
    else if p < |s| then Line(StripCr(s[..p]))
    else Line(s)
  }

  /** What is left after the line: everything behind its newline. */
  function AfterLine(s: seq<byte>): seq<byte> {
    var p := Newline(s);
    if p < |s| then s[p + 1..] else []
  }

  lemma NoNewline(s: seq<byte>)
    requires NoLf(s)
    ensures Newline(s) == |s|
  {
  }

  /** A whole line without its newline, as the reader hands it on. */
  function Cooked(line: seq<byte>, maxLen: nat): seq<byte> {
    if |line| > maxLen then [] else StripCr(line)
  }

  lemma {:induction false} NewlineBehind(line: seq<byte>, after: seq<byte>)
    requires NoLf(line)
    ensures Newline(line + [LF] + after) == |line|
    decreases |line|
  {
    var s := line + [LF] + after;
    if line == [] {
      assert s[0] == LF;
    } else {
      assert s[1..] == line[1..] + [LF] + after;
      NewlineBehind(line[1..], after);
    }
  }

  /** The next line of a stream that has a newline. */
  lemma TerminatedLine(line: seq<byte>, after: seq<byte>, fails: bool, maxLen: nat)
    requires NoLf(line)
    ensures NextLine(line + [LF] + after, fails, maxLen) == Line(Cooked(line, maxLen))
    ensures AfterLine(line + [LF] + after) == after
  {
    var s := line + [LF] + after;
    NewlineBehind(line, after);
    assert s[..|line|] == line && s[|line| + 1..] == after;
  }

  /** A line ended by CR and newline comes out without the two, whatever it ends in itself; one ended by newline alone
      comes out whole unless it ends in CR. */
  lemma CrLfLine(line: seq<byte>, after: seq<byte>, fails: bool, maxLen: nat)
    requires NoLf(line)
    ensures |line| + 1 <= maxLen ==> NextLine(line + [13, 10] + after, fails, maxLen) == Line(line)
    ensures |line| <= maxLen && (line == [] || line[|line| - 1] != 13) ==>
              NextLine(line + [10] + after, fails, maxLen) == Line(line)
    ensures |line| > maxLen ==> NextLine(line + [10] + after, fails, maxLen) == Line([])
  {
    TerminatedLine(line + [CR], after, fails, maxLen);
    assert line + [13, 10] + after == line + [CR] + [LF] + after;
    TerminatedLine(line, after, fails, maxLen);
  }

  lemma SplitAround<T>(s: seq<T>, p: nat)
    requires p < |s|
    ensures s == s[..p] + [s[p]] + s[p + 1..]
  {
  }

  lemma Regrouped<T>(a: seq<T>, b: seq<T>, c: seq<T>, d: seq<T>)
    ensures a + (b + c + d) == (a + b) + c + d
  {
  }

  /** The newline in the chunk at hand ends the line read so far. */
  lemma LineEnds(seen: seq<byte>, chunk: seq<byte>, rest: seq<byte>, p: nat)
    requires chunk <= rest && p < |chunk| && chunk[p] == LF
    ensures seen + rest == (seen + chunk[..p]) + [LF] + rest[p + 1..]
  {
    SplitAround(rest, p);
    assert rest[..p] == chunk[..p];
    Regrouped(seen, chunk[..p], [LF], rest[p + 1..]);
  }

  /** Without a newline the whole chunk belongs to the line. */
  lemma LineGoesOn(stream: seq<byte>, seen: seq<byte>, chunk: seq<byte>, rest: seq<byte>)
    requires NoLf(seen) && chunk <= rest && chunk != [] && Newline(chunk) == |chunk| && stream == seen + rest
    ensures NoLf(seen + chunk) && stream == (seen + chunk) + rest[|chunk|..] && |rest[|chunk|..]| < |rest|
  {
    assert rest == chunk + rest[|chunk|..];
  }

  lemma StreamEnds(stream: seq<byte>, fails: bool, maxLen: nat)
    requires NoLf(stream)
    ensures AfterLine(stream) == []
    ensures NextLine(stream, fails, maxLen) ==
            if fails then Err else if stream == [] then Eof
            else if |stream| > maxLen then Line([]) else Line(stream)
  {
    NoNewline(stream);
  }

  /** The bytes buffered so far stand for the line read so far, as long as it fits. */
  predicate Buffered(buf: seq<byte>, overflow: bool, seen: seq<byte>, maxLen: nat) {
    |buf| <= maxLen && if overflow then |seen| > maxLen else buf == seen
  }

  lemma CookedIs(buf: seq<byte>, overflow: bool, line: seq<byte>, maxLen: nat)
    requires Buffered(buf, overflow, line, maxLen)
    ensures Cooked(line, maxLen) == if overflow then [] else StripCr(buf)
  {
  }

  /** Adds the next part of the line to the buffer, unless the line is or becomes too long. */
  method Store(buf: seq<byte>, overflow: bool, part: seq<byte>, maxLen: nat, ghost seen: seq<byte>)
    returns (buf': seq<byte>, overflow': bool)
    requires Buffered(buf, overflow, seen, maxLen)
    ensures Buffered(buf', overflow', seen + part, maxLen)
  {
    buf', overflow' := buf, overflow;
    if !overflow {
      var avail := maxLen - |buf|;
      var take := if |part| < avail then |part| else avail;
      buf' := buf + part[..take];
      if |part| > avail {
        overflow' := true;
      }
    }
  }

  /** Reads one line. For every stream and every way of cutting it into chunks the result and what is left
      of the stream are those of the specification; the buffer never holds more than `maxLen` bytes. */
  method ReadLineBounded(reader: Reader, maxLen: nat) returns (r: ReadResult)
    requires reader.Valid()
    modifies reader
    ensures reader.Valid()
    ensures r == NextLine(old(reader.Rest()), reader.fails, maxLen)
    ensures reader.Rest() == AfterLine(old(reader.Rest()))
  {
    var buf: seq<byte> := [];
    var overflow := false;
    ghost var stream := reader.Rest();
    ghost var seen: seq<byte> := [];
    while true
      invariant reader.Valid()
      invariant stream == seen + reader.Rest()
      invariant NoLf(seen)
      invariant Buffered(buf, overflow, seen, maxLen)
      decreases |reader.Rest()|
    {
      ghost var rest := reader.Rest();
      var ok, chunk := reader.FillBuf();
      if chunk == [] {
        assert stream == seen;
        StreamEnds(seen, reader.fails, maxLen);
        if !ok {
          return Err;
        }
        if buf == [] && !overflow {
          return Eof;
        }
        if overflow {
          return Line([]);
        }
        return Line(buf);
      }
      var pos := Newline(chunk);
      if pos < |chunk| {
        LineEnds(seen, chunk, rest, pos);
        TerminatedLine(seen + chunk[..pos], rest[pos + 1..], reader.fails, maxLen);
        buf, overflow := Store(buf, overflow, chunk[..pos], maxLen, seen);
        CookedIs(buf, overflow, seen + chunk[..pos], maxLen);
        reader.Consume(pos + 1);
        if overflow {
          return Line([]);
        }
        return Line(StripCr(buf));
      } else {
        buf, overflow := Store(buf, overflow, chunk, maxLen, seen);
        reader.Consume(|chunk|);
        LineGoesOn(stream, seen, chunk, rest);
        seen := seen + chunk;
      }
    }
  }

  // ---- Framing ----

  /** The lines of a whole stream that ends without an error. */
  function AllLines(s: seq<byte>, maxLen: nat): seq<seq<byte>>
    decreases |s|
  {
    if s == [] then []
    else
      [NextLine(s, false, maxLen).bytes] + AllLines(AfterLine(s), maxLen)
  }

  lemma Regroup<T>(a: seq<T>, b: T, c: seq<T>)
    ensures a + [b] + c == a + ([b] + c)
  {
  }

  /** Reads until the end of the stream, as the loop of a connection does. */
  method ReadAll(reader: Reader, maxLen: nat) returns (lines: seq<seq<byte>>, ok: bool)
    requires reader.Valid()
    modifies reader
    ensures ok <==> !reader.fails
    ensures ok ==> lines == AllLines(old(reader.Rest()), maxLen)
  {
    lines := [];
    while true
      invariant reader.Valid()
      invariant !reader.fails ==> lines + AllLines(reader.Rest(), maxLen) == AllLines(old(reader.Rest()), maxLen)
      decreases |reader.Rest()|
    {
      ghost var before := reader.Rest();
      var r := ReadLineBounded(reader, maxLen);
      match r
      case Err => return lines, false;
      case Eof => return lines, true;
      case Line(bytes) =>
        assert !reader.fails ==> AllLines(before, maxLen) == [bytes] + AllLines(reader.Rest(), maxLen);
        Regroup(lines, bytes, AllLines(reader.Rest(), maxLen));
        lines := lines + [bytes];
    }
  }

  /** Each payload followed by a newline. */
  function Frame(payloads: seq<seq<byte>>): seq<byte> {
    if payloads == [] then [] else payloads[0] + [LF] + Frame(payloads[1..])
  }

  /** A payload the reader gives back unchanged. */
  predicate Framable(p: seq<byte>, maxLen: nat) {
    NoLf(p) && |p| <= maxLen && (p == [] || p[|p| - 1] != CR)
  }

  function Newlines(s: seq<byte>): nat {
    if s == [] then 0 else Newlines(s[1..]) + if s[0] == LF then 1 else 0
  }

  lemma {:induction false} NewlinesOfConcat(a: seq<byte>, b: seq<byte>)
    ensures Newlines(a + b) == Newlines(a) + Newlines(b)
    decreases |a|
  {
    if a == [] {
      assert a + b == b;
    } else {
      assert (a + b)[1..] == a[1..] + b;
      NewlinesOfConcat(a[1..], b);
    }
  }

  lemma {:induction false} NoNewlines(s: seq<byte>)
    ensures Newlines(s) == 0 <==> NoLf(s)
    decreases |s|
  {
    if s == [] {
    } else {
      NoNewlines(s[1..]);
      assert s == [s[0]] + s[1..];
    }
  }

  lemma {:induction false} NewlinesOfFrame(payloads: seq<seq<byte>>)
    ensures Newlines(Frame(payloads)) >= |payloads|
    decreases |payloads|
  {
    if payloads == [] {
    } else {
      var p, rest := payloads[0], Frame(payloads[1..]);
      NewlinesOfFrame(payloads[1..]);
      NewlinesOfConcat(p + [LF], rest);
      NewlinesOfConcat(p, [LF]);
    }
  }

  /** A stream has at least as many lines as newlines. */
  lemma {:induction false} LinesCoverNewlines(s: seq<byte>, maxLen: nat)
    ensures |AllLines(s, maxLen)| >= Newlines(s)
    decreases |s|
  {
    if s == [] {
    } else {
      var p := Newline(s);
      NoNewlines(s[..p]);
      assert s == s[..p] + s[p..];
      NewlinesOfConcat(s[..p], s[p..]);
      if p < |s| {
        assert s[p..][1..] == s[p + 1..];
      }
      LinesCoverNewlines(AfterLine(s), maxLen);
    }
  }

  lemma FirstFrame(p: seq<byte>, rest: seq<byte>, maxLen: nat)
    requires NoLf(p)
    ensures AllLines(p + [LF] + rest, maxLen) == [Cooked(p, maxLen)] + AllLines(rest, maxLen)
  {
    TerminatedLine(p, rest, false, maxLen);
    assert p + [LF] + rest != [];
  }

  /** A newline inside a payload yields more lines than payloads. */
  lemma TornPayload(payloads: seq<seq<byte>>, maxLen: nat)
    requires payloads != [] && !NoLf(payloads[0])
    ensures |AllLines(Frame(payloads), maxLen)| > |payloads|
  {
    var p, others := payloads[0], payloads[1..];
    NoNewlines(p);
    NewlinesOfFrame(others);
    NewlinesOfConcat(p + [LF], Frame(others));
    NewlinesOfConcat(p, [LF]);
    LinesCoverNewlines(Frame(payloads), maxLen);
  }

  predicate AllFramable(payloads: seq<seq<byte>>, maxLen: nat) {
    forall i :: 0 <= i < |payloads| ==> Framable(payloads[i], maxLen)
  }

  /** The payloads come back as they were. */
  predicate RoundTrips(payloads: seq<seq<byte>>, maxLen: nat) {
    AllLines(Frame(payloads), maxLen) == payloads
  }

  lemma RoundTripsFirst(payloads: seq<seq<byte>>, maxLen: nat)
    requires payloads != [] && NoLf(payloads[0])
    ensures RoundTrips(payloads, maxLen) <==>
            Cooked(payloads[0], maxLen) == payloads[0] && RoundTrips(payloads[1..], maxLen)
  {
    var p, others := payloads[0], payloads[1..];
    FirstFrame(p, Frame(others), maxLen);
    ConsEqual(Cooked(p, maxLen), AllLines(Frame(others), maxLen), p, others);
    assert payloads == [p] + others;
  }

  /** Framing round trip: cutting the framed payloads into lines gives back exactly the payload list if and only if no
      payload contains a newline, ends in CR or exceeds the limit. */
  lemma {:induction false} FramingRoundTripIff(payloads: seq<seq<byte>>, maxLen: nat)
    ensures RoundTrips(payloads, maxLen) <==> AllFramable(payloads, maxLen)
    decreases |payloads|
  {
    if payloads == [] {
    } else if !NoLf(payloads[0]) {
      TornPayload(payloads, maxLen);
      assert !Framable(payloads[0], maxLen);
    } else {
      FramingRoundTripIff(payloads[1..], maxLen);
      RoundTripsFirst(payloads, maxLen);
      FramableFirst(payloads, maxLen);
    }
  }

  lemma ConsEqual<T>(a: T, b: seq<T>, c: T, d: seq<T>)
    ensures [a] + b == [c] + d <==> a == c && b == d
  {
    assert ([a] + b)[0] == a && ([c] + d)[0] == c;
    assert ([a] + b)[1..] == b && ([c] + d)[1..] == d;
  }

  lemma FramableFirst(payloads: seq<seq<byte>>, maxLen: nat)
    requires payloads != [] && NoLf(payloads[0])
    ensures AllFramable(payloads, maxLen) <==>
            Cooked(payloads[0], maxLen) == payloads[0] && AllFramable(payloads[1..], maxLen)
  {
    var others := payloads[1..];
    assert Cooked(payloads[0], maxLen) == payloads[0] <==> Framable(payloads[0], maxLen);
    assert forall i :: 0 < i < |payloads| ==> payloads[i] == others[i - 1];
    assert forall i :: 0 <= i < |others| ==> others[i] == payloads[i + 1];
  }
}
