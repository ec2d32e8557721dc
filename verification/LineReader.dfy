/** internal/dhtproxy: reading lines through a buffered reader.

    Module Lines says what the lines of a body are, by plain splitting; module LineReader is
    the chunked reader and proves that it sees exactly those lines, whatever its buffer size.
  */
module Lines {
  import opened Text
  import opened Utf8

  // ----- splitting -----

  // The pieces between newlines; a body of n newlines has n + 1 pieces.
  function Split(data: Bytes): (pieces: seq<Bytes>)
    ensures pieces != []
  {
    if data == [] then [[]]
    else
      var rest := Split(data[1..]);
      if data[0] == '\n' then [[]] + rest else [[data[0]] + rest[0]] + rest[1..]
  }

  function Join(pieces: seq<Bytes>): Bytes
    requires pieces != []
  {
    if |pieces| == 1 then pieces[0] else pieces[0] + ['\n'] + Join(pieces[1..])
  }

  lemma JoinPrepend(c: char, pieces: seq<Bytes>)
    requires pieces != []
    ensures Join([[c] + pieces[0]] + pieces[1..]) == [c] + Join(pieces)
  {
    var longer := [[c] + pieces[0]] + pieces[1..];
    if |pieces| > 1 {
      assert longer[1..] == pieces[1..];
      assert ([c] + pieces[0]) + ['\n'] + Join(pieces[1..]) == [c] + (pieces[0] + ['\n'] + Join(pieces[1..]));
    }
  }

  lemma JoinBreak(pieces: seq<Bytes>)
    requires pieces != []
    ensures Join([[]] + pieces) == ['\n'] + Join(pieces)
  {
    assert ([[]] + pieces)[1..] == pieces;
    assert [] + ['\n'] == ['\n'];
  }

  predicate NoNewline(pieces: seq<Bytes>) { forall k :: 0 <= k < |pieces| ==> '\n' !in pieces[k] }

  lemma NoNewlineCons(c: char, rest: seq<Bytes>)
    requires rest != [] && NoNewline(rest) && c != '\n'
    ensures NoNewline([[c] + rest[0]] + rest[1..])
  {
  }

  lemma {:induction false} PiecesHoldNone(data: Bytes)
    ensures NoNewline(Split(data))
    decreases |data|
  {
    if data != [] {
      PiecesHoldNone(data[1..]);
      if data[0] != '\n' { NoNewlineCons(data[0], Split(data[1..])); }
    }
  }

  // Splitting loses nothing, and no piece holds a newline.
  lemma {:induction false} SplitJoin(data: Bytes)
    ensures Join(Split(data)) == data
    ensures forall k :: 0 <= k < |Split(data)| ==> '\n' !in Split(data)[k]
    decreases |data|
  {
    PiecesHoldNone(data);
    if data != [] {
      var rest := Split(data[1..]);
      SplitJoin(data[1..]);
      assert data == [data[0]] + data[1..];
      if data[0] == '\n' { JoinBreak(rest); } else { JoinPrepend(data[0], rest); }
    }
  }

  // The first piece and what follows its newline.
  lemma {:induction false} SplitHead(piece: Bytes, rest: Bytes)
    requires '\n' !in piece
    ensures Split(piece + ['\n'] + rest) == [piece] + Split(rest)
    decreases |piece|
  {
    var data := piece + ['\n'] + rest;
    if piece == [] {
      assert data[1..] == rest;
    } else {
      assert data[1..] == piece[1..] + ['\n'] + rest;
      SplitHead(piece[1..], rest);
      assert [piece[0]] + piece[1..] == piece;
      assert ([piece[1..]] + Split(rest))[1..] == Split(rest);
    }
  }

  lemma {:induction false} SplitLast(piece: Bytes)
    requires '\n' !in piece
    ensures Split(piece) == [piece]
    decreases |piece|
  {
    if piece != [] {
      SplitLast(piece[1..]);
      assert [piece[0]] + piece[1..] == piece;
    }
  }

  // ----- trimming -----

  // The characters that are white space (unicode.IsSpace).
  predicate Whitespace(c: char) {
    var n := c as int;
    9 <= n <= 13 || n in {32, 0x85, 0xA0, 0x1680, 0x2028, 0x2029, 0x202F, 0x205F, 0x3000} || 0x2000 <= n <= 0x200A
  }

  predicate SpaceTriple(a: int, b: int, c: int) {
    || (a == 0xE1 && b == 0x9A && c == 0x80)
    || (a == 0xE2 && b == 0x80 && (0x80 <= c <= 0x8A || c == 0xA8 || c == 0xA9 || c == 0xAF))
    || (a == 0xE2 && b == 0x81 && c == 0x9F)
    || (a == 0xE3 && b == 0x80 && c == 0x80)
  }

  // The same in UTF-8 (RFC 3629), byte by byte.
  predicate SpaceBytes(x: Bytes) {
    || (|x| == 1 && (9 <= x[0] as int <= 13 || x[0] as int == 32))
    || (|x| == 2 && x[0] as int == 0xC2 && (x[1] as int == 0x85 || x[1] as int == 0xA0))
    || (|x| == 3 && SpaceTriple(x[0] as int, x[1] as int, x[2] as int))
  }

  lemma SpaceBytesIff(c: char)
    ensures SpaceBytes(EncodeRune(c)) <==> Whitespace(c)
  {
    var n := c as int;
    if 0x80 <= n < 0x800 {
      TwoBytes(n, n / 64, n % 64);
    } else if 0x800 <= n < 0x10000 {
      Sextets(n);
      ThreeBytes(n, n / 4096, n / 64 % 64, n % 64);
    }
  }

  lemma TwoBytes(n: int, a: int, b: int)
    requires n == a * 64 + b && 0 <= b < 64
    ensures 0xC0 + a == 0xC2 && (0x80 + b == 0x85 || 0x80 + b == 0xA0) <==> n == 0x85 || n == 0xA0
  {
  }

  lemma ThreeBytes(n: int, a: int, b: int, c: int)
    requires n == a * 4096 + b * 64 + c && 0 <= b < 64 && 0 <= c < 64
    ensures SpaceTriple(0xE0 + a, 0x80 + b, 0x80 + c) <==>
      n == 0x1680 || n == 0x2028 || n == 0x2029 || n == 0x202F || n == 0x205F || n == 0x3000 || 0x2000 <= n <= 0x200A
  {
  }

  // The first n bytes are one white space character.
  predicate LeadingSpace(s: Bytes, n: nat) { 0 < n <= |s| && SpaceBytes(s[..n]) }

  predicate TrailingSpace(s: Bytes, n: nat) { 0 < n <= |s| && SpaceBytes(s[|s| - n..]) }

  function TrimLeft(s: Bytes): Bytes {
    if LeadingSpace(s, 1) then TrimLeft(s[1..])
    else if LeadingSpace(s, 2) then TrimLeft(s[2..])
    else if LeadingSpace(s, 3) then TrimLeft(s[3..])
    else s
  }

  function TrimRight(s: Bytes): Bytes {
    if TrailingSpace(s, 1) then TrimRight(s[..|s| - 1])
    else if TrailingSpace(s, 2) then TrimRight(s[..|s| - 2])
    else if TrailingSpace(s, 3) then TrimRight(s[..|s| - 3])
    else s
  }

  function TrimSpace(s: Bytes): Bytes { TrimRight(TrimLeft(s)) }

  // White space characters, one after the other.
  ghost predicate Spaces(s: Bytes)
    decreases |s|
  {
    s == [] || exists n: nat :: LeadingSpace(s, n) && Spaces(s[n..])
  }

  // The text is what is left between white space at either end, and has none at its own ends.
  ghost predicate Trimmed(s: Bytes, text: Bytes) {
    && (exists lead, trail :: s == lead + text + trail && Spaces(lead) && Spaces(trail))
    && forall n: nat :: !LeadingSpace(text, n) && !TrailingSpace(text, n)
  }

  lemma SpacesCons(s: Bytes, n: nat)
    requires LeadingSpace(s, n) && Spaces(s[n..])
    ensures Spaces(s)
  {
  }

  lemma LeadingKept(a: Bytes, b: Bytes, n: nat)
    requires LeadingSpace(a, n)
    ensures LeadingSpace(a + b, n) && (a + b)[n..] == a[n..] + b
  {
    assert (a + b)[..n] == a[..n];
  }

  lemma {:induction false} SpacesAppend(a: Bytes, b: Bytes)
    requires Spaces(a) && Spaces(b)
    ensures Spaces(a + b)
    decreases |a|
  {
    if a == [] {
      assert a + b == b;
    } else {
      var n: nat :| LeadingSpace(a, n) && Spaces(a[n..]);
      SpacesAppend(a[n..], b);
      LeadingKept(a, b, n);
      SpacesCons(a + b, n);
    }
  }

  lemma OneSpace(x: Bytes)
    requires SpaceBytes(x)
    ensures 0 < |x| <= 3 && Spaces(x)
  {
    assert x[..|x|] == x && x[|x|..] == [];
    assert LeadingSpace(x, |x|);
  }

  lemma SpaceWidth(s: Bytes, n: nat)
    ensures LeadingSpace(s, n) || TrailingSpace(s, n) ==> n == 1 || n == 2 || n == 3
  {
    if LeadingSpace(s, n) { OneSpace(s[..n]); }
    if TrailingSpace(s, n) { OneSpace(s[|s| - n..]); }
  }

  // How much is trimmed at first, or nothing.
  lemma LeftStep(s: Bytes) returns (n: nat)
    ensures if n == 0 then TrimLeft(s) == s && forall k: nat :: !LeadingSpace(s, k)
      else LeadingSpace(s, n) && TrimLeft(s) == TrimLeft(s[n..])
  {
    forall k: nat { SpaceWidth(s, k); }
    n := if LeadingSpace(s, 1) then 1 else if LeadingSpace(s, 2) then 2 else if LeadingSpace(s, 3) then 3 else 0;
  }

  lemma RightStep(s: Bytes) returns (n: nat)
    ensures if n == 0 then TrimRight(s) == s && forall k: nat :: !TrailingSpace(s, k)
      else TrailingSpace(s, n) && TrimRight(s) == TrimRight(s[..|s| - n])
  {
    forall k: nat { SpaceWidth(s, k); }
    n := if TrailingSpace(s, 1) then 1 else if TrailingSpace(s, 2) then 2 else if TrailingSpace(s, 3) then 3 else 0;
  }

  ghost predicate After(s: Bytes, text: Bytes) { exists lead :: s == lead + text && Spaces(lead) }

  ghost predicate Before(s: Bytes, text: Bytes) { exists trail :: s == text + trail && Spaces(trail) }

  lemma Rejoined(s: Bytes, n: nat, a: Bytes, b: Bytes)
    requires n <= |s| && s[n..] == a + b
    ensures s == (s[..n] + a) + b
  {
    assert s == s[..n] + s[n..];
  }

  lemma RejoinedAfter(s: Bytes, n: nat, a: Bytes, b: Bytes)
    requires n <= |s| && s[..n] == a + b
    ensures s == a + (b + s[n..])
  {
    assert s == s[..n] + s[n..];
  }

  lemma OneMoreAfter(s: Bytes, n: nat, text: Bytes)
    requires LeadingSpace(s, n) && After(s[n..], text)
    ensures After(s, text)
  {
    var more :| s[n..] == more + text && Spaces(more);
    OneSpace(s[..n]);
    SpacesAppend(s[..n], more);
    Rejoined(s, n, more, text);
  }

  lemma OneMoreBefore(s: Bytes, n: nat, text: Bytes)
    requires TrailingSpace(s, n) && Before(s[..|s| - n], text)
    ensures Before(s, text)
  {
    var more :| s[..|s| - n] == text + more && Spaces(more);
    var k := |s| - n;
    OneSpace(s[k..]);
    SpacesAppend(more, s[k..]);
    RejoinedAfter(s, k, text, more);
  }

  lemma NothingTrimmed(s: Bytes)
    ensures After(s, s) && Before(s, s)
  {
    assert s == [] + s && s == s + [] && Spaces([]);
  }

  lemma {:induction false} LeftTrimmed(s: Bytes)
    ensures After(s, TrimLeft(s)) && forall k: nat :: !LeadingSpace(TrimLeft(s), k)
    decreases |s|
  {
    var n := LeftStep(s);
    if n > 0 {
      LeftTrimmed(s[n..]);
      OneMoreAfter(s, n, TrimLeft(s));
    } else {
      NothingTrimmed(s);
    }
  }

  lemma {:induction false} RightTrimmed(s: Bytes)
    ensures Before(s, TrimRight(s)) && forall k: nat :: !TrailingSpace(TrimRight(s), k)
    decreases |s|
  {
    var n := RightStep(s);
    if n > 0 {
      RightTrimmed(s[..|s| - n]);
      OneMoreBefore(s, n, TrimRight(s));
    } else {
      NothingTrimmed(s);
    }
  }

  lemma StillNoLead(left: Bytes, text: Bytes, n: nat)
    requires Before(left, text) && LeadingSpace(text, n)
    ensures LeadingSpace(left, n)
  {
    assert left[..n] == text[..n];
  }

  // What TrimSpace leaves.
  lemma TrimmedSpace(s: Bytes)
    ensures Trimmed(s, TrimSpace(s))
  {
    var left, text := TrimLeft(s), TrimSpace(s);
    LeftTrimmed(s);
    RightTrimmed(left);
    TrimmedBoth(s, left, text);
    forall n: nat ensures !LeadingSpace(text, n) {
      if LeadingSpace(text, n) { StillNoLead(left, text, n); }
    }
  }

  lemma TrimmedBoth(s: Bytes, left: Bytes, text: Bytes)
    requires After(s, left) && Before(left, text)
    ensures exists lead, trail :: s == lead + text + trail && Spaces(lead) && Spaces(trail)
  {
    var lead :| s == lead + left && Spaces(lead);
    var trail :| left == text + trail && Spaces(trail);
    assert s == lead + text + trail;
  }

  // ----- lines -----

  // What readLine makes of one line: its trimmed content, or that it is too long.
  datatype Line = Line(text: Bytes, oversized: bool)

  // The content of a piece: a carriage return belongs to the terminator.
  function Content(piece: Bytes, terminated: bool): Bytes {
    if terminated && piece != [] && piece[|piece| - 1] == '\r' then piece[..|piece| - 1] else piece
  }

  function Measured(content: Bytes, maxLen: nat): Line {
    if |content| > maxLen then Line([], true) else Line(TrimSpace(content), false)
  }

  function LineOf(piece: Bytes, terminated: bool, maxLen: nat): Line { Measured(Content(piece, terminated), maxLen) }

  // The line is too long if and only if what stands before its terminator, "\n" or "\r\n", has
  // more than maxLen bytes; otherwise its text is that, trimmed.
  ghost predicate ReadAs(piece: Bytes, terminated: bool, maxLen: nat, line: Line) {
    var stripped := if terminated && |piece| > 0 && piece[|piece| - 1] == '\r' then piece[..|piece| - 1] else piece;
    if |stripped| > maxLen then line == Line([], true) else !line.oversized && Trimmed(stripped, line.text)
  }

  lemma LineIsReadAs(piece: Bytes, terminated: bool, maxLen: nat)
    ensures ReadAs(piece, terminated, maxLen, LineOf(piece, terminated, maxLen))
  {
    TrimmedSpace(Content(piece, terminated));
  }

  // All lines of a body; only the last piece has no terminator.
  function LinesOf(pieces: seq<Bytes>, maxLen: nat): seq<Line> {
    if pieces == [] then [] else [LineOf(pieces[0], |pieces| > 1, maxLen)] + LinesOf(pieces[1..], maxLen)
  }

  // The first newline is at n, or n is the end and there is none.
  predicate EndsAt(data: Bytes, n: nat) {
    n <= |data| && (forall k :: 0 <= k < n ==> data[k] != '\n') && (n < |data| ==> data[n] == '\n')
  }

  // Where the first line ends.
  function Newline(data: Bytes): (n: nat)
    ensures EndsAt(data, n)
  {
    if data == [] || data[0] == '\n' then 0
    else
      assert forall k :: 1 <= k < |data| ==> data[k] == data[1..][k - 1];
      1 + Newline(data[1..])
  }

  lemma NewlineUnique(data: Bytes, n: nat)
    requires EndsAt(data, n)
    ensures Newline(data) == n
  {
  }

  lemma LinesCons(piece: Bytes, rest: seq<Bytes>, maxLen: nat)
    requires rest != []
    ensures LinesOf([piece] + rest, maxLen) == [LineOf(piece, true, maxLen)] + LinesOf(rest, maxLen)
  {
    assert ([piece] + rest)[1..] == rest;
  }

  lemma CutAt(data: Bytes, n: nat)
    requires EndsAt(data, n) && n < |data|
    ensures '\n' !in data[..n] && data == data[..n] + ['\n'] + data[n + 1..]
  {
  }

  lemma SplitFirst(data: Bytes, n: nat)
    requires EndsAt(data, n)
    ensures Split(data) == if n < |data| then [data[..n]] + Split(data[n + 1..]) else [data]
  {
    if n < |data| {
      CutAt(data, n);
      SplitHead(data[..n], data[n + 1..]);
    } else {
      SplitLast(data);
    }
  }

  // The lines of a body after its first one.
  lemma LinesAfterFirst(data: Bytes, n: nat, maxLen: nat)
    requires EndsAt(data, n) && n < |data|
    ensures LinesOf(Split(data), maxLen) == [LineOf(data[..n], true, maxLen)] + LinesOf(Split(data[n + 1..]), maxLen)
  {
    SplitFirst(data, n);
    LinesCons(data[..n], Split(data[n + 1..]), maxLen);
  }

  lemma LinesOfLast(data: Bytes, maxLen: nat)
    requires EndsAt(data, |data|)
    ensures LinesOf(Split(data), maxLen) == [LineOf(data, false, maxLen)]
  {
    SplitFirst(data, |data|);
  }
}

module LineReader {
  import opened Text
  import opened Lines

  datatype ReadError = NoError | BufferFull | EOF | Broken

  // bufio.Reader over a body: what is left of it, and how it ends.
  class Reader {
    const size: nat

    // Whether the source reports its end together with its last bytes.
    const endWithData: bool

    // Whether the source ends in an error rather than at its end.
    const broken: bool

    var rest: Bytes

    constructor (body: Bytes, size: nat, endWithData: bool, broken: bool)
      requires size > 0
      ensures rest == body && this.size == size && this.endWithData == endWithData && this.broken == broken
    {
      this.size, this.endWithData, this.broken, this.rest := size, endWithData, broken, body;
    }

    ghost predicate Valid() { size > 0 }

    function End(): ReadError { if broken then Broken else EOF }

    // bufio.Reader.ReadSlice('\n')
    method ReadSlice() returns (chunk: Bytes, e: ReadError)
      requires Valid()
      modifies this
      ensures old(rest) == chunk + rest
      ensures |chunk| <= size
      ensures if e == NoError then chunk != [] && EndsAt(chunk, |chunk| - 1) else EndsAt(chunk, |chunk|)
      ensures e == BufferFull ==> |chunk| == size
      ensures e in {EOF, Broken} ==> rest == [] && e == End()
    {
      var n := Newline(rest);
      if n < |rest| && n < size {
        chunk, e := rest[..n + 1], NoError;
      } else if |rest| > size || (|rest| == size && !endWithData) {
        chunk, e := rest[..size], BufferFull;
      } else {
        chunk, e := rest, End();
      }
      assert rest == rest[..|chunk|] + rest[|chunk|..];
      rest := rest[|chunk|..];
    }
  }

  // The whole line was buffered.
  lemma WholeContent(start: Bytes, buf: Bytes, terminated: bool)
    requires |buf| <= |start| && buf == start[..|buf|]
    requires if terminated then 0 < |buf| && Newline(start) == |buf| - 1 else Newline(start) == |start| == |buf|
    ensures Stripped(buf) == Content(start[..Newline(start)], terminated)
  {
    if terminated {
      assert buf[|buf| - 1] == start[|buf| - 1];
      assert buf[..|buf| - 1] == start[..Newline(start)];
    } else {
      assert buf == start[..Newline(start)];
    }
  }

  // Buffering stopped within the line, which is then too long whatever its terminator.
  lemma FinishedCut(start: Bytes, buf: Bytes, terminated: bool, maxLen: nat)
    requires |buf| <= Newline(start) && buf == start[..|buf|] && |buf| > maxLen + 1
    ensures LineFrom(buf, maxLen) == LineOf(start[..Newline(start)], terminated, maxLen)
  {
    assert buf[|buf| - 1] == start[|buf| - 1];
  }

  // The line, from what the loop buffered of it.
  lemma Finished(start: Bytes, buf: Bytes, taken: nat, terminated: bool, maxLen: nat)
    requires taken <= |start| && |buf| <= taken && buf == start[..|buf|]
    requires |buf| < taken ==> |buf| > maxLen + 1
    requires if terminated then 0 < taken && Newline(start) == taken - 1 else Newline(start) == |start| == taken
    ensures LineFrom(buf, maxLen) == LineOf(start[..Newline(start)], terminated, maxLen)
  {
    if |buf| == taken { WholeContent(start, buf, terminated); } else { FinishedCut(start, buf, terminated, maxLen); }
  }

  // readLine after its loop: strip the terminator, measure, trim.
  function Stripped(buf: Bytes): Bytes {
    if buf != [] && buf[|buf| - 1] == '\n' then Content(buf[..|buf| - 1], true) else buf
  }

  function LineFrom(buf: Bytes, maxLen: nat): Line { Measured(Stripped(buf), maxLen) }

  // One line.  peak: the largest size of the working buffer.
  method ReadLine(r: Reader, maxLen: nat) returns (line: Line, e: ReadError, ghost peak: nat)
    requires r.Valid()
    modifies r
    ensures var n, body := Newline(old(r.rest)), old(r.rest);
      if n < |body| then e == NoError && line == LineOf(body[..n], true, maxLen) && r.rest == body[n + 1..]
      else e == r.End() && line == LineOf(body, false, maxLen) && r.rest == []
    ensures peak <= maxLen + 1 + r.size
  {
    ghost var start := r.rest;
    ghost var taken: nat := 0;
    var buf: Bytes := [];
    peak := 0;
    e := BufferFull;
    while e == BufferFull
      invariant taken <= |start| && r.rest == start[taken..] && |buf| <= taken && buf == start[..|buf|]
      invariant |buf| < taken ==> |buf| > maxLen + 1
      invariant |buf| <= peak <= maxLen + 1 + r.size
      invariant e == BufferFull ==> Newline(start) >= taken
      invariant e == NoError ==> 0 < taken && Newline(start) == taken - 1
      invariant e != BufferFull && e != NoError ==> Newline(start) == |start| == taken && e == r.End()
      decreases e == BufferFull, |r.rest|
    {
      ghost var before := taken;
      var chunk;
      chunk, e := r.ReadSlice();
      taken := taken + |chunk|;
      NextChunk(start, before, chunk, r.rest, e == NoError);
      if |buf| <= maxLen + 1 {
        buf := buf + chunk;
        peak := if |buf| > peak then |buf| else peak;
      }
    }
    Finished(start, buf, taken, e == NoError, maxLen);
    assert start[..|start|] == start;
    line := LineFrom(buf, maxLen);
  }

  // One more chunk taken from the start of the body.
  lemma ChunkTaken(start: Bytes, taken: nat, chunk: Bytes, rest: Bytes)
    requires taken <= |start| && start[taken..] == chunk + rest
    ensures taken + |chunk| <= |start| && rest == start[taken + |chunk|..]
    ensures forall k :: taken <= k < taken + |chunk| ==> start[k] == chunk[k - taken]
    ensures start[..taken + |chunk|] == start[..taken] + chunk
  {
    assert forall k :: 0 <= k < |start| - taken ==> start[taken..][k] == start[taken + k];
  }

  // Where the first newline is, seen one more chunk.
  lemma NextChunk(start: Bytes, taken: nat, chunk: Bytes, rest: Bytes, found: bool)
    requires taken <= |start| && Newline(start) >= taken && start[taken..] == chunk + rest
    requires if found then chunk != [] && EndsAt(chunk, |chunk| - 1) else EndsAt(chunk, |chunk|)
    ensures taken + |chunk| <= |start| && rest == start[taken + |chunk|..]
    ensures start[..taken + |chunk|] == start[..taken] + chunk
    ensures if found then Newline(start) == taken + |chunk| - 1 else Newline(start) >= taken + |chunk|
  {
    ChunkTaken(start, taken, chunk, rest);
    if found { NewlineUnique(start, taken + |chunk| - 1); }
  }
}
