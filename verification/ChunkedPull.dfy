/**
 The pull decoder of siege-4.1.7/src/http.c: http_chunk_size and the chunked
 branch of http_read, over the buffered reader of sock.c.
 */
module ChunkedPull {
  import opened ChunkedSpec
  import opened Powers
  import Sock

  /** sizeof C->chkbuf */
  const CHKBUF: nat := 1024
  /** MAXFILE */
  const MAXFILE: nat := 0x1_0000
  const TWO31: int := 0x8000_0000
  const TWO32: int := 0x1_0000_0000
  const TWO64: int := 0x1_0000_0000_0000_0000

  /** Conversion to a 32-bit int. */
  function ToInt(n: nat): (i: int)
    ensures -TWO31 <= i < TWO31
    ensures n < TWO31 ==> i == n
  {
    var m := n % TWO32;
    if m < TWO31 then m else m - TWO32
  }

  /** The leading hexadecimal digits. */
  function HexPrefix(s: string): (p: string)
    ensures p <= s && forall i :: 0 <= i < |p| ==> HexDigit(p[i])
  {
    if s == "" || !HexDigit(s[0]) then "" else [s[0]] + HexPrefix(s[1..])
  }

  /** strtoul(s, &end, 16) on a string that starts with a hexadecimal digit; it allows a prefix 0x. */
  function Strtoul(s: string): nat {
    if |s| > 2 && s[0] == '0' && (s[1] == 'x' || s[1] == 'X') && HexDigit(s[2]) then HexNumber(HexPrefix(s[2..]))
    else HexNumber(HexPrefix(s))
  }

  /** The return value of http_chunk_size for a line; an unsigned long that overflows yields 0. */
  function ChunkSizeOf(line: string): int {
    if line == "" || line[0] == '\n' || line[0] == '\r' || line[0] == '\0' then -1
    else if !HexDigit(line[0]) then -1
    else if Strtoul(line) >= TWO64 then 0
    else ToInt(Strtoul(line))
  }

  /** The line ends with a newline, and not where the line buffer does. */
  predicate Complete(line: string) {
    line != "" && line[|line| - 1] == '\n'
  }

  /** http_chunk_size; `complete` tells whether the line was read whole, which the source does not ask. */
  method HttpChunkSize(conn: Sock.Conn) returns (size: int, complete: bool)
    requires conn.Valid()
    modifies conn, conn.buffer
    ensures conn.Valid()
    ensures var line := Sock.TakeLine(old(conn.Pending()), CHKBUF - 1);
            size == ChunkSizeOf(line) && complete == Complete(line) && old(conn.Pending()) == line + conn.Pending()
  {
    var n, chkbuf := conn.SocketReadline(CHKBUF);
    complete := Complete(chkbuf);
    if n < 1 {
      return -1, complete;
    }
    if chkbuf == "" || chkbuf[0] == '\n' || chkbuf[0] == '\0' || chkbuf[0] == '\r' {
      return -1, complete;
    }
    if !HexDigit(chkbuf[0]) {
      return -1, complete;
    }
    var length := Strtoul(chkbuf);
    if length >= TWO64 {
      return 0, complete;
    }
    return ToInt(length), complete;
  }

  // -------------------------------------------------------------------------
  // Lines of a well-formed body
  // -------------------------------------------------------------------------

  /** The size line fits the line buffer. RFC 9112 allows any number of leading zeros. */
  predicate Fits(digits: string) {
    |digits| <= CHKBUF - 3
  }

  /** What is left of a size line when as much of it has been read as the line buffer holds. */
  function Stray(digits: string): string {
    if Fits(digits) then "" else (digits + CRLF)[CHKBUF - 1..]
  }

  /** The digits of a size line that are read with it. */
  function DigitsRead(digits: string): (r: string)
    ensures r <= digits
  {
    digits[..Sock.Min(|digits|, CHKBUF - 1)]
  }

  /** The size that is read. */
  function SizeRead(digits: string): nat {
    if Digits(digits) then HexNumber(DigitsRead(digits)) else 0
  }

  lemma SizeLineTaken(digits: string, more: string)
    requires Digits(digits)
    ensures Sock.TakeLine(digits + CRLF + more, CHKBUF - 1) ==
            if Fits(digits) then digits + CRLF else (digits + CRLF)[..CHKBUF - 1]
    ensures Complete(Sock.TakeLine(digits + CRLF + more, CHKBUF - 1)) <==> Fits(digits)
  {
    var head := digits + "\r";
    assert digits + CRLF + more == head + "\n" + more && digits + CRLF == head + "\n";
    Sock.LineTaken(head, more, CHKBUF - 1);
  }

  /** A size line is read as such exactly when it has at most 1021 digits. */
  lemma SizeLineFits(digits: string, more: string)
    requires Digits(digits)
    ensures Sock.TakeLine(digits + CRLF + more, CHKBUF - 1) == digits + CRLF <==> |digits| <= CHKBUF - 3
  {
    SizeLineTaken(digits, more);
  }

  lemma {:induction false} HexPrefixOfLine(digits: string, more: string)
    requires forall i :: 0 <= i < |digits| ==> HexDigit(digits[i])
    requires more == "" || !HexDigit(more[0])
    ensures HexPrefix(digits + more) == digits
  {
    var s := digits + more;
    if digits != "" {
      assert s[1..] == digits[1..] + more;
      HexPrefixOfLine(digits[1..], more);
    }
  }

  lemma IntOf(n: nat)
    ensures (n - ToInt(n)) % TWO32 == 0
  {
    var m, q := n % TWO32, n / TWO32;
    assert n == TWO32 * q + m;
    if m >= TWO31 {
      assert n - ToInt(n) == TWO32 * (q + 1);
    } else {
      assert n - ToInt(n) == TWO32 * q;
    }
  }

  lemma PlainNumber(digits: string, more: string)
    requires Digits(digits) && (more == "" || !HexDigit(more[0]))
    requires digits == "0" ==> more == "" || (more[0] != 'x' && more[0] != 'X')
    ensures Strtoul(digits + more) == HexNumber(digits)
  {
    hide HexNumber, HexPrefix;
    HexPrefixOfLine(digits, more);
    var s := digits + more;
    assert s[0] == digits[0];
    assert |digits| > 1 ==> s[1] == digits[1] && HexDigit(digits[1]);
    assert |digits| == 1 && more != "" ==> s[1] == more[0];
  }

  lemma PrefixedNumber(digits: string, more: string)
    requires Digits(digits) && (more == "" || !HexDigit(more[0]))
    ensures Strtoul("0x" + digits + more) == HexNumber(digits)
  {
    hide HexNumber, HexPrefix;
    HexPrefixOfLine(digits, more);
    var s := "0x" + digits + more;
    assert s[2..] == digits + more && s[2] == digits[0];
  }

  lemma SizeOfNumber(line: string)
    ensures line == "" || !HexDigit(line[0]) ==> ChunkSizeOf(line) == -1
    ensures line != "" && HexDigit(line[0]) ==>
              ChunkSizeOf(line) == if Strtoul(line) >= TWO64 then 0 else ToInt(Strtoul(line))
  {
    hide Strtoul, ToInt;
  }

  /** A line without digits at the front has no size; any other one that of its digits, also behind 0x. */
  lemma ChunkSizes(digits: string, more: string)
    requires forall i :: 0 <= i < |digits| ==> HexDigit(digits[i])
    requires more == "" || !HexDigit(more[0])
    ensures ChunkSizeOf(more) == -1
    ensures var n := HexNumber(digits);
            var size := if n >= TWO64 then 0 else ToInt(n);
            && (digits != "" ==> ChunkSizeOf("0x" + digits + more) == size)
            && (digits != "" && (digits == "0" ==> more == "" || (more[0] != 'x' && more[0] != 'X')) ==>
                  ChunkSizeOf(digits + more) == size)
  {
    hide HexNumber, Strtoul, ToInt, ChunkSizeOf;
    SizeOfNumber(more);
    if digits != "" {
      assert ("0x" + digits + more)[0] == '0' && (digits + more)[0] == digits[0];
      SizeOfNumber("0x" + digits + more);
      SizeOfNumber(digits + more);
      PrefixedNumber(digits, more);
      if digits == "0" ==> more == "" || (more[0] != 'x' && more[0] != 'X') {
        PlainNumber(digits, more);
      }
    }
  }

  lemma SizeOf(digits: string, more: string)
    requires Digits(digits) && HexNumber(digits) < TWO31 && (more == "" || more[0] == '\r')
    ensures ChunkSizeOf(digits + more) == HexNumber(digits)
  {
    hide HexNumber, Strtoul, ChunkSizeOf;
    PlainNumber(digits, more);
    SizeOfNumber(digits + more);
    assert (digits + more)[0] == digits[0];
  }

  lemma {:induction false} NumberOfPrefix(digits: string, n: nat)
    requires n <= |digits| && forall i :: 0 <= i < |digits| ==> HexDigit(digits[i])
    ensures HexNumber(digits[..n]) <= HexNumber(digits)
  {
    var k := |digits| - 1;
    if n <= k {
      NumberOfPrefix(digits[..k], n);
      assert digits[..k][..n] == digits[..n];
    } else {
      assert digits[..n] == digits;
    }
  }

  /** The size that is read from a size line, whether or not it fits. */
  lemma SizeOfLine(digits: string)
    requires Digits(digits) && HexNumber(digits) < TWO31
    ensures var line := if Fits(digits) then digits + CRLF else (digits + CRLF)[..CHKBUF - 1];
            ChunkSizeOf(line) == SizeRead(digits) <= HexNumber(digits)
    ensures Fits(digits) ==> SizeRead(digits) == HexNumber(digits)
  {
    hide ChunkSizeOf, HexNumber;
    var part := DigitsRead(digits);
    NumberOfPrefix(digits, |part|);
    if Fits(digits) {
      assert part == digits;
      SizeOf(digits, CRLF);
    } else {
      var more := (digits + CRLF)[|part|..CHKBUF - 1];
      assert (digits + CRLF)[..CHKBUF - 1] == part + more;
      SizeOf(part, more);
    }
  }

  lemma LineEnd(more: string)
    ensures Sock.TakeLine(CRLF + more, CHKBUF - 1) == CRLF && ChunkSizeOf(CRLF) == -1
  {
    Sock.LineTaken("\r", more, CHKBUF - 1);
    assert CRLF + more == "\r" + "\n" + more;
  }

  // -------------------------------------------------------------------------
  // The growing output buffer
  // -------------------------------------------------------------------------

  /** No size lies strictly between 2^31 and 2^32. */
  lemma Sizes(k: nat)
    ensures k <= 15 ==> MAXFILE * Pow2(k) <= TWO31
    ensures k >= 16 ==> MAXFILE * Pow2(k) >= TWO32
  {
    assert Pow2(15) == 0x8000 && Pow2(16) == 0x1_0000;
    if k <= 15 {
      Pow2Grows(k, 15);
    } else {
      Pow2Grows(16, k);
    }
  }

  class Page {
    var ptr: array<char>
    var bytes: nat

    /** How often the buffer has been doubled. */
    ghost var doublings: nat

    constructor ()
      ensures Valid() && Text() == "" && fresh(ptr)
    {
      ptr := new char[MAXFILE];
      bytes, doublings := 0, 0;
    }

    /** There is always room for the terminating NUL, and a doubled buffer is at least half full. */
    ghost predicate Valid()
      reads this
    {
      && ptr.Length == MAXFILE * Pow2(doublings)
      && bytes < ptr.Length && bytes <= TWO31
      && (doublings == 0 || ptr.Length <= 2 * bytes)
    }

    ghost function Text(): (t: string)
      requires bytes <= ptr.Length
      reads this, ptr
      ensures |t| == bytes
    {
      ptr[..bytes]
    }

    /** The space left, as the `int space_in_buf` sees it: right up to 2^31 bytes of text, and negative then. */
    lemma SpaceInBuf()
      requires Valid()
      ensures bytes < ptr.Length
      ensures var space := ptr.Length - bytes;
              if bytes == TWO31 then ToInt(space) < 0
              else 0 < ToInt(space) == space && bytes + space <= TWO31
    {
      Sizes(doublings);
    }

    /** Lines 636-650: `got` is stored, and a full buffer is doubled. */
    method Append(got: string)
      requires Valid() && bytes + |got| <= ptr.Length && bytes + |got| <= TWO31
      modifies this, ptr
      ensures Valid() && Text() == old(Text()) + got && (ptr == old(ptr) || fresh(ptr))
    {
      Fill(got);
      bytes := bytes + |got|;
      if bytes >= ptr.Length {
        var tmp := new char[2 * ptr.Length];
        forall i | 0 <= i < ptr.Length {
          tmp[i] := ptr[i];
        }
        assert tmp[..bytes] == ptr[..bytes];
        ptr := tmp;
        doublings := doublings + 1;
      }
    }

    /** socket_read writes behind the text. */
    method Fill(got: string)
      requires bytes + |got| <= ptr.Length
      modifies ptr
      ensures ptr[..bytes + |got|] == old(ptr[..bytes]) + got
    {
      forall i | 0 <= i < |got| {
        ptr[bytes + i] := got[i];
      }
    }

    /** With 2^31 bytes of text the buffer has 2^32. */
    lemma FullSize()
      requires Valid() && bytes == TWO31
      ensures ptr.Length == TWO32
    {
      Sizes(doublings);
      assert doublings != 0 by {
        assert MAXFILE * Pow2(0) == MAXFILE;
      }
    }
  }

  /**
   How the inner loop ends: with the data of the chunk; or at a read of `got`
   with a negative length, which is stored or leaves the allocation. http_read may
   also have stored `got` where a chunk was due whose size line was too long.
   */
  datatype Ending = Whole | Beyond(got: string) | Overrun(got: string) | Astray(got: string)

  lemma NextBytes(before: string, data: string, rest: string, n: nat, got: string, after: string)
    requires n + |got| <= |data| && data[n..] + rest == got + after
    ensures before + data[..n + |got|] == before + data[..n] + got && after == data[n + |got|..] + rest
  {
    var s := data[n..] + rest;
    assert got == s[..|got|] && after == s[|got|..];
    assert data[..n + |got|] == data[..n] + got;
  }

  /** What a read with the length `space`, a negative int that becomes a size_t, takes off a stream. */
  function TakenBy(space: int, pending: nat): nat
    requires -TWO31 <= space < 0
  {
    Sock.Min(TWO64 + space, pending)
  }

  /**
   The inner loop of http_read: `chunk` bytes of data. With 2^31 bytes of text
   and more to come, the free space is -2^31, and the length of the read
   2^64 - 2^31: it takes what is left of the stream.
   */
  method ReadData(conn: Sock.Conn, page: Page, chunk: nat, ghost data: string, ghost rest: string) returns (e: Ending)
    requires conn.Valid() && page.Valid() && conn.buffer != page.ptr
    requires conn.Pending() == data + rest && |data| == chunk < TWO31
    modifies conn, conn.buffer, page, page.ptr
    ensures conn.Valid() && conn.buffer != page.ptr && (page.ptr == old(page.ptr) || fresh(page.ptr))
    ensures !e.Astray? && (e.Whole? <==> |old(page.Text())| + chunk <= TWO31)
    ensures e.Whole? ==> page.Valid() && page.Text() == old(page.Text()) + data && conn.Pending() == rest
    ensures !e.Whole? ==>
              && page.ptr.Length == TWO32
              && |e.got| == TakenBy(-TWO31, |old(page.Text())| + chunk - TWO31 + |rest|)
              && (e.Overrun? <==> |e.got| > TWO32 - TWO31)
    ensures e.Beyond? ==>
              && conn.Pending() == "" && page.bytes == TWO31 + ToInt(|e.got|)
              && page.ptr[..TWO31 + |e.got|] == old(page.Text()) + data[..TWO31 - |old(page.Text())|] + e.got
  {
    hide Sock.Conn.Pending, Page.Text, Pow2, ToInt, TakenBy;
    var n := 0;
    ghost var before := page.Text();
    assert before + data[..0] == before;
    while n < chunk
      invariant n <= chunk && conn.Valid() && page.Valid() && conn.buffer != page.ptr
      invariant page.ptr == old(page.ptr) || fresh(page.ptr)
      invariant page.Text() == before + data[..n] && conn.Pending() == data[n..] + rest
    {
      page.SpaceInBuf();
      var remaining := chunk - n;
      var space := ToInt(page.ptr.Length - page.bytes);
      var toRead := if remaining < space then remaining else space;
      if toRead < 0 {
        Lengths(before, data[..n]);
        Lengths(data[n..], rest);
        e := ReadBeyond(conn, page, toRead);
        return;
      }
      ReadSome(conn, page, toRead, before, data, n, rest);
      n := n + toRead;
    }
    assert data[..chunk] == data;
    return Whole;
  }

  /** Lines 639-651: `toRead` bytes of the data of a chunk, behind its first n. */
  method ReadSome(conn: Sock.Conn, page: Page, toRead: nat, ghost before: string, ghost data: string, ghost n: nat,
                  ghost rest: string)
    requires conn.Valid() && page.Valid() && conn.buffer != page.ptr && n + toRead <= |data|
    requires page.bytes + toRead <= page.ptr.Length && page.bytes + toRead <= TWO31
    requires page.Text() == before + data[..n] && conn.Pending() == data[n..] + rest
    modifies conn, conn.buffer, page, page.ptr
    ensures conn.Valid() && page.Valid() && conn.buffer != page.ptr && (page.ptr == old(page.ptr) || fresh(page.ptr))
    ensures page.Text() == before + data[..n + toRead] && conn.Pending() == data[n + toRead..] + rest
  {
    hide Sock.Conn.Pending, Page.Text, Pow2;
    Lengths(data[n..], rest);
    var got := conn.SocketRead(toRead);
    NextBytes(before, data, rest, n, got, conn.Pending());
    page.Append(got);
  }

  /** Lines 639-640 with a negative length. */
  method ReadBeyond(conn: Sock.Conn, page: Page, toRead: int) returns (e: Ending)
    requires conn.Valid() && page.Valid() && conn.buffer != page.ptr
    requires page.bytes == TWO31 && toRead == ToInt(page.ptr.Length - page.bytes)
    modifies conn, conn.buffer, page, page.ptr
    ensures conn.Valid() && page.ptr == old(page.ptr) && page.ptr.Length == TWO32 && (e.Beyond? || e.Overrun?)
    ensures |e.got| == TakenBy(-TWO31, |old(conn.Pending())|)
    ensures e.Overrun? <==> |e.got| > TWO32 - TWO31
    ensures e.Beyond? ==>
              && conn.Pending() == "" && page.bytes == TWO31 + ToInt(|e.got|)
              && page.ptr[..TWO31 + |e.got|] == old(page.Text()) + e.got
  {
    hide Sock.Conn.Pending, Pow2;
    page.FullSize();
    var got := conn.SocketRead(TWO64 + toRead);
    if |got| > page.ptr.Length - page.bytes {
      return Overrun(got);
    }
    page.Fill(got);
    page.bytes := page.bytes + ToInt(|got|);
    return Beyond(got);
  }

  // -------------------------------------------------------------------------
  // The chunked branch of http_read
  // -------------------------------------------------------------------------

  /** Every size line fits the line buffer. */
  ghost predicate FitsLines(chunks: seq<Chunk>, zeros: string) {
    Fits(zeros) && forall i :: 0 <= i < |chunks| ==> Fits(chunks[i].digits)
  }

  lemma {:induction false} ContentGrows(chunks: seq<Chunk>, m: nat)
    requires m < |chunks|
    ensures Content(chunks[..m + 1]) == Content(chunks[..m]) + chunks[m].data
    ensures |Content(chunks[..m + 1])| <= |Content(chunks)|
  {
    hide Content;
    ContentFirst(chunks, m + 1);
    ContentFirst(chunks, m);
    ContentFirst(chunks, |chunks|);
    assert chunks[..|chunks|] == chunks && chunks[1..][..|chunks| - 1] == chunks[1..];
    if m == 0 {
      ContentFirst(chunks[1..], 0);
      assert "" + chunks[0].data == chunks[0].data + "";
    } else {
      ContentGrows(chunks[1..], m - 1);
      FourParts(chunks[0].data, Content(chunks[1..][..m - 1]), chunks[m].data, "");
    }
  }

  lemma NextChunk(chunks: seq<Chunk>, zeros: string, m: nat, after: string)
    requires m < |chunks|
    ensures var c := chunks[m];
            Encode(chunks[m..], zeros) + after ==
            c.digits + CRLF + (c.data + (CRLF + (Encode(chunks[m + 1..], zeros) + after)))
  {
    var c := chunks[m];
    assert chunks[m..][1..] == chunks[m + 1..];
    assert EncodeChunk(c) == c.digits + CRLF + c.data + CRLF;
  }

  lemma SameTails(line: string, a: string, b: string)
    requires line + a == line + b
    ensures a == b
  {
    assert a == (line + a)[|line|..] && b == (line + b)[|line|..];
  }

  /** The size line at the head of `pending` is read, as far as it fits, and the rest of it is left. */
  lemma SizeLineRead(digits: string, more: string, line: string, left: string)
    requires Digits(digits) && HexNumber(digits) < TWO31
    requires line == Sock.TakeLine(digits + CRLF + more, CHKBUF - 1) && digits + CRLF + more == line + left
    ensures ChunkSizeOf(line) == SizeRead(digits) <= HexNumber(digits)
    ensures Fits(digits) ==> SizeRead(digits) == HexNumber(digits)
    ensures left == Stray(digits) + more && (Complete(line) <==> Fits(digits))
  {
    hide HexNumber, ChunkSizeOf, SizeRead, Complete;
    SizeLineTaken(digits, more);
    SizeOfLine(digits);
    var s := digits + CRLF;
    CutLine(s, more, if Fits(digits) then |s| else CHKBUF - 1);
    SameTails(line, s[|line|..] + more, left);
  }

  lemma CutLine(s: string, more: string, n: nat)
    requires n <= |s|
    ensures s + more == s[..n] + (s[n..] + more) && s[..|s|] == s && s[|s|..] == ""
  {
  }

  lemma LineEndRead(more: string, line: string, left: string)
    requires line == Sock.TakeLine(CRLF + more, CHKBUF - 1) && CRLF + more == line + left
    ensures ChunkSizeOf(line) == -1 && left == more
  {
    LineEnd(more);
    SameTails(CRLF, more, left);
  }

  lemma StrayEnds(digits: string) returns (head: string)
    requires Digits(digits) && !Fits(digits)
    ensures Stray(digits) == head + "\n" && '\n' !in head && |head| == |digits| + 2 - CHKBUF
  {
    head := (digits + "\r")[CHKBUF - 1..];
    assert digits + CRLF == digits + "\r" + "\n";
    assert forall i :: 0 <= i < |digits| ==> digits[i] != '\n';
  }

  /** What is left of a size line is read as a line, or as much of it as the line buffer holds. */
  lemma StrayLineRead(digits: string, more: string, line: string, left: string)
    requires Digits(digits) && !Fits(digits)
    requires line == Sock.TakeLine(Stray(digits) + more, CHKBUF - 1) && Stray(digits) + more == line + left
    ensures |left| >= |more|
    ensures |digits| <= 2 * CHKBUF - 4 ==> left == more
  {
    hide Digits, Stray, Sock.TakeLine;
    var head := StrayEnds(digits);
    Sock.LineTaken(head, more, CHKBUF - 1);
    Lengths(head + "\n", more);
    Lengths(line, left);
    if |head| < CHKBUF - 1 {
      SameTails(head + "\n", more, left);
    }
  }

  lemma Lengths(a: string, b: string)
    ensures |a + b| == |a| + |b|
  {
  }

  /** Line 627: the line end behind a chunk, the size of the next chunk, or the size of the last one. */
  method NextSize(conn: Sock.Conn, ghost chunks: seq<Chunk>, ghost zeros: string, ghost after: string,
                  ghost m: nat, ghost crlf: bool) returns (chunk: int, complete: bool)
    requires conn.Valid() && Body(chunks, zeros) && m <= |chunks|
    requires var left := Encode(chunks[m..], zeros) + after; conn.Pending() == if crlf then CRLF + left else left
    modifies conn, conn.buffer
    ensures conn.Valid()
    ensures crlf ==> chunk == -1 && conn.Pending() == Encode(chunks[m..], zeros) + after
    ensures !crlf && m < |chunks| ==>
              var c := chunks[m];
              && 0 <= chunk == SizeRead(c.digits) <= |c.data| < TWO31 && (Fits(c.digits) ==> 0 < chunk == |c.data|)
              && (complete <==> Fits(c.digits))
              && conn.Pending() ==
                 Stray(c.digits) + (c.data + (CRLF + (Encode(chunks[m + 1..], zeros) + after)))
    ensures !crlf && m == |chunks| ==> chunk == 0 && conn.Pending() == Stray(zeros) + (CRLF + after)
  {
    hide Sock.Conn.Pending, Encode, ChunkSizeOf, HexNumber, Digits, SizeRead, Fits, Stray, Complete;
    ghost var pending := conn.Pending();
    chunk, complete := HttpChunkSize(conn);
    ghost var line := Sock.TakeLine(pending, CHKBUF - 1);
    if crlf {
      LineEndRead(Encode(chunks[m..], zeros) + after, line, conn.Pending());
    } else if m < |chunks| {
      NextChunk(chunks, zeros, m, after);
      ghost var next := CRLF + (Encode(chunks[m + 1..], zeros) + after);
      SizeLineRead(chunks[m].digits, chunks[m].data + next, line, conn.Pending());
    } else {
      LastLine(zeros, chunks[m..], after);
      SizeLineRead(zeros, CRLF + after, line, conn.Pending());
    }
  }

  /** What http_read is for: the content, and the stream where it goes on. */
  ghost predicate Delivered(conn: Sock.Conn, page: Page, content: string, after: string)
    requires conn.posIni + conn.inbuffer <= conn.buffer.Length
    reads conn, conn.buffer, page, page.ptr
  {
    page.bytes < page.ptr.Length && page.Text() == content && conn.Pending() == after
  }

  /** How many chunks there are before one whose size line is too long. */
  function Fitting(chunks: seq<Chunk>): (m: nat)
    ensures m <= |chunks| && (forall i :: 0 <= i < m ==> Fits(chunks[i].digits))
    ensures m < |chunks| ==> !Fits(chunks[m].digits)
  {
    if chunks == [] || !Fits(chunks[0].digits) then 0 else 1 + Fitting(chunks[1..])
  }

  /**
   What is stored for that chunk: as many bytes as the part of the line that was
   read says, from the rest of the line on.
   */
  function StrayBytes(c: Chunk): string
    requires SizeRead(c.digits) <= |c.data|
  {
    (Stray(c.digits) + c.data)[..SizeRead(c.digits)]
  }

  /** http_read at that chunk: it takes it for the last one, or stores the wrong bytes. */
  ghost predicate GoesAstray(chunks: seq<Chunk>, m: nat, text: string, e: Ending)
    requires m < |chunks|
  {
    var c, before := chunks[m], Content(chunks[..m]);
    SizeRead(c.digits) <= |c.data| &&
    if SizeRead(c.digits) == 0 then e == Whole && text == before
    else e == Astray(StrayBytes(c)) && text == before + StrayBytes(c)
  }

  /** What http_read comes to on a body, by the size of its content and by the size lines. */
  ghost predicate ComesTo(conn: Sock.Conn, page: Page, chunks: seq<Chunk>, zeros: string, after: string, e: Ending)
    requires conn.posIni + conn.inbuffer <= conn.buffer.Length
    reads conn, conn.buffer, page, page.ptr
  {
    && (!e.Overrun? && !e.Astray? && Delivered(conn, page, Content(chunks), after) <==>
        |Content(chunks)| <= TWO31 && FitsLines(chunks, zeros))
    && (|Content(chunks)| > TWO31 && FitsLines(chunks, zeros) ==>
          && page.ptr.Length == TWO32
          && ((e.Overrun? && |e.got| > TWO32 - TWO31)
              || (e.Beyond? && TWO31 + |e.got| > |Content(chunks)| + |after| && conn.Pending() == "")))
    && (var m := Fitting(chunks);
        m < |chunks| && |Content(chunks[..m])| + |chunks[m].data| <= TWO31 ==>
          page.bytes < page.ptr.Length && GoesAstray(chunks, m, page.Text(), e))
    && (|Content(chunks)| <= TWO31 && Fitting(chunks) == |chunks| && CHKBUF - 3 < |zeros| <= 2 * CHKBUF - 4 ==>
          e == Whole && Delivered(conn, page, Content(chunks), CRLF + after))
  }

  /** All chunks are stored, and the line behind the last size line has been read. */
  lemma ComesToEnd(conn: Sock.Conn, page: Page, chunks: seq<Chunk>, zeros: string, after: string)
    requires conn.Valid() && page.Valid() && Fitting(chunks) == |chunks| && page.Text() == Content(chunks)
    requires if Fits(zeros) then conn.Pending() == after else |conn.Pending()| >= |after| + 2
    requires !Fits(zeros) && |zeros| <= 2 * CHKBUF - 4 ==> conn.Pending() == CRLF + after
    ensures ComesTo(conn, page, chunks, zeros, after, Whole)
    ensures Delivered(conn, page, Content(chunks), after) <==> |Content(chunks)| <= TWO31 && FitsLines(chunks, zeros)
  {
    hide Sock.Conn.Pending, Page.Text, Content, Delivered, Fitting;
    DeliveredWhen(conn, page, Content(chunks), after);
    DeliveredWhen(conn, page, Content(chunks), CRLF + after);
  }

  /** The size line of chunk m is taken for the last one. */
  lemma ComesToEarlyEnd(conn: Sock.Conn, page: Page, chunks: seq<Chunk>, zeros: string, after: string, m: nat)
    requires conn.Valid() && page.Valid() && Body(chunks, zeros) && m == Fitting(chunks) < |chunks|
    requires page.Text() == Content(chunks[..m]) && SizeRead(chunks[m].digits) == 0
    ensures ComesTo(conn, page, chunks, zeros, after, Whole)
    ensures Delivered(conn, page, Content(chunks), after) <==> |Content(chunks)| <= TWO31 && FitsLines(chunks, zeros)
  {
    hide Sock.Conn.Pending, Page.Text, Content, Delivered, Fitting, SizeRead;
    UpToChunk(chunks, zeros, m);
    DeliveredWhen(conn, page, Content(chunks), after);
  }

  /** Chunk m is not stored as it is. */
  lemma ComesToAStop(conn: Sock.Conn, page: Page, chunks: seq<Chunk>, zeros: string, after: string, m: nat, e: Ending)
    requires conn.Valid() && Body(chunks, zeros) && m <= Fitting(chunks) && m < |chunks| && !e.Whole?
    requires 0 < SizeRead(chunks[m].digits) <= |chunks[m].data|
    requires e.Astray? ==>
               && page.Valid() && m == Fitting(chunks) && e == Astray(StrayBytes(chunks[m]))
               && page.Text() == Content(chunks[..m]) + StrayBytes(chunks[m])
    requires !e.Astray? ==>
               && |Content(chunks[..m])| + SizeRead(chunks[m].digits) > TWO31 && page.ptr.Length == TWO32
               && (e.Overrun? <==> |e.got| > TWO32 - TWO31)
               && (e.Beyond? ==>
                     && TWO31 + |e.got| > |Content(chunks)| + |after|
                     && conn.Pending() == "" && page.bytes == TWO31 + ToInt(|e.got|))
    ensures ComesTo(conn, page, chunks, zeros, after, e)
    ensures !e.Overrun? && !e.Astray? && Delivered(conn, page, Content(chunks), after) <==>
            |Content(chunks)| <= TWO31 && FitsLines(chunks, zeros)
  {
    hide Sock.Conn.Pending, Page.Text, Content, Delivered, Fitting, SizeRead;
    UpToChunk(chunks, zeros, m);
    DeliveredWhen(conn, page, Content(chunks), after);
  }

  /**
   On a body that is chunked as RFC 9112 has it, http_read stores exactly its
   content, has room for a NUL behind it, and leaves the stream at what follows
   the body, if the content has up to 2^31 bytes and every size line fits the line
   buffer, and otherwise not. Beyond 2^31 bytes, one read takes everything that is
   left of the stream, framing and following messages included, into the buffer or
   behind its end. At a size line that is too long the rest of the line is taken
   for data, or the body ends there; if it is the last one, the line end that
   closes the body is left in the stream.
   */
  method HttpRead(conn: Sock.Conn, ghost chunks: seq<Chunk>, ghost zeros: string, ghost after: string)
    returns (page: Page, e: Ending)
    requires conn.Valid() && Body(chunks, zeros)
    requires conn.Pending() == Encode(chunks, zeros) + after
    modifies conn, conn.buffer
    ensures conn.Valid() && ComesTo(conn, page, chunks, zeros, after, e)
    ensures !e.Overrun? && !e.Astray? && Delivered(conn, page, Content(chunks), after) <==>
            |Content(chunks)| <= TWO31 && FitsLines(chunks, zeros)
  {
    hide Sock.Conn.Pending, Page.Text, Encode, Content, ChunkSizeOf, HexNumber, Digits, Delivered, Body;
    hide SizeRead, Stray, StrayBytes, Fitting, ComesTo, FitsLines;
    page := new Page();
    ghost var m: nat, crlf := 0, false;
    assert chunks[0..] == chunks;
    NoContent(chunks);
    while true
      invariant m <= Fitting(chunks) && conn.Valid() && page.Valid()
      invariant conn.buffer != page.ptr && fresh(page) && fresh(page.ptr)
      invariant page.Text() == Content(chunks[..m])
      invariant var left := Encode(chunks[m..], zeros) + after; conn.Pending() == if crlf then CRLF + left else left
      decreases |chunks| - m, if crlf then 1 else 0
    {
      var chunk, complete := NextSize(conn, chunks, zeros, after, m, crlf);
      if chunk == 0 {
        e := EndOfPage(conn, page, chunks, zeros, after, m);
        return;
      } else if chunk < 0 {
        crlf := false;
        continue;
      }
      e := StoreChunk(conn, page, chunk, complete, chunks, zeros, after, m);
      if !e.Whole? {
        return;
      }
      m, crlf := m + 1, true;
    }
  }

  /** Lines 628-630: a size of zero; one more line is read. */
  method EndOfPage(conn: Sock.Conn, page: Page, ghost chunks: seq<Chunk>, ghost zeros: string, ghost after: string,
                   ghost m: nat) returns (e: Ending)
    requires conn.Valid() && page.Valid() && conn.buffer != page.ptr && Body(chunks, zeros) && m <= Fitting(chunks)
    requires page.Text() == Content(chunks[..m])
    requires m < |chunks| ==> SizeRead(chunks[m].digits) == 0 && !Fits(chunks[m].digits)
    requires m == |chunks| ==> conn.Pending() == Stray(zeros) + (CRLF + after)
    modifies conn, conn.buffer
    ensures conn.Valid() && ComesTo(conn, page, chunks, zeros, after, e)
    ensures !e.Overrun? && !e.Astray? && Delivered(conn, page, Content(chunks), after) <==>
            |Content(chunks)| <= TWO31 && FitsLines(chunks, zeros)
  {
    hide Sock.Conn.Pending, Page.Text, Content, Delivered, Body, SizeRead, Stray, Fitting, ComesTo, FitsLines;
    ghost var left := conn.Pending();
    var n, chkbuf := conn.SocketReadline(CHKBUF);
    if m == |chunks| {
      AtTheEnd(chunks, zeros, after, left, chkbuf, conn.Pending());
      ComesToEnd(conn, page, chunks, zeros, after);
    } else {
      ComesToEarlyEnd(conn, page, chunks, zeros, after, m);
    }
    return Whole;
  }

  /** The inner loop on chunk m. */
  method StoreChunk(conn: Sock.Conn, page: Page, chunk: nat, complete: bool, ghost chunks: seq<Chunk>,
                    ghost zeros: string, ghost after: string, ghost m: nat) returns (e: Ending)
    requires conn.Valid() && page.Valid() && conn.buffer != page.ptr && Body(chunks, zeros)
    requires m < |chunks| && m <= Fitting(chunks) && page.Text() == Content(chunks[..m])
    requires var c := chunks[m];
             && 0 < chunk == SizeRead(c.digits) <= |c.data| < TWO31 && (complete <==> Fits(c.digits))
             && (complete ==> chunk == |c.data|)
             && conn.Pending() == Stray(c.digits) + (c.data + (CRLF + (Encode(chunks[m + 1..], zeros) + after)))
    modifies conn, conn.buffer, page, page.ptr
    ensures conn.Valid() && conn.buffer != page.ptr && (page.ptr == old(page.ptr) || fresh(page.ptr))
    ensures e.Whole? ==>
              && page.Valid() && m + 1 <= Fitting(chunks) && page.Text() == Content(chunks[..m + 1])
              && conn.Pending() == CRLF + (Encode(chunks[m + 1..], zeros) + after)
    ensures !e.Whole? ==> ComesTo(conn, page, chunks, zeros, after, e)
    ensures !e.Whole? ==>
              (!e.Overrun? && !e.Astray? && Delivered(conn, page, Content(chunks), after) <==>
               |Content(chunks)| <= TWO31 && FitsLines(chunks, zeros))
  {
    hide Sock.Conn.Pending, Page.Text, Encode, Content, Delivered, Body, SizeRead, Stray, StrayBytes, Fitting;
    hide ComesTo, FitsLines, TakenBy;
    UpToChunk(chunks, zeros, m);
    ghost var rest := CRLF + (Encode(chunks[m + 1..], zeros) + after);
    MoreThanContent(chunks, zeros, after, m, rest);
    e := ReadChunk(conn, page, chunk, complete, chunks[m], rest);
    if !e.Whole? {
      ComesToAStop(conn, page, chunks, zeros, after, m, e);
    }
  }

  /** If a read takes all that is left of the stream at chunk m, that is more than the rest of the content. */
  lemma MoreThanContent(chunks: seq<Chunk>, zeros: string, after: string, m: nat, rest: string)
    requires m < |chunks| && rest == CRLF + (Encode(chunks[m + 1..], zeros) + after)
    ensures var c := chunks[m];
            var taken := |Content(chunks[..m])| - TWO31 + |Stray(c.digits)| + |c.data| + |rest|;
            && TWO31 + taken > |Content(chunks)| + |after|
            && (taken >= 0 && TakenBy(-TWO31, taken) <= TWO31 ==> TakenBy(-TWO31, taken) == taken)
  {
    hide Content, Encode, Stray;
    BodyIsLonger(chunks, zeros, m);
  }

  /** The content up to chunk m, which the first chunk with a long size line is not before. */
  lemma UpToChunk(chunks: seq<Chunk>, zeros: string, m: nat)
    requires Body(chunks, zeros) && m < |chunks| && m <= Fitting(chunks)
    ensures Content(chunks[..m + 1]) == Content(chunks[..m]) + chunks[m].data
    ensures |Content(chunks[..m])| < |Content(chunks[..m + 1])| <= |Content(chunks)|
    ensures var f := Fitting(chunks);
            f < |chunks| ==> |Content(chunks[..m + 1])| <= |Content(chunks[..f])| + |chunks[f].data|
  {
    hide Content, Fitting;
    ContentGrows(chunks, m);
    assert WellFormed(chunks[m]);
    var f := Fitting(chunks);
    if f < |chunks| {
      ContentGrows(chunks, f);
      ContentGrows(chunks[..f + 1], m);
      assert chunks[..f + 1][..m + 1] == chunks[..m + 1];
    }
  }

  /** The inner loop on chunk c, whose size line may have been read in part; the model ends where it goes astray. */
  method ReadChunk(conn: Sock.Conn, page: Page, chunk: nat, complete: bool, ghost c: Chunk, ghost rest: string)
    returns (e: Ending)
    requires conn.Valid() && page.Valid() && conn.buffer != page.ptr
    requires conn.Pending() == Stray(c.digits) + (c.data + rest)
    requires 0 < chunk == SizeRead(c.digits) <= |c.data| < TWO31
    requires (complete <==> Fits(c.digits)) && (complete ==> chunk == |c.data|)
    modifies conn, conn.buffer, page, page.ptr
    ensures conn.Valid() && conn.buffer != page.ptr && (page.ptr == old(page.ptr) || fresh(page.ptr))
    ensures e.Whole? || e.Astray? <==> |old(page.Text())| + chunk <= TWO31
    ensures e.Whole? ==>
              complete && page.Valid() && page.Text() == old(page.Text()) + c.data && conn.Pending() == rest
    ensures e.Astray? ==>
              !complete && page.Valid() && page.Text() == old(page.Text()) + StrayBytes(c) && e.got == StrayBytes(c)
    ensures e.Beyond? || e.Overrun? ==>
              && page.ptr.Length == TWO32
              && |e.got| == TakenBy(-TWO31, |old(page.Text())| - TWO31 + |Stray(c.digits)| + |c.data| + |rest|)
              && (e.Overrun? <==> |e.got| > TWO32 - TWO31)
    ensures e.Beyond? ==> conn.Pending() == "" && page.bytes == TWO31 + ToInt(|e.got|)
  {
    hide Sock.Conn.Pending, Pow2, SizeRead, Fits, TakenBy;
    var start := page.bytes;
    StraySplits(Stray(c.digits), c.data, rest, chunk);
    e := ReadData(conn, page, chunk, StrayBytes(c), (Stray(c.digits) + c.data)[chunk..] + rest);
    if e.Whole? {
      if !complete {
        return Astray(page.ptr[start..page.bytes]);
      }
      NothingStray(c.digits);
    }
  }

  lemma NothingStray(digits: string)
    requires Fits(digits)
    ensures Stray(digits) == ""
  {
  }

  lemma StraySplits(stray: string, data: string, rest: string, n: nat)
    requires n <= |data|
    ensures stray + (data + rest) == (stray + data)[..n] + ((stray + data)[n..] + rest)
    ensures stray == "" && n == |data| ==> (stray + data)[..n] == data && (stray + data)[n..] + rest == rest
  {
  }

  /** The line behind the last size line. */
  lemma AtTheEnd(chunks: seq<Chunk>, zeros: string, after: string, left: string, line: string, rest: string)
    requires Body(chunks, zeros) && left == Stray(zeros) + (CRLF + after)
    requires line == Sock.TakeLine(left, CHKBUF - 1) && left == line + rest
    ensures if Fits(zeros) then rest == after else |rest| >= |after| + 2
    ensures !Fits(zeros) && |zeros| <= 2 * CHKBUF - 4 ==> rest == CRLF + after
    ensures chunks[..|chunks|] == chunks
  {
    LastLine(zeros, [], after);
    if Fits(zeros) {
      assert left == CRLF + after;
      LineEndRead(after, line, rest);
    } else {
      StrayLineRead(zeros, CRLF + after, line, rest);
    }
  }

  /** What goes astray is lost, unless the data happens to begin with the same bytes. */
  lemma StrayBytesStay(chunks: seq<Chunk>, m: nat)
    requires m < |chunks| && SizeRead(chunks[m].digits) <= |chunks[m].data|
    ensures Content(chunks[..m]) + StrayBytes(chunks[m]) <= Content(chunks) <==> StrayBytes(chunks[m]) <= chunks[m].data
  {
    ContentTail(chunks, m);
    hide Content, StrayBytes, SizeRead;
    ShortStray(chunks[m]);
    PrefixOf(Content(chunks[..m]), chunks[m].data, Content(chunks[m + 1..]), StrayBytes(chunks[m]));
  }

  lemma ShortStray(c: Chunk)
    requires SizeRead(c.digits) <= |c.data|
    ensures |StrayBytes(c)| == SizeRead(c.digits)
  {
    hide SizeRead, Stray;
  }

  lemma PrefixOf(before: string, data: string, tail: string, got: string)
    requires |got| <= |data|
    ensures before + got <= before + data + tail <==> got <= data
  {
    var s, n := before + data + tail, |before|;
    assert s[..n + |got|] == before + data[..|got|];
    assert (before + data[..|got|])[n..] == data[..|got|] && (before + got)[n..] == got;
  }

  lemma {:induction false} ContentTail(chunks: seq<Chunk>, m: nat)
    requires m < |chunks|
    ensures Content(chunks) == Content(chunks[..m]) + chunks[m].data + Content(chunks[m + 1..])
  {
    hide Content;
    ContentFirst(chunks, |chunks|);
    ContentFirst(chunks, m);
    assert chunks[..|chunks|] == chunks && chunks[1..][..|chunks| - 1] == chunks[1..];
    if m == 0 {
      assert "" + chunks[0].data == chunks[0].data;
    } else {
      assert chunks[1..][m..] == chunks[m + 1..];
      ContentTail(chunks[1..], m - 1);
      FourParts(chunks[0].data, Content(chunks[1..][..m - 1]), chunks[m].data, Content(chunks[m + 1..]));
    }
  }

  lemma FourParts(a: string, b: string, c: string, d: string)
    ensures a + (b + c + d) == a + b + c + d
    ensures a + (b + c) == a + b + c
  {
  }

  lemma DeliveredWhen(conn: Sock.Conn, page: Page, content: string, after: string)
    requires conn.posIni + conn.inbuffer <= conn.buffer.Length
    ensures page.bytes != |content| ==> !Delivered(conn, page, content, after)
    ensures page.bytes < page.ptr.Length ==>
              (Delivered(conn, page, content, after) <==> page.Text() == content && conn.Pending() == after)
  {
    hide Page.Text, Sock.Conn.Pending;
  }

  /** The wire form of the chunks behind chunk m is longer than their content. */
  lemma {:induction false} BodyIsLonger(chunks: seq<Chunk>, zeros: string, m: nat)
    requires m < |chunks|
    ensures |Content(chunks[..m])| + |chunks[m].data| + |Encode(chunks[m + 1..], zeros)| >= |Content(chunks)|
  {
    if m == 0 {
      EncodeIsLonger(chunks[1..], zeros);
      assert chunks[..0] == [];
    } else {
      BodyIsLonger(chunks[1..], zeros, m - 1);
      assert chunks[..m][1..] == chunks[1..][..m - 1] && chunks[1..][m..] == chunks[m + 1..];
    }
  }

  lemma {:induction false} EncodeIsLonger(chunks: seq<Chunk>, zeros: string)
    ensures |Encode(chunks, zeros)| >= |Content(chunks)|
  {
    if chunks != [] {
      EncodeIsLonger(chunks[1..], zeros);
    }
  }

  /** Three chunks of 2^30 bytes each: a body that http_read takes and does not deliver. */
  lemma BigBody() returns (chunks: seq<Chunk>, zeros: string)
    ensures Body(chunks, zeros) && FitsLines(chunks, zeros) && |Content(chunks)| > TWO31
  {
    hide Digits, HexNumber;
    var c := Chunk("40000000", seq(0x4000_0000, _ => 'x'));
    GibiDigits();
    chunks, zeros := [c, c, c], "0";
    assert Content(chunks) == c.data + Content([c, c]) && Content([c, c]) == c.data + Content([c]) by {
      assert chunks[1..] == [c, c] && [c, c][1..] == [c];
    }
    assert |Content([c])| == 0x4000_0000;
  }

  function ZeroDigits(n: nat): (s: string)
    ensures |s| == n && forall i :: 0 <= i < n ==> s[i] == '0'
  {
    seq(n, _ => '0')
  }

  /** An empty body with 1022 zeros in its last size line: HttpRead leaves the line end of the body in the stream. */
  lemma LongSizeLine()
    ensures var zeros := ZeroDigits(1022);
            Body([], zeros) && !FitsLines([], zeros) && CHKBUF - 3 < |zeros| <= 2 * CHKBUF - 4
  {
  }

  lemma LeadingZeros(n: nat)
    ensures Digits(ZeroDigits(n) + "1") && HexNumber(ZeroDigits(n) + "1") == 1
  {
    var zeros := ZeroDigits(n);
    ZerosAreZero(zeros);
    assert (zeros + "1")[..n] == zeros;
  }

  /** A chunk of one byte with 1023 leading zeros: HttpRead takes it for the last one, and the content is lost. */
  lemma LongChunkLine()
    ensures var c := Chunk(ZeroDigits(1023) + "1", "a");
            Body([c], "0") && Fitting([c]) == 0 && GoesAstray([c], 0, "", Whole)
  {
    var c := Chunk(ZeroDigits(1023) + "1", "a");
    LeadingZeros(1023);
    ZerosAreZero(ZeroDigits(1023));
    assert DigitsRead(c.digits) == ZeroDigits(1023);
    assert [c][..0] == [];
  }

  /** With 1021 leading zeros the line end is taken for data; which goes unnoticed if that is what the data is. */
  lemma StrayLineEnd(b: char)
    ensures var c := Chunk(ZeroDigits(1021) + "1", [b]);
            && Body([c], "0") && Fitting([c]) == 0 && SizeRead(c.digits) == 1 && StrayBytes(c) == "\n"
            && (StrayBytes(c) <= c.data <==> b == '\n')
  {
    var c := Chunk(ZeroDigits(1021) + "1", [b]);
    LeadingZeros(1021);
    assert DigitsRead(c.digits) == c.digits;
    assert Stray(c.digits) == "\n";
    assert ("\n" + c.data)[..1] == "\n";
  }

  lemma GibiDigits()
    ensures Digits("40000000") && HexNumber("40000000") == 0x4000_0000
  {
    assert HexNumber("4") == 4 by {
      assert "4"[..0] == "";
    }
    TimesSixteen("4", "40");
    TimesSixteen("40", "400");
    TimesSixteen("400", "4000");
    TimesSixteen("4000", "40000");
    TimesSixteen("40000", "400000");
    TimesSixteen("400000", "4000000");
    TimesSixteen("4000000", "40000000");
  }

  lemma TimesSixteen(s: string, t: string)
    requires t == s + "0" && forall i :: 0 <= i < |s| ==> HexDigit(s[i])
    ensures HexNumber(t) == 16 * HexNumber(s)
  {
    assert t[..|s|] == s;
  }

  lemma NoContent(chunks: seq<Chunk>)
    ensures Content(chunks[..0]) == ""
  {
  }

  lemma LastLine(zeros: string, none: seq<Chunk>, after: string)
    requires none == [] && LastSize(zeros)
    ensures Encode(none, zeros) + after == zeros + CRLF + (CRLF + after)
    ensures Digits(zeros) && HexNumber(zeros) == 0
  {
    ZerosAreZero(zeros);
  }
}
