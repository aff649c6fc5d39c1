/**
 The push decoders of request/post_request.cpp. Each call appends what one read
 delivered to a static buffer and consumes as many whole chunks as it holds.
 */
module ChunkedPush {
  import opened ChunkedSpec
  import opened Options

  predicate CrlfAt(s: string, i: nat) {
    i + 2 <= |s| && s[i] == '\r' && s[i + 1] == '\n'
  }

  /** std::string::find("\r\n") */
  function FindCrlf(s: string): (pos: Option<nat>)
    ensures pos.Some? ==> CrlfAt(s, pos.value) && forall i :: 0 <= i < pos.value ==> !CrlfAt(s, i)
    ensures pos.None? ==> forall i :: 0 <= i < |s| ==> !CrlfAt(s, i)
  {
    if |s| < 2 then None
    else if CrlfAt(s, 0) then Some(0)
    else
      var rest := FindCrlf(s[1..]);
      assert forall i :: 0 < i < |s| ==> CrlfAt(s, i) == CrlfAt(s[1..], i - 1);
      if rest.None? then None else Some(rest.value + 1)
  }

  /** What hex_to_int makes of a line: every other character is skipped. */
  function LineNumber(s: string): nat {
    if s == "" then 0
    else
      var c, n := s[|s| - 1], LineNumber(s[..|s| - 1]);
      if HexDigit(c) then 16 * n + DigitValue(c) else n
  }

  method HexToInt(hexStr: string) returns (result: nat)
    ensures result == LineNumber(hexStr)
  {
    result := 0;
    for i := 0 to |hexStr|
      invariant result == LineNumber(hexStr[..i])
    {
      var c := hexStr[i];
      assert hexStr[..i + 1][..i] == hexStr[..i];
      if '0' <= c <= '9' {
        result := result * 16 + (c - '0') as nat;
      } else if 'a' <= c <= 'f' {
        result := result * 16 + ((c - 'a') as nat + 10);
      } else if 'A' <= c <= 'F' {
        result := result * 16 + ((c - 'A') as nat + 10);
      }
    }
    assert hexStr[..|hexStr|] == hexStr;
  }

  /** A character that is no digit is skipped wherever it stands. */
  lemma {:induction false} OthersSkipped(s: string, c: char, t: string)
    requires !HexDigit(c)
    ensures LineNumber(s + [c] + t) == LineNumber(s + t)
  {
    if t == "" {
      assert s + [c] + t == s + [c] && s + t == s;
      assert (s + [c])[..|s|] == s;
    } else {
      var n := |t| - 1;
      OthersSkipped(s, c, t[..n]);
      assert (s + [c] + t)[..|s| + 1 + n] == s + [c] + t[..n] && (s + t)[..|s| + n] == s + t[..n];
    }
  }

  lemma {:induction false} DigitsNumber(s: string)
    requires forall i :: 0 <= i < |s| ==> HexDigit(s[i])
    ensures LineNumber(s) == HexNumber(s)
  {
    if s != "" {
      DigitsNumber(s[..|s| - 1]);
    }
  }

  lemma SizeLine(s: string)
    requires forall i :: 0 <= i < |s| ==> HexDigit(s[i])
    ensures LineNumber(s + CRLF) == HexNumber(s)
  {
    DigitsNumber(s);
    var t := s + ['\r'];
    assert s + CRLF == t + ['\n'];
    assert (t + ['\n'])[..|t|] == t && t[..|s|] == s;
  }

  /** The first line end of a buffer that starts with a size line is the end of that line. */
  lemma FirstLine(digits: string, more: string)
    requires forall i :: 0 <= i < |digits| ==> HexDigit(digits[i])
    ensures FindCrlf(digits + CRLF + more) == Some(|digits|)
  {
    var buf := digits + CRLF + more;
    assert CrlfAt(buf, |digits|);
    assert forall i :: 0 <= i < |digits| ==> buf[i] == digits[i] && !CrlfAt(buf, i);
  }

  lemma NoLineYet(digits: string, buf: string)
    requires forall i :: 0 <= i < |digits| ==> HexDigit(digits[i])
    requires buf < digits + CRLF
    ensures FindCrlf(buf) == None
  {
    var line := digits + CRLF;
    assert forall i :: 0 <= i < |buf| ==> buf[i] == line[i];
    forall i | 0 <= i < |buf|
      ensures !CrlfAt(buf, i)
    {
      if i + 1 < |buf| {
        assert buf[i] == digits[i] && HexDigit(digits[i]);
      }
    }
  }

  // -------------------------------------------------------------------------
  // chunked
  // -------------------------------------------------------------------------

  /** What a call consumes of its buffer: chunk data for the sink, what stays, and whether the body ended. */
  datatype Drained = Drained(datas: seq<string>, rest: string, done: bool)

  function Drain(buf: string): Drained
    decreases |buf|
  {
    var pos := FindCrlf(buf);
    if pos.None? then Drained([], buf, false)
    else
      var size, tmp := LineNumber(buf[..pos.value + 2]), buf[pos.value + 2..];
      if |tmp| < size + 2 then Drained([], buf, false)
      else if size == 0 then Drained([], "", true)
      else
        var d := Drain(tmp[size + 2..]);
        Drained([tmp[..size]] + d.datas, d.rest, d.done)
  }

  lemma {:induction false} DrainUnfolds(buf: string)
    ensures var pos := FindCrlf(buf);
            if pos.None? then Drain(buf) == Drained([], buf, false)
            else
              var size, tmp := LineNumber(buf[..pos.value + 2]), buf[pos.value + 2..];
              Drain(buf) ==
              if |tmp| < size + 2 then Drained([], buf, false)
              else if size == 0 then Drained([], "", true)
              else var d := Drain(tmp[size + 2..]); Drained([tmp[..size]] + d.datas, d.rest, d.done)
  {
    hide LineNumber, FindCrlf;
  }

  lemma LineParts(line: string, more: string)
    ensures (line + more)[..|line|] == line && (line + more)[|line|..] == more
  {
  }

  /** A buffer by its first line. */
  lemma DrainAt(line: string, more: string)
    requires |line| >= 2 && FindCrlf(line + more) == Some(|line| - 2)
    ensures var size, buf := LineNumber(line), line + more;
            Drain(buf) ==
            if |more| < size + 2 then Drained([], buf, false)
            else if size == 0 then Drained([], "", true)
            else var d := Drain(more[size + 2..]); Drained([more[..size]] + d.datas, d.rest, d.done)
  {
    hide Drain, FindCrlf, LineNumber, CrlfAt;
    DrainUnfolds(line + more);
    LineParts(line, more);
  }

  lemma DrainLine(digits: string, more: string)
    requires forall i :: 0 <= i < |digits| ==> HexDigit(digits[i])
    ensures var size, buf := HexNumber(digits), digits + CRLF + more;
            Drain(buf) ==
            if |more| < size + 2 then Drained([], buf, false)
            else if size == 0 then Drained([], "", true)
            else var d := Drain(more[size + 2..]); Drained([more[..size]] + d.datas, d.rest, d.done)
  {
    hide Drain, FindCrlf, LineNumber, HexNumber, CrlfAt, HexDigit;
    FirstLine(digits, more);
    SizeLine(digits);
    DrainAt(digits + CRLF, more);
  }

  /** A buffer that starts with a whole chunk. */
  lemma DrainChunk(c: Chunk, more: string)
    requires WellFormed(c)
    ensures Drain(EncodeChunk(c) + more) == var d := Drain(more); Drained([c.data] + d.datas, d.rest, d.done)
  {
    hide Drain, HexNumber;
    DrainLine(c.digits, c.data + CRLF + more);
    assert EncodeChunk(c) + more == c.digits + CRLF + (c.data + CRLF + more);
    assert (c.data + CRLF + more)[..|c.data|] == c.data && (c.data + CRLF + more)[|c.data| + 2..] == more;
  }

  /** A buffer that ends before `size` bytes and a line end have followed its size line. */
  lemma DrainWaits(digits: string, after: string, buf: string)
    requires forall i :: 0 <= i < |digits| ==> HexDigit(digits[i])
    requires buf < digits + CRLF + after && |after| == HexNumber(digits) + 2
    ensures Drain(buf) == Drained([], buf, false)
  {
    var line := digits + CRLF;
    if |buf| < |line| {
      assert buf == (line + after)[..|buf|] == line[..|buf|];
      NoLineYet(digits, buf);
    } else {
      var more := buf[|line|..];
      assert buf[..|line|] == (line + after)[..|line|] == line;
      assert buf == line + more;
      DrainLine(digits, more);
    }
  }

  lemma ChunkParts(c: Chunk)
    ensures EncodeChunk(c) == c.digits + CRLF + (c.data + CRLF)
  {
  }

  /** The state after all of `buf` has arrived, when `tail` has yet to come. */
  lemma {:induction false} DrainOfPrefix(chunks: seq<Chunk>, zeros: string, buf: string, tail: string) returns (m: nat)
    requires Body(chunks, zeros) && buf + tail == Encode(chunks, zeros)
    ensures m <= |chunks|
    ensures tail == "" ==> Drain(buf) == Drained(Datas(chunks), "", true)
    ensures tail != "" ==> !Drain(buf).done && Drain(buf).datas == Datas(chunks[..m])
                           && Drain(buf).rest + tail == Encode(chunks[m..], zeros)
  {
    hide Drain, Encode, Datas, EncodeChunk;
    EncodeUnfolds(chunks, zeros);
    DatasFirst(chunks, 0);
    DatasFirst(chunks, |chunks|);
    assert chunks[..|chunks|] == chunks && chunks[0..] == chunks;
    if chunks == [] {
      m := 0;
      ZerosAreZero(zeros);
      if tail == "" {
        DrainLine(zeros, CRLF);
        assert buf == zeros + CRLF + CRLF;
      } else {
        DrainWaits(zeros, CRLF, buf);
      }
    } else {
      var c := chunks[0];
      var enc := EncodeChunk(c);
      CutAt(buf, tail, enc, Encode(chunks[1..], zeros));
      if |buf| < |enc| {
        m := 0;
        ChunkParts(c);
        EncodeHasEnd(chunks[1..], zeros);
        DrainWaits(c.digits, c.data + CRLF, buf);
      } else {
        var more := buf[|enc|..];
        m := DrainOfPrefix(chunks[1..], zeros, more, tail);
        DrainChunk(c, more);
        DatasFirst(chunks, m + 1);
        assert chunks[1..][..|chunks| - 1] == chunks[1..] && chunks[m + 1..] == chunks[1..][m..];
        m := m + 1;
      }
    }
  }

  /** A line end that has been found stays the first one. */
  lemma FindMore(x: string, y: string)
    requires FindCrlf(x).Some?
    ensures FindCrlf(x + y) == FindCrlf(x)
  {
    var k := FindCrlf(x).value;
    assert forall i :: 0 <= i <= k ==> CrlfAt(x + y, i) == CrlfAt(x, i);
    FindIs(x + y, k);
  }

  lemma PrefixStays(x: string, y: string, k: nat)
    requires k <= |x|
    ensures (x + y)[..k] == x[..k] && (x + y)[k..] == x[k..] + y
  {
  }

  lemma AfterNothing(d: Drained)
    ensures After([], d) == d
  {
    assert [] + d.datas == d.datas;
  }

  lemma AfterFirst(data: string, taken: seq<string>, d: Drained)
    ensures After([data] + taken, d) == var r := After(taken, d); Drained([data] + r.datas, r.rest, r.done)
  {
    assert [data] + taken + d.datas == [data] + (taken + d.datas);
  }

  /** Draining in two calls is draining at once, for any bytes; what follows the end of a body is thrown away. */
  lemma {:induction false} DrainAppend(x: string, y: string)
    ensures var d := Drain(x);
            Drain(x + y) == if d.done then d else After(d.datas, Drain(d.rest + y))
    decreases |x|
  {
    hide Drain, LineNumber, FindCrlf, After;
    DrainUnfolds(x);
    AfterNothing(Drain(x + y));
    var pos := FindCrlf(x);
    if pos.Some? {
      DrainUnfolds(x + y);
      FindMore(x, y);
      var size, tmp := LineNumber(x[..pos.value + 2]), x[pos.value + 2..];
      PrefixStays(x, y, pos.value + 2);
      if |tmp| >= size + 2 && size != 0 {
        DrainAppend(tmp[size + 2..], y);
        var d := Drain(tmp[size + 2..]);
        AfterFirst(tmp[..size], d.datas, Drain(d.rest + y));
        PrefixStays(tmp, y, size);
        PrefixStays(tmp, y, size + 2);
      }
    }
  }

  /** Whatever follows a whole body in the buffer is thrown away. */
  lemma DrainDropsTheRest(chunks: seq<Chunk>, zeros: string, more: string)
    requires Body(chunks, zeros)
    ensures Drain(Encode(chunks, zeros) + more) == Drained(Datas(chunks), "", true)
  {
    hide Drain, Encode, Body, Datas;
    assert Encode(chunks, zeros) + "" == Encode(chunks, zeros);
    var m := DrainOfPrefix(chunks, zeros, Encode(chunks, zeros), "");
    DrainAppend(Encode(chunks, zeros), more);
  }

  /** The bytes received end where a chunk ends, or nothing has been received. */
  ghost predicate EndsChunk(chunks: seq<Chunk>, received: string) {
    received == "" ||
    (chunks != [] &&
     var n := |EncodeChunk(chunks[0])|;
     n <= |received| && EndsChunk(chunks[1..], received[n..]))
  }

  /** After a part of a body the buffer is empty exactly at the end of a chunk and at the end of the body. */
  lemma {:induction false} RestEmptyExactly(chunks: seq<Chunk>, zeros: string, buf: string, tail: string)
    requires Body(chunks, zeros) && buf + tail == Encode(chunks, zeros)
    ensures Drain(buf).rest == "" <==> EndsChunk(chunks, buf) || tail == ""
  {
    hide Drain, Encode, EncodeChunk;
    EncodeUnfolds(chunks, zeros);
    var m := DrainOfPrefix(chunks, zeros, buf, tail);
    if chunks != [] && tail != "" {
      var c, enc := chunks[0], EncodeChunk(chunks[0]);
      CutAt(buf, tail, enc, Encode(chunks[1..], zeros));
      if |buf| < |enc| {
        ChunkParts(c);
        DrainWaits(c.digits, c.data + CRLF, buf);
      } else {
        var more := buf[|enc|..];
        DrainChunk(c, more);
        RestEmptyExactly(chunks[1..], zeros, more, tail);
        assert |enc| > 0;
      }
    } else if tail != "" {
      ZerosAreZero(zeros);
      DrainWaits(zeros, CRLF, buf);
    }
  }

  class Client {
    /** Chunk data handed to the handler of POST bodies. */
    var sink: seq<string>
    var allRecv: bool

    constructor ()
      ensures sink == [] && !allRecv
    {
      sink, allRecv := [], false;
    }
  }

  class Decoder {
    /** The static buffer: one for all clients. */
    var request: string

    constructor ()
      ensures request == ""
    {
      request := "";
    }

    /** chunked, on what one read has delivered from a client */
    method Chunked(client: Client, piece: string)
      modifies this, client
      ensures var d := Drain(old(request) + piece);
              && client.sink == old(client.sink) + d.datas && request == d.rest
              && client.allRecv == (old(client.allRecv) || d.done)
    {
      hide Drain, LineNumber, FindCrlf, After;
      request := request + piece;
      ghost var all, taken := Drain(request), [];
      AfterNothing(all);
      while true
        invariant client.allRecv == old(client.allRecv) && client.sink == old(client.sink) + taken
        invariant all == After(taken, Drain(request))
        decreases |request|
      {
        DrainUnfolds(request);
        var pos := FindCrlf(request);
        if pos.None? {
          return;
        }
        var line := request[..pos.value + 2];
        var size := HexToInt(line);
        var tmp := request[pos.value + 2..];
        if |tmp| < size + 2 {
          return;
        }
        if size == 0 {
          client.allRecv := true;
          request := "";
          return;
        }
        request := request[pos.value + 2..];
        var chunkData := request[..size];
        AfterOneMore(taken, chunkData, Drain(request[size + 2..]));
        client.sink := client.sink + [chunkData];
        taken := taken + [chunkData];
        request := request[size + 2..];
      }
    }
  }

  /** What is drained after `taken`. */
  function After(taken: seq<string>, d: Drained): (r: Drained)
    ensures d.datas == [] ==> r == d.(datas := taken)
  {
    Drained(taken + d.datas, d.rest, d.done)
  }

  lemma AfterOneMore(taken: seq<string>, data: string, d: Drained)
    ensures After(taken, Drained([data] + d.datas, d.rest, d.done)) == After(taken + [data], d)
  {
  }

  /** One more call, when chunks 0..m-1 are in the sink and `rest` is in the buffer. */
  lemma OneCall(chunks: seq<Chunk>, zeros: string, m: nat, rest: string, piece: string, tail: string) returns (m': nat)
    requires Body(chunks, zeros) && m <= |chunks| && rest + (piece + tail) == Encode(chunks[m..], zeros)
    ensures m <= m' <= |chunks|
    ensures var d := Drain(rest + piece);
            if tail == "" then d.done && d.rest == "" && Datas(chunks[..m]) + d.datas == Datas(chunks)
            else !d.done && d.rest + tail == Encode(chunks[m'..], zeros)
                 && Datas(chunks[..m]) + d.datas == Datas(chunks[..m'])
  {
    hide Drain, Datas, Encode;
    assert (rest + piece) + tail == rest + (piece + tail);
    var more := DrainOfPrefix(chunks[m..], zeros, rest + piece, tail);
    m' := m + more;
    assert chunks[m..][..more] == chunks[m..m'] && chunks[m..][more..] == chunks[m'..];
    DatasSplit(chunks, m, m');
    DatasSplit(chunks, m, |chunks|);
    assert chunks[m..|chunks|] == chunks[m..] && chunks[..|chunks|] == chunks;
  }

  lemma CallAfterTheEnd()
    ensures Drain("" + "") == Drained([], "", false)
  {
  }

  /**
   However a body is cut into reads, the handler gets exactly its chunks in
   order, the client is complete after exactly those calls that end with the
   whole body received, and the static buffer is left as it was found.
   */
  method FeedAll(decoder: Decoder, client: Client, pieces: seq<string>, ghost chunks: seq<Chunk>, ghost zeros: string)
    returns (completed: seq<bool>)
    requires Body(chunks, zeros) && Concat(pieces) == Encode(chunks, zeros)
    requires decoder.request == "" && client.sink == [] && !client.allRecv
    modifies decoder, client
    ensures client.sink == Datas(chunks) && decoder.request == ""
    ensures |completed| == |pieces|
    ensures forall i :: 0 <= i < |pieces| ==> (completed[i] <==> Concat(pieces[..i + 1]) == Encode(chunks, zeros))
  {
    hide Drain, Body, Concat, Datas, Encode;
    completed := [];
    ghost var m := 0;
    NothingFed(pieces, chunks, zeros);
    for i := 0 to |pieces|
      invariant m <= |chunks| && |completed| == i
      invariant client.allRecv <==> Concat(pieces[i..]) == ""
      invariant !client.allRecv ==> client.sink == Datas(chunks[..m])
      invariant !client.allRecv ==> decoder.request + Concat(pieces[i..]) == Encode(chunks[m..], zeros)
      invariant client.allRecv ==> client.sink == Datas(chunks) && decoder.request == ""
      invariant forall k :: 0 <= k < i ==> (completed[k] <==> Concat(pieces[k + 1..]) == "")
    {
      ConcatStep(pieces, i);
      if client.allRecv {
        CallAfterTheEnd();
      } else {
        m := OneCall(chunks, zeros, m, decoder.request, pieces[i], Concat(pieces[i + 1..]));
      }
      decoder.Chunked(client, pieces[i]);
      completed := completed + [client.allRecv];
    }
    AllFed(pieces);
  }

  lemma FindIs(s: string, k: nat)
    requires CrlfAt(s, k) && forall i :: 0 <= i < k ==> !CrlfAt(s, i)
    ensures FindCrlf(s) == Some(k)
  {
  }

  lemma LineNumberAppend(s: string, c: char)
    ensures LineNumber(s + [c]) == if HexDigit(c) then 16 * LineNumber(s) + DigitValue(c) else LineNumber(s)
  {
    assert (s + [c])[..|s|] == s;
  }

  lemma ShortLine(start: string, digit: char)
    requires HexDigit(digit) && start in {"", "\n"}
    ensures LineNumber(start + [digit] + CRLF) == DigitValue(digit)
  {
    LineNumberAppend([], '\n');
    assert LineNumber(start) == 0 by {
      assert [] + ['\n'] == "\n";
    }
    hide LineNumber;
    var s := start + [digit];
    LineNumberAppend(start, digit);
    LineNumberAppend(s, '\r');
    LineNumberAppend(s + ['\r'], '\n');
    assert s + ['\r'] + ['\n'] == s + CRLF;
  }

  /** The buffer when one body arrives between the two reads of another. */
  lemma MixedBuffers()
    ensures var first, other, last := "1\r\na", "1\r\nb\r\n0\r\n\r\n", "\r\n0\r\n\r\n";
            && Drain(first) == Drained([], first, false)
            && Drain(first + other) == Drained(["a"], "\nb\r\n0\r\n\r\n", false)
            && Drain("\nb\r\n0\r\n\r\n" + last) == Drained([], "\nb\r\n0\r\n\r\n" + last, false)
  {
    hide Drain, FindCrlf, LineNumber;
    var other, last := "1\r\nb\r\n0\r\n\r\n", "\r\n0\r\n\r\n";
    ShortLine("", '1');
    ShortLine("\n", 'b');
    assert "" + ['1'] + CRLF == "1\r\n" && "\n" + ['b'] + CRLF == "\nb\r\n";
    FirstOf("1\r\na", "1\r\n", "a");
    FirstOf("\nb\r\n0\r\n\r\n", "\nb\r\n", "0\r\n\r\n");
    FirstOf("\nb\r\n0\r\n\r\n" + last, "\nb\r\n", "0\r\n\r\n" + last);
    FirstOf("1\r\na" + other, "1\r\n", "a" + other);
    LineParts("a", other);
    assert "a" + other == "a1\r" + "\nb\r\n0\r\n\r\n";
    LineParts("a1\r", "\nb\r\n0\r\n\r\n");
  }

  /** The other body alone is complete. */
  lemma UploadAlone()
    ensures Drain("1\r\nb\r\n0\r\n\r\n") == Drained(["b"], "", true)
  {
    hide Drain, FindCrlf, LineNumber;
    ShortLine("", '1');
    ShortLine("", '0');
    assert "" + ['1'] + CRLF == "1\r\n" && "" + ['0'] + CRLF == "0\r\n";
    var more := "b\r\n0\r\n\r\n";
    FirstOf("1\r\n" + more, "1\r\n", more);
    FirstOf("0\r\n\r\n", "0\r\n", "\r\n");
    assert more[..1] == "b" && more[3..] == "0\r\n\r\n";
    assert "1\r\n" + more == "1\r\nb\r\n0\r\n\r\n";
  }

  lemma FirstOf(buf: string, line: string, more: string)
    requires buf == line + more && |line| >= 2 && CrlfAt(line, |line| - 2)
    requires forall i :: 0 <= i < |line| - 2 ==> !CrlfAt(line, i)
    ensures Drain(buf) ==
            if |more| < LineNumber(line) + 2 then Drained([], buf, false)
            else if LineNumber(line) == 0 then Drained([], "", true)
            else
              var size := LineNumber(line);
              var d := Drain(more[size + 2..]); Drained([more[..size]] + d.datas, d.rest, d.done)
  {
    hide Drain, FindCrlf, LineNumber, CrlfAt;
    FindIs(line, |line| - 2);
    FindMore(line, more);
    DrainAt(line, more);
  }

  lemma NothingFed(pieces: seq<string>, chunks: seq<Chunk>, zeros: string)
    requires Body(chunks, zeros) && Concat(pieces) == Encode(chunks, zeros)
    ensures Concat(pieces[0..]) == Encode(chunks[0..], zeros) != "" && Datas(chunks[..0]) == []
  {
    assert pieces[0..] == pieces && chunks[0..] == chunks;
  }

  /** Nothing more to come and everything received are the same. */
  lemma AllFed(pieces: seq<string>)
    ensures Concat(pieces[|pieces|..]) == ""
    ensures forall j :: 0 <= j <= |pieces| ==> (Concat(pieces[j..]) == "" <==> Concat(pieces[..j]) == Concat(pieces))
  {
    forall j | 0 <= j <= |pieces|
      ensures Concat(pieces[j..]) == "" <==> Concat(pieces[..j]) == Concat(pieces)
    {
      ConcatSplits(pieces, j);
    }
  }

  lemma DatasFirst(chunks: seq<Chunk>, j: nat)
    requires j <= |chunks|
    ensures Datas(chunks[..j]) == if j == 0 then [] else [chunks[0].data] + Datas(chunks[1..][..j - 1])
  {
    if j > 0 {
      assert chunks[..j][1..] == chunks[1..][..j - 1];
    }
  }

  lemma SliceBehind(chunks: seq<Chunk>, i: nat, j: nat)
    requires 0 < i <= j <= |chunks|
    ensures chunks[1..][i - 1..j - 1] == chunks[i..j]
  {
  }

  lemma {:induction false} DatasSplit(chunks: seq<Chunk>, i: nat, j: nat)
    requires i <= j <= |chunks|
    ensures Datas(chunks[..j]) == Datas(chunks[..i]) + Datas(chunks[i..j])
  {
    hide Datas;
    DatasFirst(chunks, i);
    DatasFirst(chunks, j);
    if i == 0 {
      assert chunks[0..j] == chunks[..j];
    } else {
      SliceBehind(chunks, i, j);
      DatasSplit(chunks[1..], i - 1, j - 1);
    }
  }

  // -------------------------------------------------------------------------
  // chunked_for_cgi
  // -------------------------------------------------------------------------

  /** A call returns nothing and waits, ends with the body, or lets std::string::substr throw. */
  datatype CgiDrained = Waits(rest: string, result: string) | Ends(body: string) | Throws(rest: string, result: string)

  function CgiDrain(buf: string, result: string): CgiDrained
    decreases |buf|
  {
    var pos := FindCrlf(buf);
    if pos.None? then Waits(buf, result)
    else
      var size, tmp := LineNumber(buf[..pos.value + 2]), buf[pos.value + 2..];
      if size == 0 then Ends(result)
      else if |tmp| < size then Waits(buf, result)
      else if |tmp| < size + 2 then Throws(tmp, result + tmp[..size])
      else CgiDrain(tmp[size + 2..], result + tmp[..size])
  }

  /** The bytes received end after the data of some chunk but before the line end that closes it. */
  ghost predicate CutsCrlf(chunks: seq<Chunk>, received: string) {
    chunks != [] &&
    var n := |EncodeChunk(chunks[0])|;
    if |received| < n then n - 2 <= |received| else CutsCrlf(chunks[1..], received[n..])
  }

  lemma {:induction false} CgiUnfolds(buf: string, result: string)
    ensures var pos := FindCrlf(buf);
            if pos.None? then CgiDrain(buf, result) == Waits(buf, result)
            else
              var size, tmp := LineNumber(buf[..pos.value + 2]), buf[pos.value + 2..];
              CgiDrain(buf, result) ==
              if size == 0 then Ends(result)
              else if |tmp| < size then Waits(buf, result)
              else if |tmp| < size + 2 then Throws(tmp, result + tmp[..size])
              else CgiDrain(tmp[size + 2..], result + tmp[..size])
  {
    hide LineNumber, FindCrlf;
  }

  lemma CgiAt(line: string, more: string, result: string)
    requires |line| >= 2 && FindCrlf(line + more) == Some(|line| - 2)
    ensures var size, buf := LineNumber(line), line + more;
            CgiDrain(buf, result) ==
            if size == 0 then Ends(result)
            else if |more| < size then Waits(buf, result)
            else if |more| < size + 2 then Throws(more, result + more[..size])
            else CgiDrain(more[size + 2..], result + more[..size])
  {
    hide CgiDrain, FindCrlf, LineNumber, CrlfAt;
    CgiUnfolds(line + more, result);
    LineParts(line, more);
  }

  lemma CgiLine(digits: string, more: string, result: string)
    requires forall i :: 0 <= i < |digits| ==> HexDigit(digits[i])
    ensures var size, buf := HexNumber(digits), digits + CRLF + more;
            CgiDrain(buf, result) ==
            if size == 0 then Ends(result)
            else if |more| < size then Waits(buf, result)
            else if |more| < size + 2 then Throws(more, result + more[..size])
            else CgiDrain(more[size + 2..], result + more[..size])
  {
    hide CgiDrain, FindCrlf, LineNumber, HexNumber, CrlfAt, HexDigit;
    FirstLine(digits, more);
    SizeLine(digits);
    CgiAt(digits + CRLF, more, result);
  }

  /** Here, too, two calls are one call, unless the first one throws. */
  lemma {:induction false} CgiAppend(x: string, y: string, result: string)
    ensures match CgiDrain(x, result)
            case Waits(rest, data) => CgiDrain(x + y, result) == CgiDrain(rest + y, data)
            case Ends(body) => CgiDrain(x + y, result) == Ends(body)
            case Throws(_, _) => true
    decreases |x|
  {
    hide CgiDrain, LineNumber, FindCrlf;
    CgiUnfolds(x, result);
    var pos := FindCrlf(x);
    if pos.Some? {
      CgiUnfolds(x + y, result);
      FindMore(x, y);
      var size, tmp := LineNumber(x[..pos.value + 2]), x[pos.value + 2..];
      PrefixStays(x, y, pos.value + 2);
      if |tmp| >= size + 2 && size != 0 {
        CgiAppend(tmp[size + 2..], y, result + tmp[..size]);
        PrefixStays(tmp, y, size);
        PrefixStays(tmp, y, size + 2);
      }
    }
  }

  /** A buffer that ends inside its first chunk. */
  lemma CgiInside(c: Chunk, buf: string, result: string)
    requires WellFormed(c) && buf < EncodeChunk(c)
    ensures if |EncodeChunk(c)| - 2 <= |buf| then CgiDrain(buf, result).Throws?
            else CgiDrain(buf, result) == Waits(buf, result)
  {
    var line := c.digits + CRLF;
    if |buf| < |line| {
      assert buf == EncodeChunk(c)[..|buf|] == line[..|buf|];
      NoLineYet(c.digits, buf);
    } else {
      assert buf[..|line|] == EncodeChunk(c)[..|line|] == line;
      assert buf == line + buf[|line|..];
      CgiLine(c.digits, buf[|line|..], result);
    }
  }

  lemma CgiChunk(c: Chunk, more: string, result: string)
    requires WellFormed(c)
    ensures CgiDrain(EncodeChunk(c) + more, result) == CgiDrain(more, result + c.data)
  {
    hide CgiDrain, HexNumber;
    CgiLine(c.digits, c.data + CRLF + more, result);
    assert EncodeChunk(c) + more == c.digits + CRLF + (c.data + CRLF + more);
    assert (c.data + CRLF + more)[..|c.data|] == c.data && (c.data + CRLF + more)[|c.data| + 2..] == more;
  }

  lemma CgiLast(zeros: string, buf: string, tail: string, result: string)
    requires LastSize(zeros) && buf + tail == zeros + CRLF + CRLF
    ensures CgiDrain(buf, result) == if |tail| <= 2 then Ends(result) else Waits(buf, result)
  {
    ZerosAreZero(zeros);
    var line := zeros + CRLF;
    if |tail| <= 2 {
      assert buf[..|line|] == (buf + tail)[..|line|] == line;
      assert buf == line + buf[|line|..];
      CgiLine(zeros, buf[|line|..], result);
    } else {
      assert buf == (buf + tail)[..|buf|] == line[..|buf|];
      NoLineYet(zeros, buf);
    }
  }

  lemma CutsUnfolds(chunks: seq<Chunk>, received: string)
    ensures chunks == [] ==> !CutsCrlf(chunks, received)
    ensures chunks != [] ==>
              var n := |EncodeChunk(chunks[0])|;
              CutsCrlf(chunks, received) ==
              if |received| < n then n - 2 <= |received| else CutsCrlf(chunks[1..], received[n..])
  {
    hide EncodeChunk;
  }

  lemma CutsLater(chunks: seq<Chunk>, enc: string, more: string)
    requires chunks != [] && enc == EncodeChunk(chunks[0])
    ensures CutsCrlf(chunks, enc + more) == CutsCrlf(chunks[1..], more)
  {
    hide CutsCrlf, EncodeChunk;
    CutsUnfolds(chunks, enc + more);
    assert (enc + more)[|enc|..] == more;
  }

  lemma CutsBehind(chunks: seq<Chunk>, buf: string, more: string)
    requires chunks != [] && buf == EncodeChunk(chunks[0]) + more
    ensures forall x: string :: CutsCrlf(chunks, buf + x) == CutsCrlf(chunks[1..], more + x)
  {
    hide CutsCrlf, EncodeChunk;
    var enc := EncodeChunk(chunks[0]);
    forall x: string
      ensures CutsCrlf(chunks, buf + x) == CutsCrlf(chunks[1..], more + x)
    {
      assert buf + x == enc + (more + x);
      CutsLater(chunks, enc, more + x);
    }
  }

  lemma Associate(a: string, b: string, c: string)
    ensures a + b + c == a + (b + c)
  {
  }

  /** The content of the first chunk, and then that of those behind it. */
  lemma ContentBehind(chunks: seq<Chunk>, m: nat, result: string)
    requires chunks != [] && m <= |chunks| - 1
    ensures result + chunks[0].data + Content(chunks[1..]) == result + Content(chunks)
    ensures result + chunks[0].data + Content(chunks[1..][..m]) == result + Content(chunks[..m + 1])
    ensures chunks[m + 1..] == chunks[1..][m..]
  {
    ContentFirst(chunks, m + 1);
    Associate(result, chunks[0].data, Content(chunks[1..]));
    Associate(result, chunks[0].data, Content(chunks[1..][..m]));
  }

  /** The state after all of `buf` has arrived, when `tail` has yet to come. */
  lemma {:induction false} CgiOfPrefix(chunks: seq<Chunk>, zeros: string, buf: string, tail: string, result: string)
    returns (m: nat)
    requires Body(chunks, zeros) && buf + tail == Encode(chunks, zeros)
    ensures m <= |chunks|
    ensures CutsCrlf(chunks, buf) ==> CgiDrain(buf, result).Throws? && |tail| > 2
    ensures !CutsCrlf(chunks, buf) && |tail| <= 2 ==> CgiDrain(buf, result) == Ends(result + Content(chunks))
    ensures !CutsCrlf(chunks, buf) && |tail| > 2 ==>
              var d := CgiDrain(buf, result);
              d.Waits? && d.result == result + Content(chunks[..m]) && d.rest + tail == Encode(chunks[m..], zeros)
              && forall more :: CutsCrlf(chunks, buf + more) == CutsCrlf(chunks[m..], d.rest + more)
  {
    hide CgiDrain, CutsCrlf, Content, Encode, EncodeChunk;
    m := 0;
    NoContent();
    assert chunks[..0] == [] && chunks[0..] == chunks && result + "" == result;
    CutsUnfolds(chunks, buf);
    EncodeUnfolds(chunks, zeros);
    if chunks == [] {
      CgiLast(zeros, buf, tail, result);
    } else {
      var c, enc := chunks[0], EncodeChunk(chunks[0]);
      CutAt(buf, tail, enc, Encode(chunks[1..], zeros));
      if |buf| < |enc| {
        CgiInside(c, buf, result);
        EncodeHasEnd(chunks[1..], zeros);
      } else {
        var more := buf[|enc|..];
        m := CgiOfPrefix(chunks[1..], zeros, more, tail, result + c.data);
        CgiChunk(c, more, result);
        ContentBehind(chunks, m, result);
        CutsBehind(chunks, buf, more);
        m := m + 1;
      }
    }
  }

  /** Here, too, whatever follows the last size line in the buffer is thrown away. */
  lemma CgiDropsTheRest(chunks: seq<Chunk>, zeros: string, more: string, result: string)
    requires Body(chunks, zeros)
    ensures CgiDrain(Encode(chunks, zeros) + more, result) == Ends(result + Content(chunks))
  {
    hide CgiDrain, Encode, Body, Content, CutsCrlf;
    assert Encode(chunks, zeros) + "" == Encode(chunks, zeros);
    var m := CgiOfPrefix(chunks, zeros, Encode(chunks, zeros), "", result);
    CgiAppend(Encode(chunks, zeros), more, result);
  }

  /** What a call of chunked_for_cgi comes to. */
  datatype Outcome = More | Returned(body: string) | OutOfRange

  class CgiDecoder {
    /** The static strings: one of each for all clients. */
    var request: string
    var result: string

    constructor ()
      ensures request == "" && result == ""
    {
      request, result := "", "";
    }

    /** chunked_for_cgi, on what one read has delivered from a client */
    method ChunkedForCgi(client: Client, piece: string) returns (r: Outcome)
      modifies this, client`allRecv
      ensures match CgiDrain(old(request) + piece, old(result))
              case Waits(rest, data) => r == More && request == rest && result == data
              case Ends(body) => r == Returned(body) && request == result == ""
              case Throws(rest, data) => r == OutOfRange && request == rest && result == data
      ensures client.allRecv == (old(client.allRecv) || r.Returned?)
    {
      hide CgiDrain, LineNumber;
      request := request + piece;
      ghost var all := CgiDrain(request, result);
      while true
        invariant client.allRecv == old(client.allRecv) && all == CgiDrain(request, result)
        decreases |request|
      {
        CgiUnfolds(request, result);
        var pos := FindCrlf(request);
        if pos.None? {
          return More;
        }
        var line := request[..pos.value + 2];
        var size := HexToInt(line);
        if size == 0 {
          client.allRecv := true;
          var newResult := result;
          request, result := "", "";
          return Returned(newResult);
        }
        var tmp := request[pos.value + 2..];
        if |tmp| < size {
          return More;
        }
        request := request[pos.value + 2..];
        result := result + request[..size];
        if |request| < size + 2 {
          // std::string::substr throws std::out_of_range
          return OutOfRange;
        }
        request := request[size + 2..];
      }
    }
  }

  /** The buffer `rest` stands for what has been `received` as far as later cuts are concerned. */
  ghost predicate SameCuts(chunks: seq<Chunk>, received: string, m: nat, rest: string)
    requires m <= |chunks|
  {
    forall more :: CutsCrlf(chunks, received + more) == CutsCrlf(chunks[m..], rest + more)
  }

  lemma CgiCall(chunks: seq<Chunk>, zeros: string, received: string, m: nat, rest: string, piece: string, tail: string)
    returns (m': nat)
    requires Body(chunks, zeros) && m <= |chunks| && SameCuts(chunks, received, m, rest)
    requires rest + (piece + tail) == Encode(chunks[m..], zeros)
    ensures m' <= |chunks|
    ensures var d := CgiDrain(rest + piece, Content(chunks[..m]));
            if CutsCrlf(chunks, received + piece) then d.Throws?
            else if |tail| <= 2 then d == Ends(Content(chunks))
            else d.Waits? && d.result == Content(chunks[..m']) && d.rest + tail == Encode(chunks[m'..], zeros)
                 && SameCuts(chunks, received + piece, m', d.rest)
  {
    hide CgiDrain, Encode, Content, CutsCrlf;
    assert (rest + piece) + tail == rest + (piece + tail);
    assert CutsCrlf(chunks, received + piece) == CutsCrlf(chunks[m..], rest + piece);
    var more := CgiOfPrefix(chunks[m..], zeros, rest + piece, tail, Content(chunks[..m]));
    m' := m + more;
    assert chunks[m..][..more] == chunks[m..m'] && chunks[m..][more..] == chunks[m'..];
    ContentSplit(chunks, m, m');
    ContentSplit(chunks, m, |chunks|);
    assert chunks[m..|chunks|] == chunks[m..] && chunks[..|chunks|] == chunks;
    forall x: string
      ensures CutsCrlf(chunks, received + piece + x) == CutsCrlf(chunks[m..], rest + piece + x)
    {
      assert received + piece + x == received + (piece + x) && rest + piece + x == rest + (piece + x);
    }
  }

  lemma {:induction false} ContentSplit(chunks: seq<Chunk>, i: nat, j: nat)
    requires i <= j <= |chunks|
    ensures Content(chunks[..j]) == Content(chunks[..i]) + Content(chunks[i..j])
  {
    hide Content;
    ContentFirst(chunks, i);
    ContentFirst(chunks, j);
    if i == 0 {
      assert chunks[0..j] == chunks[..j];
    } else {
      SliceBehind(chunks, i, j);
      ContentSplit(chunks[1..], i - 1, j - 1);
      Associate(chunks[0].data, Content(chunks[1..][..i - 1]), Content(chunks[i..j]));
    }
  }

  /** Whether the bytes received when call i returns cut a chunk from its line end. */
  ghost predicate CutAfter(pieces: seq<string>, chunks: seq<Chunk>, i: nat)
    requires i < |pieces|
  {
    CutsCrlf(chunks, Concat(pieces[..i + 1]))
  }

  lemma {:induction false} LateCutsDontOccur(pieces: seq<string>, chunks: seq<Chunk>, zeros: string, i: nat, k: nat)
    requires Body(chunks, zeros) && Concat(pieces) == Encode(chunks, zeros)
    requires i <= k < |pieces| && |Concat(pieces[i + 1..])| <= 2
    ensures !CutAfter(pieces, chunks, k)
  {
    hide CgiDrain, Encode, Content, Concat, CutsCrlf, Body;
    ConcatSplits(pieces[i + 1..], k - i);
    assert pieces[i + 1..][k - i..] == pieces[k + 1..];
    ConcatSplits(pieces, k + 1);
    var m := CgiOfPrefix(chunks, zeros, Concat(pieces[..k + 1]), Concat(pieces[k + 1..]), "");
  }

  /**
   chunked_for_cgi over the reads of a body, up to its first result: it throws
   exactly when some read ends between the data of a chunk and the end of the
   line end behind it; otherwise it returns the content, and leaves the static
   strings as it found them.
   */
  method FeedCgi(decoder: CgiDecoder, client: Client, pieces: seq<string>,
                 ghost chunks: seq<Chunk>, ghost zeros: string)
    returns (r: Outcome)
    requires Body(chunks, zeros) && Concat(pieces) == Encode(chunks, zeros)
    requires decoder.request == decoder.result == "" && !client.allRecv
    modifies decoder, client`allRecv
    ensures r == OutOfRange <==> exists i :: 0 <= i < |pieces| && CutAfter(pieces, chunks, i)
    ensures r != OutOfRange ==> r == Returned(Content(chunks)) && decoder.request == decoder.result == ""
    ensures client.allRecv <==> r != OutOfRange
  {
    hide CgiDrain, Body, Encode, Content, CutsCrlf, SameCuts, Concat;
    ghost var m: nat := 0;
    NothingFedCgi(pieces, chunks, zeros);
    var i: nat := 0;
    while true
      invariant i < |pieces| && m <= |chunks| && decoder.result == Content(chunks[..m])
      invariant decoder.request + Concat(pieces[i..]) == Encode(chunks[m..], zeros)
      invariant SameCuts(chunks, Concat(pieces[..i]), m, decoder.request) && !client.allRecv
      invariant forall k :: 0 <= k < i ==> !CutAfter(pieces, chunks, k)
      decreases |pieces| - i
    {
      ConcatStep(pieces, i);
      ghost var tail := Concat(pieces[i + 1..]);
      m := CgiCall(chunks, zeros, Concat(pieces[..i]), m, decoder.request, pieces[i], tail);
      r := decoder.ChunkedForCgi(client, pieces[i]);
      if r == OutOfRange {
        assert CutAfter(pieces, chunks, i);
        return;
      }
      if r.Returned? {
        forall k | i <= k < |pieces| ensures !CutAfter(pieces, chunks, k) {
          LateCutsDontOccur(pieces, chunks, zeros, i, k);
        }
        return;
      }
      NothingLeft(pieces);
      i := i + 1;
    }
  }

  /** A body of one byte, cut before the line end of its chunk: FeedCgi on it returns OutOfRange. */
  lemma CutThrows()
    ensures var pieces, chunks := ["1\r\na", "\r\n0\r\n\r\n"], [Chunk("1", "a")];
            Body(chunks, "0") && Concat(pieces) == Encode(chunks, "0") && CutAfter(pieces, chunks, 0)
  {
    var pieces, chunks := ["1\r\na", "\r\n0\r\n\r\n"], [Chunk("1", "a")];
    assert HexNumber("1") == 1 by {
      assert "1"[..0] == "";
    }
    ConcatStep(pieces, 0);
    ConcatStep(pieces, 1);
    assert pieces[..0] == [] && pieces[..2] == pieces && chunks[1..] == [];
    EncodeUnfolds(chunks, "0");
    assert EncodeChunk(chunks[0]) == "1\r\na\r\n";
    CutsUnfolds(chunks, pieces[0]);
  }

  lemma NothingLeft(pieces: seq<string>)
    ensures Concat(pieces[|pieces|..]) == ""
  {
  }

  lemma NothingFedCgi(pieces: seq<string>, chunks: seq<Chunk>, zeros: string)
    requires Body(chunks, zeros) && Concat(pieces) == Encode(chunks, zeros)
    ensures pieces != [] && "" + Concat(pieces[0..]) == Encode(chunks[0..], zeros) && Content(chunks[..0]) == ""
    ensures SameCuts(chunks, Concat(pieces[..0]), 0, "")
  {
    assert pieces[0..] == pieces && chunks[0..] == chunks && pieces[..0] == [];
    forall more: string ensures CutsCrlf(chunks, "" + more) == CutsCrlf(chunks[0..], "" + more) {}
  }
}
