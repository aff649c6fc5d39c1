/**
 The chunked transfer coding of section 7.1 of RFC 9112, without chunk
 extensions and trailer fields. Characters stand for bytes.
 */
module ChunkedSpec {

  const CRLF: string := "\r\n"

  /** One chunk as its sender wrote it: the digits of the size line, in any case and with any leading zeros. */
  datatype Chunk = Chunk(digits: string, data: string)

  predicate HexDigit(c: char) {
    '0' <= c <= '9' || 'a' <= c <= 'f' || 'A' <= c <= 'F'
  }

  function DigitValue(c: char): nat
    requires HexDigit(c)
  {
    if c <= '9' then (c - '0') as nat else if c >= 'a' then (c - 'a') as nat + 10 else (c - 'A') as nat + 10
  }

  /** The digits and their values, in either case. */
  lemma DigitValues(c: char, k: nat)
    requires k < 16
    ensures HexDigit("0123456789abcdef"[k]) && DigitValue("0123456789abcdef"[k]) == k
    ensures HexDigit("0123456789ABCDEF"[k]) && DigitValue("0123456789ABCDEF"[k]) == k
    ensures HexDigit(c) ==>
              var v := DigitValue(c); v < 16 && (c == "0123456789abcdef"[v] || c == "0123456789ABCDEF"[v])
  {
  }

  /** The number a string of hexadecimal digits denotes. */
  function HexNumber(s: string): nat
    requires forall i :: 0 <= i < |s| ==> HexDigit(s[i])
  {
    if s == "" then 0 else 16 * HexNumber(s[..|s| - 1]) + DigitValue(s[|s| - 1])
  }

  predicate Digits(s: string) {
    s != "" && forall i :: 0 <= i < |s| ==> HexDigit(s[i])
  }

  /** A chunk other than the last one, of a size an int can hold. */
  predicate WellFormed(c: Chunk) {
    Digits(c.digits) && HexNumber(c.digits) == |c.data| && 0 < |c.data| < 0x8000_0000
  }

  /** The size line of the last chunk: one or more zeros. */
  predicate LastSize(zeros: string) {
    zeros != "" && forall i :: 0 <= i < |zeros| ==> zeros[i] == '0'
  }

  ghost predicate Body(chunks: seq<Chunk>, zeros: string) {
    LastSize(zeros) && forall i :: 0 <= i < |chunks| ==> WellFormed(chunks[i])
  }

  function EncodeChunk(c: Chunk): string {
    c.digits + CRLF + c.data + CRLF
  }

  /** The wire form of a whole body. */
  function Encode(chunks: seq<Chunk>, zeros: string): string {
    if chunks == [] then zeros + CRLF + CRLF else EncodeChunk(chunks[0]) + Encode(chunks[1..], zeros)
  }

  /** The chunk data, chunk by chunk. */
  function Datas(chunks: seq<Chunk>): seq<string> {
    if chunks == [] then [] else [chunks[0].data] + Datas(chunks[1..])
  }

  /** The content the body carries. */
  function Content(chunks: seq<Chunk>): string {
    if chunks == [] then "" else chunks[0].data + Content(chunks[1..])
  }

  function Concat(pieces: seq<string>): string {
    if pieces == [] then "" else Concat(pieces[..|pieces| - 1]) + pieces[|pieces| - 1]
  }

  /** A chunk on the wire, in front of what follows it, and the end of the body. */
  lemma WireForm(chunks: seq<Chunk>, zeros: string)
    ensures Encode([], zeros) == zeros + "\r\n\r\n"
    ensures chunks != [] ==>
              Encode(chunks, zeros) == chunks[0].digits + "\r\n" + chunks[0].data + "\r\n" + Encode(chunks[1..], zeros)
  {
    assert CRLF + CRLF == "\r\n\r\n";
    assert zeros + CRLF + CRLF == zeros + (CRLF + CRLF);
  }

  lemma {:induction false} ZerosAreZero(zeros: string)
    requires forall i :: 0 <= i < |zeros| ==> zeros[i] == '0'
    ensures HexNumber(zeros) == 0
  {
    if zeros != "" {
      ZerosAreZero(zeros[..|zeros| - 1]);
    }
  }

  lemma {:induction false} ConcatSplits(pieces: seq<string>, i: nat)
    requires i <= |pieces|
    ensures Concat(pieces) == Concat(pieces[..i]) + Concat(pieces[i..])
  {
    if i == |pieces| {
      assert pieces[..i] == pieces;
    } else {
      var n := |pieces| - 1;
      ConcatSplits(pieces[..n], i);
      assert pieces[..n][..i] == pieces[..i] && pieces[..n][i..] == pieces[i..][..n - i];
    }
  }

  lemma ConcatStep(pieces: seq<string>, i: nat)
    requires i < |pieces|
    ensures Concat(pieces[i..]) == pieces[i] + Concat(pieces[i + 1..])
    ensures Concat(pieces[..i + 1]) == Concat(pieces[..i]) + pieces[i]
  {
    ConcatSplits(pieces[i..], 1);
    assert pieces[i..][..1] == [pieces[i]] && pieces[i..][1..] == pieces[i + 1..];
    assert Concat([pieces[i]]) == Concat([]) + pieces[i];
    assert pieces[..i + 1][..i] == pieces[..i];
  }

  lemma NoContent()
    ensures Content([]) == ""
  {
  }

  lemma ContentFirst(chunks: seq<Chunk>, j: nat)
    requires j <= |chunks|
    ensures Content(chunks[..j]) == if j == 0 then "" else chunks[0].data + Content(chunks[1..][..j - 1])
  {
    if j > 0 {
      assert chunks[..j][1..] == chunks[1..][..j - 1];
    }
  }

  lemma EncodeUnfolds(chunks: seq<Chunk>, zeros: string)
    ensures Encode(chunks, zeros) ==
            if chunks == [] then zeros + CRLF + CRLF else EncodeChunk(chunks[0]) + Encode(chunks[1..], zeros)
  {
  }

  lemma {:induction false} EncodeHasEnd(chunks: seq<Chunk>, zeros: string)
    ensures |Encode(chunks, zeros)| >= |zeros| + 4
  {
    hide EncodeChunk;
    if chunks != [] {
      EncodeHasEnd(chunks[1..], zeros);
    }
  }

  /** Where the end of `buf` falls in a stream that begins with `enc`. */
  lemma CutAt(buf: string, tail: string, enc: string, rest: string)
    requires buf + tail == enc + rest
    ensures |buf| < |enc| ==> buf < enc && |tail| > |rest|
    ensures |buf| >= |enc| ==> buf == enc + buf[|enc|..] && buf[|enc|..] + tail == rest
  {
    if |buf| < |enc| {
      assert buf == (buf + tail)[..|buf|] == (enc + rest)[..|buf|] == enc[..|buf|];
    } else {
      assert buf[..|enc|] == (buf + tail)[..|enc|] == (enc + rest)[..|enc|] == enc;
      assert buf[|enc|..] + tail == (buf + tail)[|enc|..] == rest;
    }
  }
}
