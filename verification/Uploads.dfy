/**
 Uploads that share a buffer. The push decoders keep what they have not consumed
 in static variables of their functions, so what the clients of the poll loop
 send meets there. Every upload is one body; a client that sends several, one
 after the other, counts as several uploads.
 */
module Uploads {
  import opened ChunkedSpec
  import opened ChunkedPush

  /** A call: what one read delivered, and of which upload. */
  datatype Call = Call(upload: nat, piece: string)

  /** A body as its sender wrote it. */
  datatype Sent = Sent(chunks: seq<Chunk>, zeros: string)

  function Wire(s: Sent): string {
    Encode(s.chunks, s.zeros)
  }

  /** All that was read, in order. */
  function Pieces(calls: seq<Call>): seq<string> {
    if calls == [] then [] else Pieces(calls[..|calls| - 1]) + [calls[|calls| - 1].piece]
  }

  /** What was read of one upload. */
  function Of(calls: seq<Call>, u: nat): seq<string> {
    if calls == [] then []
    else
      var r := calls[|calls| - 1];
      Of(calls[..|calls| - 1], u) + if r.upload == u then [r.piece] else []
  }

  /** The bytes received of upload u before call i. */
  function Received(calls: seq<Call>, i: nat, u: nat): string
    requires i <= |calls|
  {
    Concat(Of(calls[..i], u))
  }

  /** Every call brings the next bytes of a body as RFC 9112 has it, which need not arrive as a whole. */
  ghost predicate Sending(calls: seq<Call>, sent: seq<Sent>) {
    && (forall i :: 0 <= i < |calls| ==> calls[i].upload < |sent|)
    && forall u :: 0 <= u < |sent| ==>
         Body(sent[u].chunks, sent[u].zeros) && Received(calls, |calls|, u) <= Wire(sent[u])
  }

  // -------------------------------------------------------------------------
  // Any decoder that keeps something from call to call
  // -------------------------------------------------------------------------

  /** What is kept after calls with these pieces. */
  function Kept<S>(step: (S, string) -> S, start: S, pieces: seq<string>): S {
    if pieces == [] then start
    else step(Kept(step, start, pieces[..|pieces| - 1]), pieces[|pieces| - 1])
  }

  /** What is kept before call i by the decoder that all calls share. */
  function Shared<S>(step: (S, string) -> S, start: S, calls: seq<Call>, i: nat): S
    requires i <= |calls|
  {
    Kept(step, start, Pieces(calls[..i]))
  }

  /** What a decoder for upload u alone would keep before call i. */
  function Own<S>(step: (S, string) -> S, start: S, calls: seq<Call>, i: nat, u: nat): S
    requires i <= |calls|
  {
    Kept(step, start, Of(calls[..i], u))
  }

  /** Call i works on what a decoder of its upload alone would have kept. */
  ghost predicate OnItsOwn<S>(step: (S, string) -> S, start: S, calls: seq<Call>, i: nat)
    requires i < |calls|
  {
    Shared(step, start, calls, i) == Own(step, start, calls, i, calls[i].upload)
  }

  predicate Changes(calls: seq<Call>, i: nat) {
    0 < i < |calls| && calls[i].upload != calls[i - 1].upload
  }

  /** Where call i is for another upload than the call before, nothing is kept of that one. */
  ghost predicate NothingKept<S>(step: (S, string) -> S, start: S, calls: seq<Call>, i: nat) {
    Changes(calls, i) ==> Own(step, start, calls, i, calls[i - 1].upload) == start
  }

  lemma KeptMore<S>(step: (S, string) -> S, start: S, pieces: seq<string>, piece: string)
    ensures Kept(step, start, pieces + [piece]) == step(Kept(step, start, pieces), piece)
  {
    assert (pieces + [piece])[..|pieces|] == pieces;
  }

  lemma OneMore(calls: seq<Call>, i: nat, u: nat)
    requires i < |calls|
    ensures Pieces(calls[..i + 1]) == Pieces(calls[..i]) + [calls[i].piece]
    ensures Of(calls[..i + 1], u) ==
            if calls[i].upload == u then Of(calls[..i], u) + [calls[i].piece] else Of(calls[..i], u)
  {
    assert calls[..i + 1][..i] == calls[..i];
  }

  lemma StepOf<S>(step: (S, string) -> S, start: S, calls: seq<Call>, i: nat, u: nat)
    requires i < |calls|
    ensures Shared(step, start, calls, i + 1) == step(Shared(step, start, calls, i), calls[i].piece)
    ensures Own(step, start, calls, i + 1, u) ==
            if calls[i].upload == u then step(Own(step, start, calls, i, u), calls[i].piece)
            else Own(step, start, calls, i, u)
  {
    hide Kept, Of, Pieces;
    OneMore(calls, i, u);
    KeptMore(step, start, Pieces(calls[..i]), calls[i].piece);
    KeptMore(step, start, Of(calls[..i], u), calls[i].piece);
  }

  lemma Beginning<S>(step: (S, string) -> S, start: S, calls: seq<Call>, u: nat)
    ensures Shared(step, start, calls, 0) == Own(step, start, calls, 0, u) == start
  {
    assert calls[..0] == [];
  }

  /** What is kept before call i belongs to the call before, and nothing is kept of any other upload. */
  ghost predicate Apart<S>(step: (S, string) -> S, start: S, calls: seq<Call>, i: nat)
    requires i <= |calls|
  {
    forall u: nat ::
      Own(step, start, calls, i, u) ==
      if i > 0 && u == calls[i - 1].upload then Shared(step, start, calls, i) else start
  }

  lemma ApartStep<S>(step: (S, string) -> S, start: S, calls: seq<Call>, i: nat)
    requires i < |calls| && Apart(step, start, calls, i)
    ensures OnItsOwn(step, start, calls, i) <==> NothingKept(step, start, calls, i)
    ensures OnItsOwn(step, start, calls, i) ==> Apart(step, start, calls, i + 1)
  {
    hide Shared, Own;
    Beginning(step, start, calls, calls[i].upload);
    if i > 0 {
      assert Own(step, start, calls, i, calls[i - 1].upload) == Shared(step, start, calls, i);
    }
    if OnItsOwn(step, start, calls, i) {
      var j := i + 1;
      forall u: nat
        ensures Own(step, start, calls, j, u) == if u == calls[i].upload then Shared(step, start, calls, j) else start
      {
        StepOf(step, start, calls, i, u);
      }
    }
  }

  lemma {:induction false} ApartWhen<S>(step: (S, string) -> S, start: S, calls: seq<Call>, n: nat)
    requires n <= |calls|
    requires (forall i :: 0 <= i < n ==> OnItsOwn(step, start, calls, i))
             || forall i :: 0 <= i < n ==> NothingKept(step, start, calls, i)
    ensures Apart(step, start, calls, n)
    ensures forall i :: 0 <= i < n ==> OnItsOwn(step, start, calls, i) && NothingKept(step, start, calls, i)
  {
    hide OnItsOwn, NothingKept, Apart;
    if n == 0 {
      FirstApart(step, start, calls);
    } else {
      ApartWhen(step, start, calls, n - 1);
      ApartStep(step, start, calls, n - 1);
    }
  }

  lemma FirstApart<S>(step: (S, string) -> S, start: S, calls: seq<Call>)
    ensures Apart(step, start, calls, 0)
  {
    hide Shared, Own;
    forall u: nat ensures Own(step, start, calls, 0, u) == start {
      Beginning(step, start, calls, u);
    }
  }

  /**
   A decoder whose memory all uploads share treats every upload as if it were
   alone, if and only if it keeps nothing whenever the calls pass from one upload
   to another.
   */
  lemma SharingExactly<S>(step: (S, string) -> S, start: S, calls: seq<Call>)
    ensures (forall i :: 0 <= i < |calls| ==> OnItsOwn(step, start, calls, i)) <==>
            (forall i :: 0 <= i < |calls| ==> NothingKept(step, start, calls, i))
  {
    hide OnItsOwn, NothingKept, Apart;
    if (forall i :: 0 <= i < |calls| ==> OnItsOwn(step, start, calls, i))
       || forall i :: 0 <= i < |calls| ==> NothingKept(step, start, calls, i) {
      ApartWhen(step, start, calls, |calls|);
    }
  }

  // -------------------------------------------------------------------------
  // What has been received
  // -------------------------------------------------------------------------

  lemma ReceivedStep(calls: seq<Call>, i: nat, u: nat)
    requires i < |calls|
    ensures Received(calls, i + 1, u) ==
            if calls[i].upload == u then Received(calls, i, u) + calls[i].piece else Received(calls, i, u)
  {
    hide Concat, Of;
    OneMore(calls, i, u);
    if calls[i].upload == u {
      var pieces := Of(calls[..i], u) + [calls[i].piece];
      ConcatStep(pieces, |pieces| - 1);
      assert pieces[..|pieces|] == pieces && pieces[..|pieces| - 1] == Of(calls[..i], u);
    }
  }

  lemma NothingReceived(calls: seq<Call>, u: nat)
    ensures Received(calls, 0, u) == ""
  {
    assert calls[..0] == [];
  }

  /** What is still to come of upload u. */
  lemma {:induction false} ToCome(calls: seq<Call>, sent: seq<Sent>, i: nat, u: nat) returns (tail: string)
    requires Sending(calls, sent) && i <= |calls| && u < |sent|
    ensures Body(sent[u].chunks, sent[u].zeros) && Received(calls, i, u) + tail == Wire(sent[u])
    decreases |calls| - i
  {
    hide Received, Wire, Body;
    if i == |calls| {
      tail := Wire(sent[u])[|Received(calls, i, u)|..];
    } else {
      tail := ToCome(calls, sent, i + 1, u);
      ReceivedStep(calls, i, u);
      if calls[i].upload == u {
        Associate(Received(calls, i, u), calls[i].piece, tail);
        tail := calls[i].piece + tail;
      }
    }
  }

  // -------------------------------------------------------------------------
  // chunked
  // -------------------------------------------------------------------------

  /** What chunked keeps in its buffer. */
  function ChunkedStep(kept: string, piece: string): string {
    Drain(kept + piece).rest
  }

  lemma PartOfBody(s: Sent, received: string, tail: string)
    requires Body(s.chunks, s.zeros) && received + tail == Wire(s)
    ensures Drain(received).done <==> received == Wire(s)
    ensures Drain(received).done ==> tail == "" && Drain(received) == Drained(Datas(s.chunks), "", true)
    ensures Drain(received).rest == "" <==> EndsChunk(s.chunks, received) || received == Wire(s)
  {
    hide Drain, Encode, Body, EndsChunk, Datas;
    var m := DrainOfPrefix(s.chunks, s.zeros, received, tail);
    RestEmptyExactly(s.chunks, s.zeros, received, tail);
  }

  /** One more call on the bytes of one body. */
  lemma DrainMore(s: Sent, received: string, piece: string, tail: string)
    requires Body(s.chunks, s.zeros) && received + (piece + tail) == Wire(s)
    ensures var was, now := Drain(received), Drain(received + piece);
            var d := Drain(was.rest + piece);
            now.rest == d.rest && now.datas == was.datas + d.datas && now.done == (was.done || d.done)
  {
    hide Drain, Wire, Body;
    PartOfBody(s, received, piece + tail);
    DrainAppend(received, piece);
    if Drain(received).done {
      assert piece == "" && received + "" == received;
      CallAfterTheEnd();
    }
  }

  /** The buffer of a decoder for one upload alone. */
  lemma {:induction false} AloneIsDrained(calls: seq<Call>, sent: seq<Sent>, i: nat, u: nat)
    requires Sending(calls, sent) && i <= |calls| && u < |sent|
    ensures Own(ChunkedStep, "", calls, i, u) == Drain(Received(calls, i, u)).rest
  {
    hide Sending, Own, Drain, Received, Wire, Body;
    if i == 0 {
      Beginning(ChunkedStep, "", calls, u);
      NothingReceived(calls, u);
      CallAfterTheEnd();
      assert "" + "" == "";
    } else {
      AloneIsDrained(calls, sent, i - 1, u);
      AloneStep(calls, sent, i - 1, u);
    }
  }

  lemma AloneStep(calls: seq<Call>, sent: seq<Sent>, i: nat, u: nat)
    requires Sending(calls, sent) && i < |calls| && u < |sent|
    requires Own(ChunkedStep, "", calls, i, u) == Drain(Received(calls, i, u)).rest
    ensures Own(ChunkedStep, "", calls, i + 1, u) == Drain(Received(calls, i + 1, u)).rest
  {
    hide Sending, Own, Drain, Received, Wire, Body;
    StepOf(ChunkedStep, "", calls, i, u);
    var tail := ToCome(calls, sent, i + 1, u);
    ReceivedStep(calls, i, u);
    if calls[i].upload == u {
      Associate(Received(calls, i, u), calls[i].piece, tail);
      DrainMore(sent[u], Received(calls, i, u), calls[i].piece, tail);
    }
  }

  /** What has been received of the upload before ends where one of its chunks or its body ends. */
  ghost predicate HandsOverAt(calls: seq<Call>, sent: seq<Sent>, i: nat) {
    Changes(calls, i) ==>
      var u := calls[i - 1].upload;
      && u < |sent|
      && (EndsChunk(sent[u].chunks, Received(calls, i, u)) || Received(calls, i, u) == Wire(sent[u]))
  }

  /** That is so wherever the calls pass from one upload to another. */
  ghost predicate HandsOver(calls: seq<Call>, sent: seq<Sent>) {
    forall i :: 0 <= i < |calls| ==> HandsOverAt(calls, sent, i)
  }

  lemma EndAtChange(calls: seq<Call>, sent: seq<Sent>, i: nat)
    requires Sending(calls, sent)
    ensures NothingKept(ChunkedStep, "", calls, i) <==> HandsOverAt(calls, sent, i)
  {
    hide Own, Received, EndsChunk, Wire;
    if Changes(calls, i) {
      var u := calls[i - 1].upload;
      AloneIsDrained(calls, sent, i, u);
      var tail := ToCome(calls, sent, i, u);
      PartOfBody(sent[u], Received(calls, i, u), tail);
    }
  }

  /**
   Every call of chunked works on the buffer that its own upload would have left,
   if and only if at every change of the upload the bytes received of the one
   before end where one of its chunks or its body ends.
   */
  lemma UploadsApart(calls: seq<Call>, sent: seq<Sent>)
    requires Sending(calls, sent)
    ensures (forall i :: 0 <= i < |calls| ==> OnItsOwn(ChunkedStep, "", calls, i)) <==> HandsOver(calls, sent)
  {
    hide Sending, OnItsOwn, NothingKept, HandsOverAt;
    SharingExactly(ChunkedStep, "", calls);
    forall i | 0 <= i < |calls|
      ensures NothingKept(ChunkedStep, "", calls, i) <==> HandsOverAt(calls, sent, i)
    {
      EndAtChange(calls, sent, i);
    }
  }

  predicate Distinct(clients: seq<Client>) {
    forall u, v :: 0 <= u < v < |clients| ==> clients[u] != clients[v]
  }

  /** A client has what the handler of its upload alone would have got from these bytes. */
  ghost predicate Served(client: Client, received: string)
    reads client
  {
    client.sink == Drain(received).datas && client.allRecv == Drain(received).done
  }

  lemma ServedMore(calls: seq<Call>, sent: seq<Sent>, i: nat)
    requires Sending(calls, sent) && i < |calls| && HandsOver(calls, sent)
    ensures var u, piece := calls[i].upload, calls[i].piece;
            var was, now := Drain(Received(calls, i, u)), Drain(Received(calls, i + 1, u));
            var d := Drain(Shared(ChunkedStep, "", calls, i) + piece);
            && now.datas == was.datas + d.datas && now.done == (was.done || d.done)
            && u < |sent| && (now.done <==> Received(calls, i + 1, u) == Wire(sent[u]))
  {
    hide Shared, Own, Received, Wire, Drain, HandsOver, Body;
    UploadsApart(calls, sent);
    var u := calls[i].upload;
    assert OnItsOwn(ChunkedStep, "", calls, i);
    AloneIsDrained(calls, sent, i, u);
    ReceivedStep(calls, i, u);
    var tail := ToCome(calls, sent, i + 1, u);
    Associate(Received(calls, i, u), calls[i].piece, tail);
    DrainMore(sent[u], Received(calls, i, u), calls[i].piece, tail);
    PartOfBody(sent[u], Received(calls, i + 1, u), tail);
  }

  /**
   Calls of chunked for any number of uploads. If the calls change the upload
   only where a chunk or the body ends, every handler gets exactly the chunks of
   its own body, and every upload is complete after exactly those calls that end
   with its whole body received.
   */
  method FeedShared(decoder: Decoder, clients: seq<Client>, calls: seq<Call>, ghost sent: seq<Sent>)
    returns (completed: seq<bool>)
    requires Sending(calls, sent) && |clients| == |sent| && Distinct(clients)
    requires decoder.request == "" && forall u :: 0 <= u < |clients| ==> clients[u].sink == [] && !clients[u].allRecv
    modifies decoder, clients
    ensures |completed| == |calls|
    ensures decoder.request == Shared(ChunkedStep, "", calls, |calls|)
    ensures HandsOver(calls, sent) ==>
              && (forall u :: 0 <= u < |sent| ==> Served(clients[u], Received(calls, |calls|, u)))
              && (forall u :: 0 <= u < |sent| && Received(calls, |calls|, u) == Wire(sent[u]) ==>
                    clients[u].sink == Datas(sent[u].chunks) && clients[u].allRecv)
              && (forall i :: 0 <= i < |calls| ==>
                    (completed[i] <==> Received(calls, i + 1, calls[i].upload) == Wire(sent[calls[i].upload])))
  {
    hide Shared, Received, Wire, Drain, HandsOver, Body;
    completed := [];
    Beginning(ChunkedStep, "", calls, 0);
    forall u | 0 <= u < |sent| ensures Served(clients[u], Received(calls, 0, u)) {
      NothingReceived(calls, u);
      CallAfterTheEnd();
      assert "" + "" == "";
    }
    for i := 0 to |calls|
      invariant |completed| == i && decoder.request == Shared(ChunkedStep, "", calls, i)
      invariant HandsOver(calls, sent) ==> forall u :: 0 <= u < |sent| ==> Served(clients[u], Received(calls, i, u))
      invariant HandsOver(calls, sent) ==>
                  forall k :: 0 <= k < i ==>
                    (completed[k] <==> Received(calls, k + 1, calls[k].upload) == Wire(sent[calls[k].upload]))
    {
      var u := calls[i].upload;
      StepOf(ChunkedStep, "", calls, i, u);
      if HandsOver(calls, sent) {
        ServedMore(calls, sent, i);
      }
      label before:
      decoder.Chunked(clients[u], calls[i].piece);
      completed := completed + [clients[u].allRecv];
      if HandsOver(calls, sent) {
        forall v | 0 <= v < |sent|
          ensures Served(clients[v], Received(calls, i + 1, v))
        {
          assert old@before(Served(clients[v], Received(calls, i, v)));
          ReceivedStep(calls, i, v);
          assert v != u ==> clients[v] != clients[u];
        }
      }
    }
    forall u | 0 <= u < |sent| && Received(calls, |calls|, u) == Wire(sent[u])
      ensures Drain(Received(calls, |calls|, u)) == Drained(Datas(sent[u].chunks), "", true)
    {
      assert Wire(sent[u]) + "" == Wire(sent[u]);
      PartOfBody(sent[u], Wire(sent[u]), "");
    }
  }

  lemma OneByte(c: char)
    ensures Body([Chunk("1", [c])], "0") && Wire(Sent([Chunk("1", [c])], "0")) == "1\r\n" + [c] + "\r\n0\r\n\r\n"
    ensures !EndsChunk([Chunk("1", [c])], "1\r\n" + [c])
  {
    assert HexNumber("1") == 1 by {
      assert "1"[..0] == "";
    }
    var chunks := [Chunk("1", [c])];
    EncodeUnfolds(chunks, "0");
    assert chunks[1..] == [];
    assert EncodeChunk(chunks[0]) == "1\r\n" + [c] + "\r\n";
  }

  /** The reads of two bodies of one byte each: the second body arrives between the two reads of the first. */
  function Mixing(): seq<Call> {
    [Call(0, "1\r\na"), Call(1, "1\r\nb\r\n0\r\n\r\n"), Call(0, "\r\n0\r\n\r\n")]
  }

  function MixingSent(): seq<Sent> {
    [Sent([Chunk("1", "a")], "0"), Sent([Chunk("1", "b")], "0")]
  }

  lemma MixingReceived()
    ensures Received(Mixing(), 1, 0) == "1\r\na"
    ensures Received(Mixing(), 3, 0) == "1\r\na\r\n0\r\n\r\n"
    ensures Received(Mixing(), 3, 1) == "1\r\nb\r\n0\r\n\r\n"
  {
    hide Received;
    forall u | u == 0 || u == 1
      ensures Received(Mixing(), 1, u) == if u == 0 then "1\r\na" else ""
      ensures Received(Mixing(), 3, u) == if u == 0 then "1\r\na\r\n0\r\n\r\n" else "1\r\nb\r\n0\r\n\r\n"
    {
      NothingReceived(Mixing(), u);
      ReceivedStep(Mixing(), 0, u);
      ReceivedStep(Mixing(), 1, u);
      ReceivedStep(Mixing(), 2, u);
    }
  }

  lemma MixingSends()
    ensures Sending(Mixing(), MixingSent()) && !HandsOver(Mixing(), MixingSent())
  {
    hide Received, Wire, EndsChunk, Body;
    OneByte('a');
    OneByte('b');
    MixingReceived();
    assert "1\r\n" + ['a'] == "1\r\na";
    assert !HandsOverAt(Mixing(), MixingSent(), 1);
  }

  /**
   The condition fails, and the uploads mix: the handler of the second one gets
   the data of the first, and neither is ever complete.
   */
  lemma UploadsMix()
    ensures Sending(Mixing(), MixingSent()) && !HandsOver(Mixing(), MixingSent())
    ensures var calls := Mixing();
            && !Drain(Shared(ChunkedStep, "", calls, 0) + calls[0].piece).done
            && Drain(Shared(ChunkedStep, "", calls, 1) + calls[1].piece) == Drained(["a"], "\nb\r\n0\r\n\r\n", false)
            && !Drain(Shared(ChunkedStep, "", calls, 2) + calls[2].piece).done
  {
    hide Sending, HandsOver, Shared, Drain;
    MixingSends();
    MixedBuffers();
    var calls := Mixing();
    Beginning(ChunkedStep, "", calls, 0);
    StepOf(ChunkedStep, "", calls, 0, 0);
    StepOf(ChunkedStep, "", calls, 1, 0);
    assert "" + calls[0].piece == calls[0].piece;
  }

  // -------------------------------------------------------------------------
  // chunked_for_cgi
  // -------------------------------------------------------------------------

  /** What chunked_for_cgi keeps in its two strings. */
  datatype CgiKept = CgiKept(request: string, result: string)

  const NONE := CgiKept("", "")

  function CgiStep(kept: CgiKept, piece: string): CgiKept {
    match CgiDrain(kept.request + piece, kept.result)
    case Waits(rest, data) => CgiKept(rest, data)
    case Ends(_) => NONE
    case Throws(rest, data) => CgiKept(rest, data)
  }

  /** The body is returned as soon as the last size line is there. */
  predicate Whole(s: Sent, received: string) {
    |received| + 2 >= |Wire(s)|
  }

  /** No call comes for an upload that has been returned, and none cuts the data of a chunk from its line end. */
  ghost predicate SendingCgi(calls: seq<Call>, sent: seq<Sent>) {
    && Sending(calls, sent)
    && forall i :: 0 <= i < |calls| ==>
         var u := calls[i].upload;
         !Whole(sent[u], Received(calls, i, u)) && !CutsCrlf(sent[u].chunks, Received(calls, i + 1, u))
  }

  /** What a decoder for one upload keeps of these bytes. */
  function KeptOf(s: Sent, received: string): CgiKept {
    if Whole(s, received) then NONE
    else
      match CgiDrain(received, "")
      case Waits(rest, data) => CgiKept(rest, data)
      case _ => NONE
  }

  lemma PartOfCgiBody(s: Sent, received: string, tail: string)
    requires Body(s.chunks, s.zeros) && received + tail == Wire(s) && !CutsCrlf(s.chunks, received)
    ensures if Whole(s, received) then CgiDrain(received, "") == Ends(Content(s.chunks))
            else CgiDrain(received, "").Waits?
    ensures KeptOf(s, received) == NONE <==> received == "" || Whole(s, received)
  {
    hide CgiDrain, Encode, CutsCrlf, Content;
    var m := CgiOfPrefix(s.chunks, s.zeros, received, tail, "");
    assert "" + Content(s.chunks) == Content(s.chunks);
    if !Whole(s, received) {
      ContentFirst(s.chunks, m);
      assert s.chunks[0..] == s.chunks;
      var d := CgiDrain(received, "");
      if m == 0 {
        SameHeads(d.rest, received, tail);
        assert d.result == "";
      } else {
        CgiUnfolds("", "");
        assert WellFormed(s.chunks[0]);
        assert |d.result| >= |s.chunks[0].data| > 0;
      }
    }
  }

  lemma SameHeads(a: string, b: string, tail: string)
    requires a + tail == b + tail
    ensures a == b
  {
    assert |a + tail| == |a| + |tail| && |b + tail| == |b| + |tail|;
    assert a == (a + tail)[..|a|] && b == (b + tail)[..|b|];
  }

  lemma NothingCut(s: Sent)
    requires Body(s.chunks, s.zeros)
    ensures !CutsCrlf(s.chunks, "")
  {
    if s.chunks != [] {
      assert WellFormed(s.chunks[0]);
    }
  }

  /** One more call on the bytes of one body that has not been returned. */
  lemma CgiMore(s: Sent, received: string, piece: string, tail: string)
    requires Body(s.chunks, s.zeros) && received + (piece + tail) == Wire(s) && !Whole(s, received)
    requires !CutsCrlf(s.chunks, received) && !CutsCrlf(s.chunks, received + piece)
    ensures var k := KeptOf(s, received);
            && KeptOf(s, received + piece) == CgiStep(k, piece)
            && CgiDrain(k.request + piece, k.result) == CgiDrain(received + piece, "")
            && if Whole(s, received + piece) then CgiDrain(received + piece, "") == Ends(Content(s.chunks))
               else CgiDrain(received + piece, "").Waits?
  {
    hide CgiDrain, Encode, CutsCrlf, Content, Whole;
    PartOfCgiBody(s, received, piece + tail);
    Associate(received, piece, tail);
    PartOfCgiBody(s, received + piece, tail);
    CgiAppend(received, piece, "");
  }

  lemma {:induction false} CgiAloneIsDrained(calls: seq<Call>, sent: seq<Sent>, i: nat, u: nat)
    requires SendingCgi(calls, sent) && i <= |calls| && u < |sent|
    ensures !CutsCrlf(sent[u].chunks, Received(calls, i, u))
    ensures Own(CgiStep, NONE, calls, i, u) == KeptOf(sent[u], Received(calls, i, u))
  {
    hide Own, Received, Wire, Body, CgiDrain, KeptOf, CgiStep, CutsCrlf, Whole;
    var tail := ToCome(calls, sent, i, u);
    if i == 0 {
      Beginning(CgiStep, NONE, calls, u);
      NothingReceived(calls, u);
      NothingCut(sent[u]);
      PartOfCgiBody(sent[u], "", tail);
    } else {
      CgiAloneIsDrained(calls, sent, i - 1, u);
      StepOf(CgiStep, NONE, calls, i - 1, u);
      ReceivedStep(calls, i - 1, u);
      if calls[i - 1].upload == u {
        Associate(Received(calls, i - 1, u), calls[i - 1].piece, tail);
        CgiMore(sent[u], Received(calls, i - 1, u), calls[i - 1].piece, tail);
      }
    }
  }

  /** Where the calls pass to another upload, nothing has been received of the one before, or it has been returned. */
  ghost predicate HandsOverCgiAt(calls: seq<Call>, sent: seq<Sent>, i: nat) {
    Changes(calls, i) ==>
      var u := calls[i - 1].upload;
      u < |sent| && (Received(calls, i, u) == "" || Whole(sent[u], Received(calls, i, u)))
  }

  ghost predicate HandsOverCgi(calls: seq<Call>, sent: seq<Sent>) {
    forall i :: 0 <= i < |calls| ==> HandsOverCgiAt(calls, sent, i)
  }

  lemma CgiEndAtChange(calls: seq<Call>, sent: seq<Sent>, i: nat)
    requires SendingCgi(calls, sent)
    ensures NothingKept(CgiStep, NONE, calls, i) <==> HandsOverCgiAt(calls, sent, i)
  {
    hide Own, Received, Wire, CutsCrlf, KeptOf, Whole;
    if Changes(calls, i) {
      var u := calls[i - 1].upload;
      CgiAloneIsDrained(calls, sent, i, u);
      var tail := ToCome(calls, sent, i, u);
      PartOfCgiBody(sent[u], Received(calls, i, u), tail);
    }
  }

  /**
   Where no call throws, every call of chunked_for_cgi works on the strings that
   its own upload would have left, if and only if the calls change the upload only
   when the one before has been returned.
   */
  lemma CgiUploadsApart(calls: seq<Call>, sent: seq<Sent>)
    requires SendingCgi(calls, sent)
    ensures (forall i :: 0 <= i < |calls| ==> OnItsOwn(CgiStep, NONE, calls, i)) <==> HandsOverCgi(calls, sent)
  {
    hide SendingCgi, OnItsOwn, NothingKept, HandsOverCgiAt;
    SharingExactly(CgiStep, NONE, calls);
    forall i | 0 <= i < |calls|
      ensures NothingKept(CgiStep, NONE, calls, i) <==> HandsOverCgiAt(calls, sent, i)
    {
      CgiEndAtChange(calls, sent, i);
    }
  }

  /** The upload is returned by the call that brings its last size line, and by no other. */
  ghost predicate IsResult(calls: seq<Call>, sent: seq<Sent>, i: nat, r: Outcome)
    requires i < |calls|
  {
    var u := calls[i].upload;
    && u < |sent|
    && r == if Whole(sent[u], Received(calls, i + 1, u)) then Returned(Content(sent[u].chunks)) else More
  }

  function ResultOf(d: CgiDrained): Outcome {
    match d
    case Waits(_, _) => More
    case Ends(body) => Returned(body)
    case Throws(_, _) => OutOfRange
  }

  lemma UploadKnown(calls: seq<Call>, sent: seq<Sent>, i: nat)
    requires SendingCgi(calls, sent) && i < |calls|
    ensures calls[i].upload < |sent|
  {
  }

  lemma CgiServed(calls: seq<Call>, sent: seq<Sent>, i: nat)
    requires SendingCgi(calls, sent) && i < |calls| && HandsOverCgi(calls, sent)
    ensures var k := Shared(CgiStep, NONE, calls, i);
            IsResult(calls, sent, i, ResultOf(CgiDrain(k.request + calls[i].piece, k.result)))
  {
    hide Shared, Own, Received, Wire, Body, CgiDrain, KeptOf, CgiStep, CutsCrlf, Whole, HandsOverCgi, Content;
    CgiUploadsApart(calls, sent);
    var u := calls[i].upload;
    assert OnItsOwn(CgiStep, NONE, calls, i);
    CgiAloneIsDrained(calls, sent, i, u);
    ReceivedStep(calls, i, u);
    var tail := ToCome(calls, sent, i + 1, u);
    Associate(Received(calls, i, u), calls[i].piece, tail);
    CgiMore(sent[u], Received(calls, i, u), calls[i].piece, tail);
  }

  /** One call, in terms of what is kept. */
  method CallCgi(decoder: CgiDecoder, client: Client, piece: string) returns (r: Outcome)
    modifies decoder, client
    ensures var k := CgiKept(old(decoder.request), old(decoder.result));
            && r == ResultOf(CgiDrain(k.request + piece, k.result))
            && CgiKept(decoder.request, decoder.result) == CgiStep(k, piece)
  {
    hide CgiDrain;
    r := decoder.ChunkedForCgi(client, piece);
  }

  /**
   Calls of chunked_for_cgi for any number of uploads. If none cuts a line end and
   the calls change the upload only when the one before has been returned, every
   upload is returned with its own content, by exactly the call that brings its
   last size line.
   */
  method FeedSharedCgi(decoder: CgiDecoder, clients: seq<Client>, calls: seq<Call>, ghost sent: seq<Sent>)
    returns (results: seq<Outcome>)
    requires SendingCgi(calls, sent) && |clients| == |sent|
    requires decoder.request == decoder.result == ""
    modifies decoder, clients
    ensures |results| == |calls|
    ensures CgiKept(decoder.request, decoder.result) == Shared(CgiStep, NONE, calls, |calls|)
    ensures HandsOverCgi(calls, sent) ==>
              forall i :: 0 <= i < |calls| ==> IsResult(calls, sent, i, results[i])
  {
    hide Shared, CgiDrain, HandsOverCgi, SendingCgi, IsResult, CgiStep, ResultOf;
    results := [];
    Beginning(CgiStep, NONE, calls, 0);
    for i := 0 to |calls|
      invariant |results| == i && CgiKept(decoder.request, decoder.result) == Shared(CgiStep, NONE, calls, i)
      invariant HandsOverCgi(calls, sent) ==> forall k :: 0 <= k < i ==> IsResult(calls, sent, k, results[k])
    {
      StepOf(CgiStep, NONE, calls, i, 0);
      if HandsOverCgi(calls, sent) {
        CgiServed(calls, sent, i);
      }
      UploadKnown(calls, sent, i);
      var r := CallCgi(decoder, clients[calls[i].upload], calls[i].piece);
      results := results + [r];
    }
  }
}
