/**
 The buffered reader of siege-4.1.7/src/sock.c on a plain connection: a
 4096-byte buffer in front of read(2), shifted and refilled on demand.
 Time-outs and read errors are not part of this model.
 */
module Sock {

  const SIZE: nat := 4096

  function Min(a: nat, b: nat): nat {
    if a < b then a else b
  }

  /** What socket_readline takes off a stream: up to the first newline, but no more than `max` bytes. */
  function TakeLine(s: string, max: nat): (line: string)
    ensures |line| <= max && line <= s
  {
    if s == "" || max == 0 then ""
    else if s[0] == '\n' then assert s[..1] == "\n"; "\n"
    else [s[0]] + TakeLine(s[1..], max - 1)
  }

  /** A line that fits is taken with its newline, and of a longer one as much as fits; the last may lack a newline. */
  lemma {:induction false} LineTaken(a: string, b: string, max: nat)
    requires '\n' !in a
    ensures TakeLine(a + "\n" + b, max) == if |a| < max then a + "\n" else a[..max]
    ensures TakeLine(a, max) == if |a| <= max then a else a[..max]
  {
    if a == "" {
      assert a + "\n" + b == "\n" + b;
    } else if max > 0 {
      LineTaken(a[1..], b, max - 1);
      assert (a + "\n" + b)[1..] == a[1..] + "\n" + b && a[0] in a;
    }
  }

  lemma Regroup(held: string, wire: string, n: nat)
    requires n <= |wire|
    ensures held + wire[..n] + wire[n..] == held + wire
  {
  }

  class Conn {
    const buffer: array<char>
    var posIni: nat
    var inbuffer: nat

    /** What the peer has sent and read(2) has not yet delivered. */
    var wire: string

    constructor (wire: string)
      ensures Valid() && Pending() == wire && fresh(buffer)
    {
      buffer := new char[SIZE];
      posIni, inbuffer := 0, 0;
      this.wire := wire;
    }

    ghost predicate Valid()
      reads this
    {
      buffer.Length == SIZE && posIni + inbuffer <= SIZE && inbuffer < SIZE
    }

    /** The bytes still to be handed out, buffered or not. */
    ghost function Pending(): string
      requires posIni + inbuffer <= buffer.Length
      reads this, buffer
    {
      buffer[posIni..posIni + inbuffer] + wire
    }

    /** read(2) into the buffer behind `at` bytes: any non-zero number of bytes, or none at the end of the stream. */
    method OsRead(at: nat) returns (n: nat)
      requires buffer.Length == SIZE && at < SIZE
      modifies buffer, this`wire
      ensures n <= SIZE - at && n <= |old(wire)| && (n == 0 <==> old(wire) == "")
      ensures buffer[..at + n] == old(buffer[..at]) + old(wire)[..n]
      ensures wire == old(wire)[n..]
    {
      var size: int := *;
      n := if 0 < size <= SIZE - at && size <= |wire| then size else if wire == "" then 0 else 1;
      CopyIn(at, wire[..n]);
      wire := wire[n..];
    }

    /** The bytes read go into the buffer behind `at` bytes. */
    method CopyIn(at: nat, bytes: string)
      requires at + |bytes| <= buffer.Length
      modifies buffer
      ensures buffer[..at + |bytes|] == old(buffer[..at]) + bytes
    {
      forall i | 0 <= i < |bytes| {
        buffer[at + i] := bytes[i];
      }
    }

    /** Lines 618-640: shift what is buffered to the front and read more behind it. */
    method Refill() returns (retEof: bool)
      requires Valid()
      modifies this, buffer
      ensures posIni == 0 && inbuffer <= SIZE && old(inbuffer) <= inbuffer
      ensures Pending() == old(Pending())
      ensures retEof ==> wire == "" && inbuffer == old(inbuffer)
      ensures !retEof ==> old(inbuffer) < inbuffer
    {
      ghost var held := buffer[posIni..posIni + inbuffer];
      forall i | 0 <= i < inbuffer {
        buffer[i] := buffer[posIni + i];
      }
      posIni := 0;
      assert buffer[..inbuffer] == held;
      ghost var before := wire;
      var lidos := OsRead(inbuffer);
      Regroup(held, before, lidos);
      inbuffer := inbuffer + lidos;
      retEof := lidos == 0;
    }

    lemma NothingPending()
      requires posIni + inbuffer <= buffer.Length && inbuffer == 0 && wire == ""
      ensures Pending() == ""
    {
    }

    /** Lines 647-649. */
    method HandOut(r: nat) returns (s: string)
      requires posIni + inbuffer <= SIZE == buffer.Length && r <= inbuffer
      modifies this`posIni, this`inbuffer
      ensures |s| == r && posIni + inbuffer <= SIZE && inbuffer == old(inbuffer) - r
      ensures old(Pending()) == s + Pending()
    {
      s := buffer[posIni..posIni + r];
      posIni := posIni + r;
      inbuffer := inbuffer - r;
    }

    /** socket_read: the next `len` bytes, or all there are. */
    method SocketRead(len: nat) returns (got: string)
      requires Valid()
      modifies this, buffer
      ensures Valid()
      ensures |got| == Min(len, |old(Pending())|) && old(Pending()) == got + Pending()
    {
      hide Conn.Pending;
      var n: nat := len;
      got := "";
      ghost var all := Pending();
      while n > 0
        invariant Valid() && n + |got| == len
        invariant all == got + Pending()
      {
        var retEof := false;
        if inbuffer < n {
          retEof := Refill();
        }
        var r := if inbuffer >= n then n else inbuffer;
        if r == 0 {
          NothingPending();
          break;
        }
        var s := HandOut(r);
        assert all == got + (s + Pending());
        got := got + s;
        n := n - r;
        if retEof {
          NothingPending();
          break;
        }
      }
      assert n == 0 || Pending() == "";
    }

    /** socket_readline; `n` is its return value. */
    method SocketReadline(maxlen: nat) returns (n: nat, line: string)
      requires Valid() && maxlen >= 1
      modifies this, buffer
      ensures Valid()
      ensures line == TakeLine(old(Pending()), maxlen - 1) && old(Pending()) == line + Pending()
      ensures n < 1 <==> old(Pending()) == "" && maxlen > 1
    {
      hide TakeLine, Conn.Pending;
      line := "";
      n := 1;
      ghost var all := Pending();
      NothingYet(all, maxlen - 1);
      while n < maxlen
        invariant Valid() && 1 <= n <= maxlen && |line| == n - 1
        invariant all == line + Pending()
        invariant TakeLine(all, maxlen - 1) == line + TakeLine(Pending(), maxlen - n)
      {
        var c := ReadOne(line, maxlen - n);
        if |c| == 1 {
          line := line + c;
          if c[0] == '\n' {
            return;
          }
        } else {
          if n == 1 {
            return 0, line;
          }
          return;
        }
        n := n + 1;
      }
      NothingMore(line, Pending());
    }

    /** One character of a line of which there is room for `max`. */
    method ReadOne(ghost line: string, ghost max: nat) returns (c: string)
      requires Valid() && max > 0
      modifies this, buffer
      ensures Valid() && |c| <= 1
      ensures |c| == 1 ==>
                && line + old(Pending()) == line + c + Pending()
                && line + TakeLine(old(Pending()), max)
                   == if c[0] == '\n' then line + c else line + c + TakeLine(Pending(), max - 1)
      ensures |c| == 0 ==> old(Pending()) == Pending() == "" && line + TakeLine("", max) == line == line + ""
    {
      hide TakeLine, Conn.Pending;
      c := SocketRead(1);
      if |c| == 1 {
        OneCharacter(line + (c + Pending()), line, c, Pending());
        LineGrows(line, c, Pending(), max);
      } else {
        TakeLineUnfolds("", max);
      }
    }
  }

  lemma NothingYet(s: string, max: nat)
    ensures "" + s == s && "" + TakeLine(s, max) == TakeLine(s, max)
  {
    hide TakeLine;
  }

  lemma NothingMore(line: string, s: string)
    ensures line + TakeLine(s, 0) == line
  {
    assert line + "" == line;
  }

  lemma OneCharacter(all: string, line: string, c: string, rest: string)
    requires all == line + (c + rest)
    ensures all == (line + c) + rest
  {
  }

  lemma TakeLineUnfolds(s: string, max: nat)
    ensures TakeLine(s, max) ==
            if s == "" || max == 0 then "" else if s[0] == '\n' then "\n" else [s[0]] + TakeLine(s[1..], max - 1)
  {
  }

  lemma LineGrows(line: string, c: string, rest: string, max: nat)
    requires max > 0 && |c| == 1
    ensures line + TakeLine(c + rest, max) == if c[0] == '\n' then line + c else line + c + TakeLine(rest, max - 1)
  {
    hide TakeLine;
    TakeLineUnfolds(c + rest, max);
    assert (c + rest)[1..] == rest && [c[0]] == c;
    assert line + (c + TakeLine(rest, max - 1)) == line + c + TakeLine(rest, max - 1);
  }
}
