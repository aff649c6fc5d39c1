/**
 The URL escaper in the terms of section 2.2 of RFC 1738: which bytes are
 written as they are, which as triplets, and where in a URL.
 */
module UrlLaws {
  import opened Options
  import opened UrlEscape

  /** The hexadecimal digits in ASCII. */
  const HEX: seq<Byte> := [
    0x30, 0x31, 0x32, 0x33, 0x34, 0x35, 0x36, 0x37, 0x38, 0x39, 0x41, 0x42, 0x43, 0x44, 0x45, 0x46
  ]

  /** Letters and digits. */
  predicate Alphanumeric(c: Byte) {
    0x30 <= c <= 0x39 || 0x41 <= c <= 0x5A || 0x61 <= c <= 0x7A
  }

  /** ! $ ' ( ) * , - . _ */
  predicate Mark(c: Byte) {
    || c == 0x21 || c == 0x24 || c == 0x27 || c == 0x28 || c == 0x29 || c == 0x2A || c == 0x2C || c == 0x2D
    || c == 0x2E || c == 0x5F
  }

  /** # & + / : ; = ? @ [ ] */
  predicate Delimiter(c: Byte) {
    || c == 0x23 || c == 0x26 || c == 0x2B || c == 0x2F || c == 0x3A || c == 0x3B || c == 0x3D || c == 0x3F
    || c == 0x40 || c == 0x5B || c == 0x5D
  }

  /** Every byte is copied, delimits, or is control, space, " % < > \\ ^ ` or one from 0x7B on. */
  lemma Tables(c: Byte)
    ensures Reserved(c) <==> Delimiter(c)
    ensures !Unsafe(c) && !Reserved(c) <==> Alphanumeric(c) || Mark(c)
    ensures Unsafe(c) && !Reserved(c) <==>
            || c <= 0x20 || c == 0x22 || c == 0x25 || c == 0x3C || c == 0x3E || c == 0x5C || c == 0x5E || c == 0x60
            || c >= 0x7B
  {
  }

  function Upper(c: Byte): Byte { c >> 4 }
  function Lower(c: Byte): Byte { c & 0xf }

  lemma Halves(c: Byte)
    ensures Upper(c) < 16 && Lower(c) < 16 && Upper(c) as nat == c as nat / 16 && Lower(c) as nat == c as nat % 16
  {
  }

  lemma DigitOf(x: Byte)
    requires x < 16
    ensures Digit(x) == HEX[x as nat]
  {
  }

  /** The two digits of a byte. */
  lemma Written(c: Byte)
    ensures High(c) == HEX[c as nat / 16] && Low(c) == HEX[c as nat % 16]
  {
    hide Digit;
    Halves(c);
    DigitOf(Upper(c));
    DigitOf(Lower(c));
  }

  /** The value of a digit, in either case. */
  lemma ValueOf(h: Byte)
    requires HexDigit(h)
    ensures DigitValue(h) < 16 && HEX[DigitValue(h) as nat] == if h >= 0x61 then h - 0x20 else h
  {
  }

  lemma OctetIs(h1: Byte, h2: Byte)
    requires HexDigit(h1) && HexDigit(h2)
    ensures Octet(h1, h2) as nat == 16 * DigitValue(h1) as nat + DigitValue(h2) as nat
  {
  }

  /**
   One byte or one triplet of a path. A triplet that stands for a letter, a digit
   or a mark is written as that byte and any other one is kept; of the bytes
   outside triplets letters, digits, marks and delimiters are kept and all others
   are written as triplets.
   */
  lemma EscapesExactly(t: seq<Byte>)
    requires t != []
    ensures Escaped(t) ==
            if |t| >= 3 && t[0] == 0x25 && HexDigit(t[1]) && HexDigit(t[2]) then
              var c := Octet(t[1], t[2]);
              (if Alphanumeric(c) || Mark(c) then [c] else t[..3]) + Escaped(t[3..])
            else if Alphanumeric(t[0]) || Mark(t[0]) || Delimiter(t[0]) then [t[0]] + Escaped(t[1..])
            else [0x25, HEX[t[0] as nat / 16], HEX[t[0] as nat % 16]] + Escaped(t[1..])
  {
    hide IsXDigit, HexDigit, Unsafe, Reserved, Octet, High, Low, Triplet, Alphanumeric, Mark, Delimiter;
    Triplets(t);
    Tables(t[0]);
    Classes(t[0]);
    Written(t[0]);
    if Triplet(t) {
      Tables(Octet(t[1], t[2]));
      if Decide(t) == PassedThrough {
        TripletPasses(t);
      }
    }
  }

  /** A string in ASCII. */
  predicate Spells(b: seq<Byte>, s: string) {
    |b| == |s| && forall k :: 0 <= k < |s| ==> b[k] as nat == s[k] as nat
  }

  lemma MethodNames()
    ensures |METHODS| == 9
    ensures Spells(METHODS[0], " GET") && Spells(METHODS[1], " HEAD") && Spells(METHODS[2], " POST")
    ensures Spells(METHODS[3], " PUT") && Spells(METHODS[4], " TRACE") && Spells(METHODS[5], " DELETE")
    ensures Spells(METHODS[6], " OPTIONS") && Spells(METHODS[7], " CONNECT") && Spells(METHODS[8], " PATCH")
  {
  }

  lemma NotThere(s: seq<Byte>, needle: seq<Byte>, i: nat)
    requires needle != [] && i < |s| && s[i] != needle[0]
    ensures !OccursAt(s, needle, i)
  {
    if i + |needle| <= |s| {
      assert s[i..i + |needle|][0] == s[i];
    }
  }

  /** In scheme://host/path only the path is escaped, from the byte behind its first slash on. */
  lemma OnlyThePath(scheme: seq<Byte>, host: seq<Byte>, path: seq<Byte>)
    requires SLASH !in scheme && SLASH !in host
    ensures var url := scheme + [SLASH, SLASH] + host + [SLASH] + path;
            EscapedUrl(url) == if LeftAlone(url) then url else scheme + [SLASH, SLASH] + host + [SLASH] + Escaped(path)
  {
    hide Escaped, StrStr, LeftAlone;
    var url := scheme + [SLASH, SLASH] + host + [SLASH] + path;
    var n, m := |scheme|, |scheme| + 2 + |host|;
    assert OccursAt(url, DOUBLE_SLASH, n);
    forall j | 0 <= j < n
      ensures !OccursAt(url, DOUBLE_SLASH, j)
    {
      assert url[j] == scheme[j];
      NotThere(url, DOUBLE_SLASH, j);
    }
    assert OccursAt(url, [SLASH], m);
    forall j | n + 2 <= j < m
      ensures !OccursAt(url, [SLASH], j)
    {
      assert url[j] == host[j - n - 2];
      NotThere(url, [SLASH], j);
    }
    assert PathStart(url) == Some(m + 1);
    assert url[..m + 1] == scheme + [SLASH, SLASH] + host + [SLASH] && url[m + 1..] == path;
  }

  /** Without a slash there is no path, and nothing is escaped. */
  lemma NoPath(url: seq<Byte>)
    requires SLASH !in url
    ensures EscapedUrl(url) == url
  {
    hide StrStr, LeftAlone, Escaped;
    forall j: nat | j < |url|
      ensures !OccursAt(url, [SLASH], j) && !OccursAt(url, DOUBLE_SLASH, j)
    {
      assert url[j] in url;
      NotThere(url, [SLASH], j);
      NotThere(url, DOUBLE_SLASH, j);
    }
  }
}
