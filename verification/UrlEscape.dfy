/**
 The URL escaper of siege-4.1.7/src/url.c against percent-decoding.
 */
module UrlEscape {

  import opened Options

  type Byte = bv8

  const PERCENT: Byte := 0x25
  const SLASH: Byte := 0x2F
  const SPACE: Byte := 0x20

  // ----- characters -----

  /** The macro ISXDIGIT, in 32-bit unsigned arithmetic. */
  predicate IsXDigit(c: Byte) {
    var v: bv32 := ((c as bv32) - 48) & 255;
    var w := (v * 18 / 17 * 52 / 51 * 58 / 114 * 13 / 11 * 14 / 13 * 35 + 35) / 36 * 35 / 33 * 34 / 33 * 35 / 170;
    ((((w ^ 4) - 3) & 255) ^ 1) <= 2
  }

  predicate HexDigit(c: Byte) {
    0x30 <= c <= 0x39 || 0x41 <= c <= 0x46 || 0x61 <= c <= 0x66
  }

  lemma XDigitLow(c: Byte)
    requires c < 0x40
    ensures IsXDigit(c) <==> 0x30 <= c <= 0x39
  {
  }

  lemma XDigitLetters(c: Byte)
    requires 0x40 <= c < 0x80
    ensures IsXDigit(c) <==> 0x41 <= c <= 0x46 || 0x61 <= c <= 0x66
  {
  }

  lemma XDigitHigh(c: Byte)
    requires 0x80 <= c
    ensures !IsXDigit(c)
  {
  }

  /** The macro accepts the hexadecimal digits and nothing else. */
  lemma MacroIsHexDigit(c: Byte)
    ensures IsXDigit(c) <==> HexDigit(c)
  {
    hide IsXDigit;
    if c < 0x40 {
      XDigitLow(c);
    } else if c < 0x80 {
      XDigitLetters(c);
    } else {
      XDigitHigh(c);
    }
  }

  /** urlchr_unsafe of the table */
  predicate Unsafe(c: Byte) {
    || c <= 0x20 || c == 0x22 || c == 0x23 || c == 0x25 || c == 0x3A || c == 0x3C || c == 0x3E || c == 0x40
    || c == 0x5B || c == 0x5C || c == 0x5D || c == 0x5E || c == 0x60 || c >= 0x7B
  }

  /** urlchr_reserved of the table */
  predicate Reserved(c: Byte) {
    || c == 0x23 || c == 0x26 || c == 0x2B || c == 0x2F || c == 0x3A || c == 0x3B || c == 0x3D || c == 0x3F
    || c == 0x40 || c == 0x5B || c == 0x5D
  }

  /** XDIGIT_TO_NUM */
  function DigitValue(x: Byte): Byte {
    if x < 0x41 then x - 0x30 else (if 0x61 <= x <= 0x7A then x - 0x20 else x) - 0x41 + 10
  }

  /** X2DIGITS_TO_NUM */
  function Octet(h1: Byte, h2: Byte): Byte {
    (DigitValue(h1) << 4) + DigitValue(h2)
  }

  /** XNUM_TO_DIGIT, for numbers below 16 */
  function Digit(x: Byte): Byte {
    if x < 10 then 0x30 + x else 0x41 + (x - 10)
  }

  function High(c: Byte): Byte {
    Digit(c >> 4)
  }

  function Low(c: Byte): Byte {
    Digit(c & 0xf)
  }

  lemma OctetOfDigits(c: Byte)
    ensures HexDigit(High(c)) && HexDigit(Low(c)) && Octet(High(c), Low(c)) == c
  {
  }

  lemma Classes(c: Byte)
    ensures HexDigit(c) ==> !Unsafe(c) && c != PERCENT && c != SLASH && c != SPACE && c != 0
    ensures Unsafe(PERCENT) && !Reserved(PERCENT) && !Unsafe(SLASH) && Reserved(SLASH)
    ensures Unsafe(SPACE) && !Reserved(SPACE) && Unsafe(0) && !Reserved(0)
    ensures PERCENT != SLASH
  {
  }

  // ----- the escaper as a function on the path -----

  datatype Method = Decoded | Encoded | PassedThrough

  /** What a read of the string's memory finds: its bytes, then the terminator, and nothing further. */
  function At(t: seq<Byte>, i: nat): Byte
    requires i <= |t|
  {
    if i < |t| then t[i] else 0
  }

  /** A percent sign and two hexadecimal digits; the second is read only behind a first. */
  predicate Triplet(t: seq<Byte>)
    requires t != []
    ensures Triplet(t) ==> |t| >= 3
  {
    t[0] == PERCENT && (MacroIsHexDigit(At(t, 1)); Classes(At(t, 1)); IsXDigit(At(t, 1)))
    && (MacroIsHexDigit(At(t, 2)); Classes(At(t, 2)); IsXDigit(At(t, 2)))
  }

  /** decide_copy_method */
  function Decide(t: seq<Byte>): (m: Method)
    requires t != []
    ensures m == Decoded ==> Triplet(t)
  {
    if t[0] == PERCENT then
      if Triplet(t) then
        var preempt := Octet(t[1], t[2]);
        if Unsafe(preempt) || Reserved(preempt) then PassedThrough else Decoded
      else Encoded
    else if Unsafe(t[0]) && !Reserved(t[0]) then Encoded
    else PassedThrough
  }

  /** What the writing pass makes of the rest `t` of the path. */
  function Escaped(t: seq<Byte>): seq<Byte> {
    if t == [] then []
    else
      match Decide(t)
      case Encoded => [PERCENT, High(t[0]), Low(t[0])] + Escaped(t[1..])
      case Decoded => [Octet(t[1], t[2])] + Escaped(t[3..])
      case PassedThrough => [t[0]] + Escaped(t[1..])
  }

  /** The meaning of a path: every triplet stands for its octet. */
  function PercentDecoded(t: seq<Byte>): seq<Byte> {
    if t == [] then []
    else if Triplet(t) then [Octet(t[1], t[2])] + PercentDecoded(t[3..])
    else [t[0]] + PercentDecoded(t[1..])
  }

  /** Triplet in terms of hexadecimal digits. */
  lemma Triplets(t: seq<Byte>)
    requires t != []
    ensures Triplet(t) <==> |t| >= 3 && t[0] == PERCENT && HexDigit(t[1]) && HexDigit(t[2])
  {
    hide IsXDigit, HexDigit;
    if |t| >= 2 {
      MacroIsHexDigit(t[1]);
    }
    if |t| >= 3 {
      MacroIsHexDigit(t[2]);
    }
    MacroIsHexDigit(0);
    NoDigit();
  }

  lemma NoDigit()
    ensures !HexDigit(0)
  {
  }

  /** A hexadecimal digit is copied. */
  lemma DigitsPass(t: seq<Byte>)
    requires t != [] && HexDigit(t[0])
    ensures Decide(t) == PassedThrough && !Triplet(t)
  {
    hide IsXDigit, HexDigit, Unsafe, Reserved, Triplet, Octet;
    Triplets(t);
    Classes(t[0]);
  }

  /** A triplet that is not decoded is copied as it stands. */
  lemma TripletPasses(t: seq<Byte>)
    requires t != [] && Triplet(t) && Decide(t) == PassedThrough
    ensures Escaped(t) == t[..3] + Escaped(t[3..])
  {
    hide IsXDigit, HexDigit, Decide, Triplet;
    Triplets(t);
    DigitsPass(t[1..]);
    DigitsPass(t[2..]);
    assert t[1..][1..] == t[2..] && t[2..][1..] == t[3..];
    assert Escaped(t[2..]) == [t[2]] + Escaped(t[3..]);
    assert Escaped(t[1..]) == [t[1]] + Escaped(t[2..]);
    assert [t[0]] + ([t[1]] + ([t[2]] + Escaped(t[3..]))) == t[..3] + Escaped(t[3..]);
  }

  /** How each kind of step looks to the decoder and to a second escaping. */
  lemma Tokens(t: seq<Byte>, rest: seq<Byte>)
    requires t != []
    ensures Decide(t) == Encoded ==>
              var token := [PERCENT, High(t[0]), Low(t[0])];
              && !Triplet(t) && Triplet(token + rest) && Octet(token[1], token[2]) == t[0]
              && Decide(token + rest) == PassedThrough
    ensures Decide(t) == Decoded ==>
              var token := [Octet(t[1], t[2])];
              Triplet(t) && !Triplet(token + rest) && Decide(token + rest) == PassedThrough
    ensures Decide(t) == PassedThrough && Triplet(t) ==>
              var token := t[..3];
              && Triplet(token + rest) && Octet(token[1], token[2]) == Octet(t[1], t[2])
              && Decide(token + rest) == PassedThrough
    ensures Decide(t) == PassedThrough && !Triplet(t) ==>
              var token := [t[0]];
              !Triplet(token + rest) && Decide(token + rest) == PassedThrough && t[0] != PERCENT
  {
    hide IsXDigit, HexDigit, Unsafe, Reserved, Octet, DigitValue, High, Low, Triplet;
    OctetOfDigits(t[0]);
    Classes(t[0]);
    Triplets(t);
    Triplets([PERCENT, High(t[0]), Low(t[0])] + rest);
    Triplets([t[0]] + rest);
    if Triplet(t) {
      Triplets(t[..3] + rest);
      Triplets([Octet(t[1], t[2])] + rest);
    }
  }

  /** The escaped path means what the path means. */
  lemma {:induction false} EscapeKeepsMeaning(t: seq<Byte>)
    ensures PercentDecoded(Escaped(t)) == PercentDecoded(t)
  {
    hide IsXDigit, HexDigit, Octet, High, Low, Decide, Triplet;
    if t != [] {
      if Triplet(t) && Decide(t) == PassedThrough {
        TripletPasses(t);
        EscapeKeepsMeaning(t[3..]);
        Tokens(t, Escaped(t[3..]));
        DecodeTriplet(t[..3], Escaped(t[3..]));
      } else if Decide(t) == Decoded {
        EscapeKeepsMeaning(t[3..]);
        Tokens(t, Escaped(t[3..]));
        DecodePlain(Octet(t[1], t[2]), Escaped(t[3..]));
      } else {
        EscapeKeepsMeaning(t[1..]);
        Tokens(t, Escaped(t[1..]));
        if Decide(t) == Encoded {
          DecodeTriplet([PERCENT, High(t[0]), Low(t[0])], Escaped(t[1..]));
        } else {
          DecodePlain(t[0], Escaped(t[1..]));
        }
      }
    }
  }

  lemma DecodeTriplet(token: seq<Byte>, rest: seq<Byte>)
    requires |token| == 3 && Triplet(token + rest)
    ensures PercentDecoded(token + rest) == [Octet(token[1], token[2])] + PercentDecoded(rest)
  {
    hide Octet, Triplet;
    assert (token + rest)[3..] == rest;
  }

  lemma DecodePlain(c: Byte, rest: seq<Byte>)
    requires !Triplet([c] + rest)
    ensures PercentDecoded([c] + rest) == [c] + PercentDecoded(rest)
  {
    hide Octet, Triplet;
    assert ([c] + rest)[1..] == rest;
  }

  lemma EscapeTriplet(token: seq<Byte>, rest: seq<Byte>)
    requires |token| == 3 && Triplet(token + rest) && Decide(token + rest) == PassedThrough
    ensures Escaped(token + rest) == token + Escaped(rest)
  {
    hide Decide, Triplet;
    TripletPasses(token + rest);
    assert (token + rest)[3..] == rest && (token + rest)[..3] == token;
  }

  lemma EscapePlain(c: Byte, rest: seq<Byte>)
    requires Decide([c] + rest) == PassedThrough
    ensures Escaped([c] + rest) == [c] + Escaped(rest)
  {
    hide Decide;
    assert ([c] + rest)[1..] == rest;
  }

  /** Escaping an escaped path changes nothing. */
  lemma {:induction false} EscapeTwice(t: seq<Byte>)
    ensures Escaped(Escaped(t)) == Escaped(t)
  {
    hide IsXDigit, HexDigit, Octet, High, Low, Decide, Triplet;
    if t != [] {
      if Triplet(t) && Decide(t) == PassedThrough {
        TripletPasses(t);
        EscapeTwice(t[3..]);
        Tokens(t, Escaped(t[3..]));
        EscapeTriplet(t[..3], Escaped(t[3..]));
      } else if Decide(t) == Decoded {
        EscapeTwice(t[3..]);
        Tokens(t, Escaped(t[3..]));
        EscapePlain(Octet(t[1], t[2]), Escaped(t[3..]));
      } else {
        EscapeTwice(t[1..]);
        Tokens(t, Escaped(t[1..]));
        if Decide(t) == Encoded {
          EscapeTriplet([PERCENT, High(t[0]), Low(t[0])], Escaped(t[1..]));
        } else {
          EscapePlain(t[0], Escaped(t[1..]));
        }
      }
    }
  }

  /** Every percent sign starts a triplet and every other byte is safe or reserved. */
  ghost predicate WellEscaped(r: seq<Byte>) {
    forall i :: 0 <= i < |r| ==> Sound(r, i)
  }

  ghost predicate Sound(r: seq<Byte>, i: nat)
    requires i < |r|
  {
    if r[i] == PERCENT then i + 2 < |r| && HexDigit(r[i + 1]) && HexDigit(r[i + 2])
    else !Unsafe(r[i]) || Reserved(r[i])
  }

  lemma WellEscapedTriplet(token: seq<Byte>, rest: seq<Byte>)
    requires |token| == 3 && Triplet(token + rest) && WellEscaped(rest)
    ensures WellEscaped(token + rest)
  {
    hide HexDigit, Unsafe, Reserved, Triplet;
    var r := token + rest;
    Triplets(r);
    Classes(r[1]);
    Classes(r[2]);
    assert Sound(r, 1) && Sound(r, 2) && Sound(r, 0);
    forall i | 3 <= i < |r|
      ensures Sound(r, i)
    {
      assert Sound(rest, i - 3);
    }
  }

  lemma WellEscapedPlain(c: Byte, rest: seq<Byte>)
    requires Decide([c] + rest) == PassedThrough && c != PERCENT && WellEscaped(rest)
    ensures WellEscaped([c] + rest)
  {
    hide HexDigit, Unsafe, Reserved, Triplet, Octet;
    var r := [c] + rest;
    assert Sound(r, 0);
    forall i | 1 <= i < |r|
      ensures Sound(r, i)
    {
      assert Sound(rest, i - 1);
    }
  }

  lemma {:induction false} EscapedIsWellEscaped(t: seq<Byte>)
    ensures WellEscaped(Escaped(t))
  {
    hide IsXDigit, HexDigit, High, Low, Triplet, Sound, Octet, Unsafe, Reserved;
    if t != [] {
      if Triplet(t) && Decide(t) == PassedThrough {
        TripletPasses(t);
        EscapedIsWellEscaped(t[3..]);
        Tokens(t, Escaped(t[3..]));
        WellEscapedTriplet(t[..3], Escaped(t[3..]));
      } else if Decide(t) == Decoded {
        EscapedIsWellEscaped(t[3..]);
        Tokens(t, Escaped(t[3..]));
        Classes(PERCENT);
        WellEscapedPlain(Octet(t[1], t[2]), Escaped(t[3..]));
      } else {
        EscapedIsWellEscaped(t[1..]);
        Tokens(t, Escaped(t[1..]));
        if Decide(t) == Encoded {
          WellEscapedTriplet([PERCENT, High(t[0]), Low(t[0])], Escaped(t[1..]));
        } else {
          WellEscapedPlain(t[0], Escaped(t[1..]));
        }
      }
    }
  }

  // ----- counting -----

  /** The counting pass goes byte by byte, also through triplets. */
  function Count(t: seq<Byte>, m: Method): nat {
    if t == [] then 0
    else (if Decide(t) == m then 1 else 0) + Count(t[1..], m)
  }

  /** Behind the percent sign, the counting pass finds nothing to do in a triplet. */
  lemma CountTriplet(t: seq<Byte>, m: Method)
    requires t != [] && Triplet(t) && m != PassedThrough
    ensures Count(t[1..], m) == Count(t[3..], m)
  {
    hide IsXDigit, HexDigit, Decide, Triplet;
    Triplets(t);
    DigitsPass(t[1..]);
    DigitsPass(t[2..]);
    assert t[1..][1..] == t[2..] && t[2..][1..] == t[3..];
  }

  /** The counting pass predicts how much the writing pass writes. */
  lemma {:induction false} CountsPredictLength(t: seq<Byte>)
    ensures |Escaped(t)| == |t| + 2 * (Count(t, Encoded) - Count(t, Decoded))
  {
    hide IsXDigit, HexDigit, Octet, High, Low, Decide, Triplet;
    if t != [] {
      if Decide(t) == Decoded {
        CountTriplet(t, Encoded);
        CountTriplet(t, Decoded);
        CountsPredictLength(t[3..]);
      } else {
        CountsPredictLength(t[1..]);
      }
    }
  }

  /** The early return misses nothing and copies nothing needlessly. */
  lemma {:induction false} NothingToDo(t: seq<Byte>)
    ensures Escaped(t) == t <==> Count(t, Encoded) == 0 && Count(t, Decoded) == 0
  {
    hide IsXDigit, HexDigit, Octet, High, Low, Triplet, Unsafe, Reserved;
    if t != [] {
      NothingToDo(t[1..]);
      match Decide(t)
      case Encoded =>
        if t[0] == PERCENT && Escaped(t) == t {
          assert t[1] == High(PERCENT) && t[2] == Low(PERCENT);
          OctetOfDigits(PERCENT);
          Triplets(t);
        }
      case Decoded =>
        Classes(PERCENT);
        assert Escaped(t)[0] == Octet(t[1], t[2]);
      case PassedThrough =>
        assert t == [t[0]] + t[1..];
        assert Escaped(t)[1..] == Escaped(t[1..]);
    }
  }

  /** The step taken first, and what it leaves to escape. */
  function Token(t: seq<Byte>): (token: seq<Byte>)
    requires t != []
    ensures token != []
  {
    match Decide(t)
    case Encoded => [PERCENT, High(t[0]), Low(t[0])]
    case Decoded => [Octet(t[1], t[2])]
    case PassedThrough => [t[0]]
  }

  function Rest(t: seq<Byte>): (rest: seq<Byte>)
    requires t != []
    ensures |rest| < |t|
  {
    if Decide(t) == Decoded then t[3..] else t[1..]
  }

  lemma EscapedSteps(t: seq<Byte>)
    requires t != []
    ensures Escaped(t) == Token(t) + Escaped(Rest(t))
  {
  }

  lemma EscapedNothing()
    ensures Escaped([]) == []
  {
  }

  lemma StepWritten(t: seq<Byte>, was: seq<Byte>)
    requires t != []
    ensures (was + Token(t)) + Escaped(Rest(t)) == was + Escaped(t)
    ensures |Escaped(t)| == |Token(t)| + |Escaped(Rest(t))|
  {
    hide Token, Rest, Escaped;
    EscapedSteps(t);
  }

  // ----- the whole URL -----

  predicate OccursAt(s: seq<Byte>, needle: seq<Byte>, i: nat) {
    i + |needle| <= |s| && s[i..i + |needle|] == needle
  }

  /** strstr(s + from, needle), as an index into s */
  function StrStr(s: seq<Byte>, needle: seq<Byte>, from: nat): (r: Option<nat>)
    requires from <= |s|
    ensures r.Some? ==>
              && from <= r.value && OccursAt(s, needle, r.value)
              && forall j :: from <= j < r.value ==> !OccursAt(s, needle, j)
    ensures r.None? ==> forall j :: from <= j ==> !OccursAt(s, needle, j)
    decreases |s| - from
  {
    if OccursAt(s, needle, from) then Some(from)
    else if from < |s| then StrStr(s, needle, from + 1)
    else None
  }

  const DOUBLE_SLASH: seq<Byte> := [SLASH, SLASH]

  /**
   The names __url_has_method looks for: GET, HEAD, POST, PUT, TRACE, DELETE,
   OPTIONS, CONNECT and PATCH, behind a space.
   */
  const METHODS: seq<seq<Byte>> := [
    [0x20, 0x47, 0x45, 0x54],
    [0x20, 0x48, 0x45, 0x41, 0x44],
    [0x20, 0x50, 0x4F, 0x53, 0x54],
    [0x20, 0x50, 0x55, 0x54],
    [0x20, 0x54, 0x52, 0x41, 0x43, 0x45],
    [0x20, 0x44, 0x45, 0x4C, 0x45, 0x54, 0x45],
    [0x20, 0x4F, 0x50, 0x54, 0x49, 0x4F, 0x4E, 0x53],
    [0x20, 0x43, 0x4F, 0x4E, 0x4E, 0x45, 0x43, 0x54],
    [0x20, 0x50, 0x41, 0x54, 0x43, 0x48]
  ]

  const NOMETHOD := 0

  predicate Names(s: seq<Byte>, i: nat)
    requires i < |METHODS|
  {
    StrStr(s, METHODS[i], 0).Some?
  }

  /** Where the path begins: behind the first slash that follows the first double slash, if there is one. */
  function PathStart(s: seq<Byte>): (r: Option<nat>)
    ensures r.Some? ==> 0 < r.value <= |s|
  {
    var host := StrStr(s, DOUBLE_SLASH, 0);
    var slash := StrStr(s, [SLASH], if host.Some? then host.value + 2 else 0);
    if slash.Some? then Some(slash.value + 1) else None
  }

  /** The only URLs left alone for their method name one other than GET and do not name GET. */
  ghost predicate LeftAlone(s: seq<Byte>) {
    !Names(s, 0) && exists i :: 0 < i < |METHODS| && Names(s, i)
  }

  ghost function EscapedUrl(s: seq<Byte>): seq<Byte> {
    if LeftAlone(s) || PathStart(s).None? then s
    else s[..PathStart(s).value] + Escaped(s[PathStart(s).value..])
  }

  /** __url_has_method: an index, and the index of GET is NOMETHOD too. */
  method UrlHasMethod(url: seq<Byte>) returns (m: nat)
    ensures m != NOMETHOD <==> LeftAlone(url)
    ensures m < |METHODS| && (Names(url, m) || m == NOMETHOD) && forall j :: 0 <= j < m ==> !Names(url, j)
  {
    hide StrStr;
    for i := 0 to |METHODS|
      invariant forall j :: 0 <= j < i ==> !Names(url, j)
    {
      if StrStr(url, METHODS[i], 0).Some? {
        assert Names(url, i);
        return i;
      }
    }
    return NOMETHOD;
  }

  /** "/ GET POST" names POST and is escaped all the same, because it names GET too. */
  lemma GetHidesPost()
    ensures var url: seq<Byte> := [SLASH] + METHODS[0] + METHODS[2];
            Names(url, 2) && !LeftAlone(url) && EscapedUrl(url) == [SLASH] + Escaped(METHODS[0] + METHODS[2]) != url
  {
    hide Escaped, StrStr, LeftAlone;
    var get, post := METHODS[0], METHODS[2];
    var url: seq<Byte> := [SLASH] + get + post;
    Occurrence(url, get, 1);
    Occurrence(url, post, 5);
    NamesGet(url);
    assert OccursAt(url, [SLASH], 0);
    NoDoubleSlash(url);
    assert PathStart(url) == Some(1);
    assert url[..1] == [SLASH] && url[1..] == get + post;
    SpaceIsEscaped(get + post);
  }

  lemma Occurrence(s: seq<Byte>, needle: seq<Byte>, i: nat)
    requires i + |needle| <= |s| && s[i..i + |needle|] == needle
    ensures StrStr(s, needle, 0).Some?
  {
    hide StrStr;
    assert OccursAt(s, needle, i);
  }

  lemma NamesGet(s: seq<Byte>)
    requires Names(s, 0)
    ensures !LeftAlone(s)
  {
  }

  lemma NoDoubleSlash(s: seq<Byte>)
    requires forall i :: 0 < i < |s| ==> s[i] != SLASH
    ensures StrStr(s, DOUBLE_SLASH, 0).None?
  {
    hide StrStr;
    forall i: nat
      ensures !OccursAt(s, DOUBLE_SLASH, i)
    {
      assert i + 2 <= |s| ==> s[i..i + 2][1] == s[i + 1];
    }
  }

  lemma SpaceIsEscaped(t: seq<Byte>)
    requires t != [] && t[0] == SPACE
    ensures Escaped(t) != t
  {
    hide Triplet, Octet, High, Low, IsXDigit;
    Classes(PERCENT);
    assert Decide(t) == Encoded;
    assert Escaped(t)[0] == PERCENT;
  }

  /** A string of the caller: without a terminator inside. */
  predicate CString(s: seq<Byte>) {
    forall i :: 0 <= i < |s| ==> s[i] != 0
  }

  /** Lines 1281-1292: the first pass over the path. */
  method CountingPass(s: seq<Byte>, pathStart: nat) returns (encodeCount: int, decodeCount: int, p1: nat)
    requires CString(s) && pathStart <= |s|
    ensures encodeCount == Count(s[pathStart..], Encoded) && decodeCount == Count(s[pathStart..], Decoded) && p1 == |s|
  {
    hide Decide, Escaped;
    p1, encodeCount, decodeCount := pathStart, 0, 0;
    while At(s, p1) != 0
      invariant pathStart <= p1 <= |s|
      invariant encodeCount + Count(s[p1..], Encoded) == Count(s[pathStart..], Encoded)
      invariant decodeCount + Count(s[p1..], Decoded) == Count(s[pathStart..], Decoded)
      decreases |s| - p1
    {
      assert s[p1..][1..] == s[p1 + 1..];
      match Decide(s[p1..]) {
        case Encoded => encodeCount := encodeCount + 1;
        case Decoded => decodeCount := decodeCount + 1;
        case PassedThrough =>
      }
      p1 := p1 + 1;
    }
  }

  /** Lines 1309-1326: the second pass, into the room that the first one asked for. */
  method WritingPass(s: seq<Byte>, pathStart: nat, newstr: array<Byte>)
    requires CString(s) && pathStart <= |s| && newstr.Length == pathStart + |Escaped(s[pathStart..])| + 1
    requires newstr[..pathStart] == s[..pathStart]
    modifies newstr
    ensures newstr[..] == s[..pathStart] + Escaped(s[pathStart..]) + [0]
  {
    hide IsXDigit, HexDigit, Unsafe, Reserved, Octet, High, Low, Triplet, Decide, Escaped;
    var p1, p2 := pathStart, pathStart;
    ghost var whole := s[..pathStart] + Escaped(s[pathStart..]);
    while At(s, p1) != 0
      invariant pathStart <= p1 <= |s| && pathStart <= p2 && p2 + |Escaped(s[p1..])| + 1 == newstr.Length
      invariant newstr[..p2] + Escaped(s[p1..]) == whole
      decreases |s| - p1
    {
      ghost var t := s[p1..];
      ghost var was := newstr[..p2];
      StepWritten(t, was);
      match Decide(s[p1..]) {
        case Encoded =>
          var c := s[p1];
          p1 := p1 + 1;
          newstr[p2], newstr[p2 + 1], newstr[p2 + 2] := PERCENT, High(c), Low(c);
          p2 := p2 + 3;
        case Decoded =>
          newstr[p2] := Octet(s[p1 + 1], s[p1 + 2]);
          p1, p2 := p1 + 3, p2 + 1;
        case PassedThrough =>
          newstr[p2] := s[p1];
          p1, p2 := p1 + 1, p2 + 1;
      }
      assert newstr[..p2] == was + Token(t);
      assert s[p1..] == Rest(t);
    }
    assert s[p1..] == [];
    EscapedNothing();
    newstr[p2] := 0;
    assert newstr[..p2] == whole;
  }

  /** __url_escape */
  method UrlEscape(s: seq<Byte>) returns (r: seq<Byte>)
    requires CString(s)
    ensures r == EscapedUrl(s)
  {
    hide IsXDigit, StrStr, Decide, Escaped, LeftAlone;
    var m := UrlHasMethod(s);
    if m != NOMETHOD {
      return s;
    }
    var host := StrStr(s, DOUBLE_SLASH, 0);
    var hostStart := if host.Some? then host.value + 2 else 0;
    var slash := StrStr(s, [SLASH], hostStart);
    if slash.None? {
      return s;
    }
    var pathStart := slash.value + 1;
    var encodeCount, decodeCount, p1 := CountingPass(s, pathStart);
    NothingToDo(s[pathStart..]);
    if encodeCount == 0 && decodeCount == 0 {
      assert s == s[..pathStart] + s[pathStart..];
      return s;
    }
    r := WriteNew(s, pathStart, p1 + 2 * (encodeCount - decodeCount));
  }

  /** Lines 1297-1326, with the length predicted from the counts. */
  method WriteNew(s: seq<Byte>, hostLen: nat, newlen: int) returns (r: seq<Byte>)
    requires CString(s) && hostLen <= |s|
    requires newlen == |s| + 2 * (Count(s[hostLen..], Encoded) - Count(s[hostLen..], Decoded))
    ensures r == s[..hostLen] + Escaped(s[hostLen..])
  {
    hide Escaped, Count;
    CountsPredictLength(s[hostLen..]);
    var newstr := new Byte[newlen + 1](_ => 0);
    forall i | 0 <= i < hostLen {
      newstr[i] := s[i];
    }
    assert newstr[..hostLen] == s[..hostLen];
    WritingPass(s, hostLen, newstr);
    r := newstr[..newlen];
  }

  // ----- properties of the whole URL -----

  /** A slash is written for a slash only. */
  lemma TokenSlash(t: seq<Byte>, i: nat)
    requires t != [] && i < |Token(t)| && Token(t)[i] == SLASH
    ensures t[0] == SLASH && Rest(t) == t[1..] && |Token(t)| == 1
  {
    hide IsXDigit, HexDigit, Octet, High, Low, Triplet, Unsafe, Reserved;
    Classes(High(t[0]));
    Classes(Low(t[0]));
    OctetOfDigits(t[0]);
  }

  /** Two slashes in a row are written for two slashes in a row only. */
  lemma {:induction false} DoubleSlash(t: seq<Byte>, j: nat) returns (k: nat)
    requires OccursAt(Escaped(t), DOUBLE_SLASH, j)
    ensures OccursAt(t, DOUBLE_SLASH, k)
    decreases |t|
  {
    hide Token, Rest, Escaped;
    EscapedNothing();
    EscapedSteps(t);
    var n, e := |Token(t)|, Escaped(t);
    assert e[j] == SLASH && e[j + 1] == SLASH by {
      assert e[j..j + 2][0] == SLASH && e[j..j + 2][1] == SLASH;
    }
    if j >= n {
      assert Escaped(Rest(t))[j - n..j - n + 2] == e[j..j + 2];
      var k' := DoubleSlash(Rest(t), j - n);
      k := k' + |t| - |Rest(t)|;
      RestIsSuffix(t);
      assert t[k..k + 2] == Rest(t)[k'..k' + 2];
    } else {
      TokenSlash(t, j);
      k := 0;
      SlashFirst(t[1..]);
      assert t[0..2] == DOUBLE_SLASH;
    }
  }

  lemma RestIsSuffix(t: seq<Byte>)
    requires t != []
    ensures Rest(t) == t[|t| - |Rest(t)|..]
  {
  }

  lemma SlashFirst(t: seq<Byte>)
    requires Escaped(t) != [] && Escaped(t)[0] == SLASH
    ensures t != [] && t[0] == SLASH
  {
    hide Token, Rest, Escaped;
    EscapedNothing();
    EscapedSteps(t);
    TokenSlash(t, 0);
  }

  /** A string that agrees up to the end of an occurrence has it there, too, and no other one before. */
  lemma SameFirst(s: seq<Byte>, r: seq<Byte>, needle: seq<Byte>, from: nat, h: nat)
    requires from <= |s| && from <= |r| && h <= |s| && h <= |r| && s[..h] == r[..h]
    requires StrStr(s, needle, from).Some? && StrStr(s, needle, from).value + |needle| <= h
    ensures StrStr(r, needle, from) == StrStr(s, needle, from)
  {
    hide StrStr, OccursAt;
    var i := StrStr(s, needle, from).value;
    SameOccurrence(s, r, needle, i, h);
    var r' := StrStr(r, needle, from);
    if r'.Some? && r'.value < i {
      SameOccurrence(r, s, needle, r'.value, h);
    }
  }

  lemma SameOccurrence(s: seq<Byte>, r: seq<Byte>, needle: seq<Byte>, i: nat, h: nat)
    requires h <= |s| && h <= |r| && s[..h] == r[..h] && OccursAt(s, needle, i) && i + |needle| <= h
    ensures OccursAt(r, needle, i)
  {
    assert s[i..i + |needle|] == s[..h][i..i + |needle|] == r[..h][i..i + |needle|] == r[i..i + |needle|];
  }

  lemma SamePathStart(s: seq<Byte>)
    requires PathStart(s).Some?
    ensures PathStart(s[..PathStart(s).value] + Escaped(s[PathStart(s).value..])) == PathStart(s)
  {
    hide StrStr, Escaped, OccursAt;
    var h := PathStart(s).value;
    var path := s[h..];
    var r := s[..h] + Escaped(path);
    var host := StrStr(s, DOUBLE_SLASH, 0);
    assert r[..h] == s[..h];
    if host.Some? {
      HostFits(s);
      SameFirst(s, r, DOUBLE_SLASH, 0, h);
      SameFirst(s, r, [SLASH], host.value + 2, h);
    } else {
      if StrStr(r, DOUBLE_SLASH, 0).Some? {
        SlashBefore(s);
        var k := NoNewHost(s, h, StrStr(r, DOUBLE_SLASH, 0).value);
      }
      SameFirst(s, r, [SLASH], 0, h);
    }
  }

  lemma SlashBefore(s: seq<Byte>)
    requires PathStart(s).Some?
    ensures s[PathStart(s).value - 1] == SLASH
  {
    hide StrStr;
  }

  lemma HostFits(s: seq<Byte>)
    requires PathStart(s).Some? && StrStr(s, DOUBLE_SLASH, 0).Some?
    ensures StrStr(s, DOUBLE_SLASH, 0).value + 2 < PathStart(s).value
  {
    hide StrStr;
  }

  lemma NoNewHost(s: seq<Byte>, h: nat, j: nat) returns (k: nat)
    requires 0 < h <= |s| && s[h - 1] == SLASH && OccursAt(s[..h] + Escaped(s[h..]), DOUBLE_SLASH, j)
    ensures OccursAt(s, DOUBLE_SLASH, k)
  {
    hide Escaped;
    var e := Escaped(s[h..]);
    var r := s[..h] + e;
    assert r[j] == SLASH && r[j + 1] == SLASH by {
      assert r[j..j + 2][0] == SLASH && r[j..j + 2][1] == SLASH;
    }
    if j + 2 <= h {
      k := j;
      assert s[j..j + 2] == r[j..j + 2];
    } else if j + 1 == h {
      k := j;
      assert e[0] == r[h];
      SlashFirst(s[h..]);
      assert s[j..j + 2] == DOUBLE_SLASH;
    } else {
      assert e[j - h..j - h + 2] == r[j..j + 2];
      var k' := DoubleSlash(s[h..], j - h);
      k := h + k';
      assert s[k..k + 2] == s[h..][k'..k' + 2];
    }
  }

  /** Escaping an escaped URL changes nothing, whether or not the second call finds a method in it. */
  lemma EscapeUrlTwice(s: seq<Byte>)
    ensures EscapedUrl(EscapedUrl(s)) == EscapedUrl(s)
  {
    hide LeftAlone, PathStart, Escaped;
    if !LeftAlone(s) && PathStart(s).Some? {
      var h := PathStart(s).value;
      var r := EscapedUrl(s);
      SamePathStart(s);
      EscapeTwice(s[h..]);
      assert r[..h] == s[..h] && r[h..] == Escaped(s[h..]);
    }
  }

  lemma DecodedUnfolds(t: seq<Byte>)
    ensures t == [] ==> PercentDecoded(t) == []
    ensures t != [] && Triplet(t) ==> PercentDecoded(t) == [Octet(t[1], t[2])] + PercentDecoded(t[3..])
    ensures t != [] && !Triplet(t) ==> PercentDecoded(t) == [t[0]] + PercentDecoded(t[1..])
  {
    hide Triplet, Octet;
  }

  /** A triplet that begins in front of a slash ends in front of it. */
  lemma TripletBeforeSlash(pre: seq<Byte>, rest: seq<Byte>)
    requires pre != [] && pre[|pre| - 1] == SLASH
    ensures Triplet(pre + rest) == Triplet(pre) && (Triplet(pre) ==> |pre| > 3)
  {
    hide IsXDigit, HexDigit, Triplet;
    var t := pre + rest;
    Triplets(t);
    Triplets(pre);
    Classes(SLASH);
    assert t[|pre| - 1] == SLASH;
    if Triplet(t) {
      Classes(t[1]);
      Classes(t[2]);
    }
  }

  lemma {:induction false} DecodedApart(pre: seq<Byte>, rest: seq<Byte>)
    requires pre != [] ==> pre[|pre| - 1] == SLASH
    ensures PercentDecoded(pre + rest) == PercentDecoded(pre) + PercentDecoded(rest)
    decreases |pre|
  {
    hide Triplet, Octet, PercentDecoded;
    DecodedUnfolds(pre);
    DecodedUnfolds(pre + rest);
    if pre == [] {
      assert pre + rest == rest;
    } else {
      TripletBeforeSlash(pre, rest);
      var n := if Triplet(pre) then 3 else 1;
      DropBoth(pre, rest, n);
      DecodedApart(pre[n..], rest);
      PutInFront(PercentDecoded(pre[n..]), PercentDecoded(rest));
    }
  }

  lemma DropBoth(pre: seq<Byte>, rest: seq<Byte>, n: nat)
    requires n <= |pre|
    ensures (pre + rest)[n..] == pre[n..] + rest
    ensures forall i :: 0 <= i < |pre| ==> (pre + rest)[i] == pre[i]
    ensures n < |pre| ==> pre[n..][|pre| - n - 1] == pre[|pre| - 1]
  {
  }

  lemma PutInFront(a: seq<Byte>, b: seq<Byte>)
    ensures forall o: Byte :: [o] + (a + b) == [o] + a + b
  {
    forall o: Byte ensures [o] + (a + b) == [o] + a + b {}
  }

  /** The escaped URL means what the URL means. */
  lemma EscapeUrlKeepsMeaning(s: seq<Byte>)
    ensures PercentDecoded(EscapedUrl(s)) == PercentDecoded(s)
  {
    hide LeftAlone, Escaped, PercentDecoded, StrStr;
    if !LeftAlone(s) && PathStart(s).Some? {
      var h := PathStart(s).value;
      SlashBefore(s);
      EscapeKeepsMeaning(s[h..]);
      DecodedApart(s[..h], s[h..]);
      DecodedApart(s[..h], Escaped(s[h..]));
      assert s == s[..h] + s[h..];
    }
  }
}
