/**
 Path canonicalisation of the server: removeslashes and out_root_dir of
 request/request.cpp over ft_split of c_tools/tools.cpp.
 */
module PathCanon {

  const NUL := '\0'
  const UP := ".."

  // ----- segments of a path -----

  /** What c_str() shows of a string: up to the first terminator. */
  function CStr(s: string): (r: string)
    ensures NUL !in r
  {
    if s == [] || s[0] == NUL then [] else [s[0]] + CStr(s[1..])
  }

  /** What a read of C memory finds: the string and then its terminator. */
  function At(s: string, i: nat): char
    requires i <= |s|
  {
    if i < |s| then s[i] else NUL
  }

  /** The length of the word s begins with. */
  function Run(s: string, c: char): (n: nat)
    ensures n <= |s| && (forall i :: 0 <= i < n ==> s[i] != c) && (n < |s| ==> s[n] == c)
  {
    if s == [] || s[0] == c then 0 else 1 + Run(s[1..], c)
  }

  /** The maximal runs of characters other than c. */
  function Words(s: string, c: char): seq<string>
    decreases |s|
  {
    if s == [] then []
    else if s[0] == c then Words(s[1..], c)
    else
      var n := Run(s, c);
      [s[..n]] + Words(s[n..], c)
  }

  predicate IsWord(w: string, c: char) {
    w != [] && c !in w
  }

  lemma {:induction false} WordsAreWords(s: string, c: char)
    ensures forall w :: w in Words(s, c) ==> IsWord(w, c) && forall x :: x in w ==> x in s
    decreases |s|
  {
    if s == [] {
    } else if s[0] == c {
      WordsAreWords(s[1..], c);
    } else {
      var n := Run(s, c);
      WordsAreWords(s[n..], c);
      assert Words(s, c) == [s[..n]] + Words(s[n..], c);
    }
  }

  lemma RunOfWord(w: string, rest: string, c: char)
    requires IsWord(w, c) && (rest == [] || rest[0] == c)
    ensures Run(w + rest, c) == |w|
  {
    var s := w + rest;
    assert forall i :: 0 <= i < |w| ==> s[i] == w[i] && w[i] in w;
    assert rest != [] ==> s[|w|] == rest[0];
  }

  lemma WordsOfWord(w: string, rest: string, c: char)
    requires IsWord(w, c) && (rest == [] || rest[0] == c)
    ensures Words(w + rest, c) == [w] + Words(rest, c)
  {
    RunOfWord(w, rest, c);
    assert w[0] in w && (w + rest)[0] == w[0];
    assert (w + rest)[..|w|] == w && (w + rest)[|w|..] == rest;
  }

  /** A separator anywhere separates, and makes no words of its own: with WordsOfWord, this determines Words. */
  lemma {:induction false} WordsApart(a: string, c: char, b: string)
    ensures Words(a + [c] + b, c) == Words(a, c) + Words(b, c)
    decreases |a|
  {
    hide Words, Run;
    var s := a + [c] + b;
    if a == [] {
      FirstSeparator(s, c);
      assert s[1..] == b && [] + Words(b, c) == Words(b, c);
    } else if a[0] == c {
      WordsApart(a[1..], c, b);
      FirstSeparator(a, c);
      FirstSeparator(s, c);
      assert s[1..] == a[1..] + [c] + b;
    } else {
      var n := Run(a, c);
      FirstSeparator(a, c);
      FirstWord(a, n, c);
      WordsApart(a[n..], c, b);
      FirstWord(s, n, c);
      assert s[..n] == a[..n] && s[n..] == a[n..] + [c] + b;
    }
  }

  lemma FirstSeparator(s: string, c: char)
    ensures Words([], c) == []
    ensures s != [] && s[0] == c ==> Words(s, c) == Words(s[1..], c)
    ensures s != [] && s[0] != c ==> Run(s, c) > 0
  {
  }

  lemma FirstWord(s: string, n: nat, c: char)
    requires 0 < n <= |s| && (forall i :: 0 <= i < n ==> s[i] != c) && (n < |s| ==> s[n] == c)
    ensures Words(s, c) == [s[..n]] + Words(s[n..], c)
  {
    var m := Run(s, c);
    assert m == n;
  }

  /** The words with single separators between them. */
  function Joined(ws: seq<string>, c: char): string {
    if ws == [] then []
    else if |ws| == 1 then ws[0]
    else ws[0] + [c] + Joined(ws[1..], c)
  }

  /** Words joined are split again into the same words. */
  lemma {:induction false} SplitJoined(ws: seq<string>, c: char)
    requires forall w :: w in ws ==> IsWord(w, c)
    ensures Words(Joined(ws, c), c) == ws
  {
    if ws == [] {
    } else if |ws| == 1 {
      WordsOfWord(ws[0], [], c);
      assert ws[0] + [] == ws[0];
      assert [ws[0]] + [] == ws;
    } else {
      var rest := [c] + Joined(ws[1..], c);
      SplitJoined(ws[1..], c);
      assert rest[1..] == Joined(ws[1..], c);
      assert Words(rest, c) == Words(rest[1..], c);
      WordsOfWord(ws[0], rest, c);
      assert ws[0] + [c] + Joined(ws[1..], c) == ws[0] + rest;
      assert [ws[0]] + ws[1..] == ws;
    }
  }

  // ----- the loops of c_tools/tools.cpp -----

  /** word_size: how many words there are. */
  method WordSize(s: string, c: char) returns (size: nat)
    requires NUL !in s && c != NUL
    ensures size == |Words(s, c)|
  {
    hide Words, Run;
    var i: nat := 0;
    size := 0;
    assert s[0..] == s;
    while At(s, i) != NUL
      invariant i <= |s| && size + |Words(s[i..], c)| == |Words(s, c)|
      decreases |s| - i
    {
      if At(s, i) != c {
        size := size + 1;
      }
      var from := i;
      WordStep(s, from, c);
      while At(s, i) != c && At(s, i) != NUL
        invariant from <= i <= from + Run(s[from..], c) <= |s|
        decreases |s| - i
      {
        WordStep(s, i, c);
        RunShrinks(s, from, i, c);
        i := i + 1;
      }
      RunShrinks(s, from, i, c);
      if At(s, i) != NUL {
        WordStep(s, i, c);
        i := i + 1;
      }
    }
    WordStep(s, i, c);
  }

  lemma RunShrinks(s: string, from: nat, i: nat, c: char)
    requires NUL !in s && from <= i <= |s| && i <= from + Run(s[from..], c) <= |s|
    ensures At(s, i) == c || At(s, i) == NUL <==> i == from + Run(s[from..], c)
  {
    var t := s[from..];
    var n := Run(t, c);
    if i < |s| {
      assert s[i] in s && t[i - from] == s[i];
    }
  }

  /** One word, or one separator, at position i. */
  lemma WordStep(s: string, i: nat, c: char)
    requires i <= |s| && c != NUL
    ensures i + Run(s[i..], c) <= |s|
    ensures i < |s| && s[i] == c ==> Words(s[i..], c) == Words(s[i + 1..], c) && Run(s[i..], c) == 0
    ensures i < |s| && s[i] != c ==>
              var n := Run(s[i..], c);
              n > 0 && Words(s[i..], c) == [s[i..i + n]] + Words(s[i + n..], c)
    ensures i == |s| ==> Words(s[i..], c) == []
  {
    var t := s[i..];
    if i < |s| {
      assert t[1..] == s[i + 1..] && t[0] == s[i];
      var n := Run(t, c);
      assert t[..n] == s[i..i + n] && t[n..] == s[i + n..];
    }
  }

  /** word_len at position i */
  method WordLen(s: string, i: nat, c: char) returns (n: nat)
    requires NUL !in s && c != NUL && i <= |s|
    ensures n == Run(s[i..], c)
  {
    n := 0;
    while At(s, i + n) != c && At(s, i + n) != NUL
      invariant n <= Run(s[i..], c) <= |s| - i
      decreases |s| - n
    {
      RunShrinks(s, i, i + n, c);
      n := n + 1;
    }
    RunShrinks(s, i, i + n, c);
  }

  /** ft_write: a copy with a terminator. */
  method Write(s: string, from: nat, len: nat) returns (p: array<char>)
    requires from + len <= |s|
    ensures fresh(p) && p[..] == s[from..from + len] + [NUL]
  {
    p := new char[len + 1];
    var i := 0;
    while i < len
      invariant 0 <= i <= len && p[..i] == s[from..from + i]
    {
      p[i] := s[from + i];
      i := i + 1;
    }
    p[i] := NUL;
  }

  /** The words in the slots of a table, and a null behind them. */
  ghost predicate Tabulated(p: array<array?<char>>, words: seq<string>, n: nat)
    requires n <= |words| && n <= p.Length
    reads p, p[..]
  {
    forall k :: 0 <= k < n ==> p[k] != null && p[k][..] == words[k] + [NUL]
  }

  /** ft_split: every word in a slot of its own, and exactly the slots counted before. */
  method Split(s: string, c: char) returns (p: array<array?<char>>)
    requires NUL !in s && c != NUL
    ensures fresh(p) && p.Length == |Words(s, c)| + 1
    ensures Tabulated(p, Words(s, c), |Words(s, c)|) && p[|Words(s, c)|] == null
  {
    hide Words, Run;
    var size := WordSize(s, c);
    ghost var words := Words(s, c);
    p := new array?<char>[size + 1];
    var i, index: nat := 0, 0;
    assert s[0..] == s && words[0..] == words;
    while At(s, i) != NUL
      invariant 0 <= i <= |s| && index <= |words| == size && words[index..] == Words(s[i..], c)
      invariant Tabulated(p, words, index)
      decreases |s| - i
    {
      WordStep(s, i, c);
      if At(s, i) != NUL && At(s, i) != c {
        var len := WordLen(s, i, c);
        NextWord(words, index, s[i..i + len], Words(s[i + len..], c));
        Place(p, index, s, i, len, words);
        i := i + (len - 1);
        index := index + 1;
      }
      i := i + 1;
    }
    WordStep(s, i, c);
    p[index] := null;
  }

  /** The next word gets the next slot. */
  method Place(p: array<array?<char>>, index: nat, s: string, i: nat, len: nat, ghost words: seq<string>)
    requires index < |words| < p.Length && i + len <= |s| && words[index] == s[i..i + len] && Tabulated(p, words, index)
    modifies p
    ensures Tabulated(p, words, index + 1)
  {
    var word := Write(s, i, len);
    p[index] := word;
  }

  lemma NextWord(words: seq<string>, index: nat, word: string, rest: seq<string>)
    requires index <= |words| && words[index..] == [word] + rest
    ensures index < |words| && words[index] == word && words[index + 1..] == rest
  {
    assert words[index] == words[index..][0];
    assert words[index + 1..] == words[index..][1..];
  }

  // ----- removeslashes -----

  /** One slash for every run of slashes. */
  function Squeezed(s: string): string {
    if s == [] then []
    else if |s| >= 2 && s[0] == '/' && s[1] == '/' then Squeezed(s[1..])
    else [s[0]] + Squeezed(s[1..])
  }

  lemma PutBehind(was: string, c: char, line: string, i: nat)
    requires i < |line|
    ensures was + [c] + Squeezed(line[i + 1..]) == was + ([c] + Squeezed(line[i + 1..]))
  {
  }

  /** removeslashes */
  method RemoveSlashes(line: string) returns (result: string)
    ensures result == Squeezed(line)
  {
    hide Squeezed;
    result := [];
    var i := 0;
    assert line[0..] == line;
    while i < |line|
      invariant 0 <= i <= |line| && result + Squeezed(line[i..]) == Squeezed(line)
    {
      ghost var was := result;
      result := result + [line[i]];
      SqueezedStep(line, i);
      PutBehind(was, line[i], line, i);
      if line[i] == '/' {
        while i + 1 < |line| && line[i + 1] == '/'
          invariant 0 <= i < |line| && line[i] == '/' && was + Squeezed(line[i..]) == Squeezed(line)
          decreases |line| - i
        {
          SqueezedStep(line, i);
          i := i + 1;
        }
      }
      SqueezedStep(line, i);
      PutBehind(was, line[i], line, i);
      i := i + 1;
    }
    assert line[i..] == [];
    SqueezedNothing();
  }

  lemma SqueezedNothing()
    ensures Squeezed([]) == []
  {
  }

  lemma SqueezedStep(s: string, i: nat)
    requires i < |s|
    ensures Squeezed(s[i..]) ==
            if i + 1 < |s| && s[i] == '/' && s[i + 1] == '/' then Squeezed(s[i + 1..])
            else [s[i]] + Squeezed(s[i + 1..])
  {
    assert s[i..][1..] == s[i + 1..];
  }

  /** Two C strings with the same words, which begin alike. */
  ghost predicate SameWords(a: string, b: string) {
    var n := Run(b, '/');
    Words(a, '/') == Words(b, '/') && Run(a, '/') == n && Words(a[n..], '/') == Words(b[n..], '/') && a[..n] == b[..n]
  }

  lemma SameWordsPrepend(x: char, a: string, b: string)
    requires SameWords(a, b)
    ensures SameWords([x] + a, [x] + b)
  {
    hide Words, Run;
    WordsPrepend(x, a);
    WordsPrepend(x, b);
  }

  lemma CStrUnfolds(x: char, t: string)
    ensures CStr([x] + t) == if x == NUL then [] else [x] + CStr(t)
  {
    assert ([x] + t)[1..] == t;
  }

  lemma SlashBefore(q: string)
    requires q != [] && q[0] == '/'
    ensures SameWords(q, ['/'] + q)
  {
    hide Words, Run;
    WordsPrepend('/', q);
    WordsPrepend('/', q[1..]);
    assert q == ['/'] + q[1..];
    assert ([] + q)[..0] == [] && q[0..] == q && (['/'] + q)[0..] == ['/'] + q;
  }

  lemma SqueezedUnfolds(s: string)
    ensures s == [] ==> Squeezed(s) == []
    ensures s != [] ==>
              Squeezed(s) ==
              if |s| >= 2 && s[0] == '/' && s[1] == '/' then Squeezed(s[1..]) else [s[0]] + Squeezed(s[1..])
  {
  }

  lemma SameWordsTrans(a: string, b: string, c: string)
    requires SameWords(a, b) && SameWords(b, c)
    ensures SameWords(a, c)
  {
  }

  /** Squeezing keeps the words, at whatever terminator the string is read to. */
  lemma {:induction false} SqueezedKeepsWords(s: string)
    ensures SameWords(CStr(Squeezed(s)), CStr(s))
  {
    hide Words, Run, CStr, Squeezed, SameWords;
    SqueezedUnfolds(s);
    if s == [] {
      AlikeItself(CStr(s));
    } else {
      var x, t := s[0], s[1..];
      SqueezedKeepsWords(t);
      assert s == [x] + t;
      CStrUnfolds(x, t);
      if |s| >= 2 && x == '/' && s[1] == '/' {
        CStrUnfolds(t[0], t[1..]);
        assert t == [t[0]] + t[1..];
        SlashBefore(CStr(t));
        SameWordsTrans(CStr(Squeezed(s)), CStr(t), CStr(s));
      } else if x == NUL {
        CStrUnfolds(x, Squeezed(t));
        AlikeItself([]);
      } else {
        CStrUnfolds(x, Squeezed(t));
        SameWordsPrepend(x, CStr(Squeezed(t)), CStr(t));
      }
    }
  }

  lemma AlikeItself(a: string)
    ensures SameWords(a, a)
  {
  }

  lemma WordsPrepend(x: char, q: string)
    ensures ([x] + q)[1..] == q
    ensures x == '/' ==> Words([x] + q, '/') == Words(q, '/') && Run([x] + q, '/') == 0
    ensures x != '/' ==>
              var n := Run(q, '/');
              Run([x] + q, '/') == n + 1 && ([x] + q)[..n + 1] == [x] + q[..n] && ([x] + q)[n + 1..] == q[n..]
              && Words([x] + q, '/') == [[x] + q[..n]] + Words(q[n..], '/')
  {
    assert ([x] + q)[1..] == q;
  }

  // ----- out_root_dir -----

  /** How many of the segments go up. */
  function Ups(w: seq<string>): (n: nat)
    ensures n <= |w|
  {
    if w == [] then 0 else Ups(w[..|w| - 1]) + if w[|w| - 1] == UP then 1 else 0
  }

  /** No prefix has more steps up than other segments. */
  ghost predicate Inside(w: seq<string>) {
    forall n :: 0 <= n <= |w| ==> 2 * Ups(w[..n]) <= n
  }

  /** The stack that the segments leave: each ".." takes away what is on top. */
  function Resolved(w: seq<string>): (r: seq<string>)
    requires Inside(w)
    ensures |r| == |w| - 2 * Ups(w)
  {
    if w == [] then []
    else
      var n := |w| - 1;
      InsidePrefix(w, n);
      assert w[..|w|] == w;
      if w[n] == UP then Resolved(w[..n])[..n - 2 * Ups(w[..n]) - 1] else Resolved(w[..n]) + [w[n]]
  }

  /** What is left are segments of the path other than "..". */
  lemma {:induction false} ResolvedKeeps(w: seq<string>)
    requires Inside(w)
    ensures forall x :: x in Resolved(w) ==> x in w && x != UP
  {
    if w != [] {
      var n := |w| - 1;
      InsidePrefix(w, n);
      ResolvedKeeps(w[..n]);
      var r := Resolved(w[..n]);
      forall x | x in Resolved(w)
        ensures x in w && x != UP
      {
        if x in r {
          assert x in w[..n];
        } else {
          assert w[n] != UP && x == w[n];
        }
      }
    }
  }

  lemma InsidePrefix(w: seq<string>, n: nat)
    requires Inside(w) && n <= |w|
    ensures Inside(w[..n])
  {
    forall k | 0 <= k <= n
      ensures 2 * Ups(w[..n][..k]) <= k
    {
      assert w[..n][..k] == w[..k];
    }
  }

  lemma OutsidePrefix(w: seq<string>, n: nat)
    requires n <= |w| && !Inside(w[..n])
    ensures !Inside(w)
  {
    var k :| 0 <= k <= n && 2 * Ups(w[..n][..k]) > k;
    assert w[..n][..k] == w[..k];
  }

  /** A segment and the step up behind it cancel, wherever they stand: with NoUpIsNormal, this determines Resolved. */
  lemma {:induction false} PairCancels(a: seq<string>, x: string, b: seq<string>)
    requires x != UP
    ensures Inside(a + [x, UP] + b) <==> Inside(a + b)
    ensures Inside(a + b) ==> Resolved(a + [x, UP] + b) == Resolved(a + b)
  {
    if b == [] {
      PairAtEnd(a, x);
      assert a + [x, UP] + b == a + [x, UP] && a + b == a;
    } else {
      var n := |b| - 1;
      PairCancels(a, x, b[..n]);
      UpsApart(a, x, b[..n]);
      OneMore(a + [x, UP] + b[..n], b[n]);
      OneMore(a + b[..n], b[n]);
      assert a + [x, UP] + b == (a + [x, UP] + b[..n]) + [b[n]];
      assert a + b == (a + b[..n]) + [b[n]];
    }
  }

  /** One more segment. */
  lemma OneMore(w: seq<string>, x: string)
    ensures Ups(w + [x]) == Ups(w) + if x == UP then 1 else 0
    ensures Inside(w + [x]) <==> Inside(w) && 2 * Ups(w + [x]) <= |w| + 1
    ensures Inside(w + [x]) ==>
              Resolved(w + [x]) == if x == UP then Resolved(w)[..|Resolved(w)| - 1] else Resolved(w) + [x]
  {
    var v := w + [x];
    assert v[..|w|] == w && v[..|v|] == v;
    if Inside(v) {
      InsidePrefix(v, |w|);
      assert 2 * Ups(v[..|v|]) <= |v|;
    } else if Inside(w) && 2 * Ups(v) <= |w| + 1 {
      forall n | 0 <= n <= |v|
        ensures 2 * Ups(v[..n]) <= n
      {
        assert n <= |w| ==> v[..n] == w[..n];
      }
    }
  }

  lemma PairAtEnd(a: seq<string>, x: string)
    requires x != UP
    ensures Inside(a + [x, UP]) <==> Inside(a)
    ensures Inside(a) ==> Resolved(a + [x, UP]) == Resolved(a)
  {
    OneMore(a, x);
    OneMore(a + [x], UP);
    assert a[..|a|] == a;
    assert a + [x, UP] == (a + [x]) + [UP];
  }

  lemma {:induction false} UpsApart(a: seq<string>, x: string, b: seq<string>)
    requires x != UP
    ensures Ups(a + [x, UP] + b) == Ups(a + b) + 1
  {
    if b == [] {
      OneMore(a, x);
      OneMore(a + [x], UP);
      assert a + [x, UP] + b == (a + [x]) + [UP] && a + b == a;
    } else {
      var n := |b| - 1;
      UpsApart(a, x, b[..n]);
      OneMore(a + [x, UP] + b[..n], b[n]);
      OneMore(a + b[..n], b[n]);
      assert a + [x, UP] + b == (a + [x, UP] + b[..n]) + [b[n]];
      assert a + b == (a + b[..n]) + [b[n]];
    }
  }

  /** Segments without a step up resolve to themselves. */
  lemma {:induction false} NoUpIsNormal(w: seq<string>)
    requires UP !in w
    ensures Ups(w) == 0 && Inside(w) && Resolved(w) == w
  {
    if w != [] {
      var n := |w| - 1;
      NoUpIsNormal(w[..n]);
      OneMore(w[..n], w[n]);
      assert w == w[..n] + [w[n]];
    } else {
      assert Inside(w);
    }
  }

  /** What a C string in an array says. */
  ghost function Text(p: array<char>): string
    reads p
  {
    if p.Length == 0 then [] else p[..p.Length - 1]
  }

  /** strcmp(str, "..") == 0 */
  method IsUp(str: array<char>) returns (up: bool)
    requires str.Length > 0 && str[str.Length - 1] == NUL && NUL !in str[..str.Length - 1]
    ensures up <==> str[..str.Length - 1] == UP
  {
    up := str[0] == '.' && str[1] == '.' && str[2] == NUL;
  }

  /** What out_root_dir does to the path `pa`: the root and the resolved segments, if they stay inside. */
  ghost function Canonical(pa: string): (r: string)
    requires Inside(Words(CStr(pa), '/'))
  {
    "/" + Joined(Resolved(Words(CStr(pa), '/')), '/')
  }

  /** Lines 179-190: the check. */
  method StaysInside(str: array<array?<char>>, ghost w: seq<string>) returns (ok: bool)
    requires str.Length == |w| + 1 && Tabulated(str, w, |w|) && str[|w|] == null
    requires forall x :: x in w ==> NUL !in x
    ensures ok <==> Inside(w)
  {
    hide Inside, Ups, Resolved;
    var entry, sorty, i := 0, 0, 0;
    NoUpIsNormal(w[..0]);
    while str[i] != null
      invariant 0 <= i <= |w| && sorty == Ups(w[..i]) && entry == i - sorty && Inside(w[..i])
      decreases |w| - i
    {
      TextOf(str[i], w[i]);
      var up := IsUp(str[i]);
      if up {
        sorty := sorty + 1;
      } else {
        entry := entry + 1;
      }
      NextPrefix(w, i);
      if sorty > entry {
        OutsidePrefix(w, i + 1);
        return false;
      }
      i := i + 1;
    }
    assert w[..i] == w;
    return true;
  }

  lemma NextPrefix(w: seq<string>, i: nat)
    requires i < |w|
    ensures Ups(w[..i + 1]) == Ups(w[..i]) + if w[i] == UP then 1 else 0
    ensures Inside(w[..i + 1]) <==> Inside(w[..i]) && 2 * Ups(w[..i + 1]) <= i + 1
  {
    hide Inside, Ups, Resolved;
    assert w[..i + 1] == w[..i] + [w[i]];
    OneMore(w[..i], w[i]);
  }

  lemma TextOf(p: array<char>, word: string)
    requires p[..] == word + [NUL]
    ensures p.Length == |word| + 1 && p[..p.Length - 1] == word && p[p.Length - 1] == NUL
  {
    assert p[..p.Length - 1] == p[..][..p.Length - 1];
    assert p[p.Length - 1] == p[..][p.Length - 1];
  }

  /** Lines 192-202: the stack. A step up is pushed and then popped with the segment below it. */
  method Stack(str: array<array?<char>>, ghost w: seq<string>) returns (vec: seq<string>)
    requires str.Length == |w| + 1 && Tabulated(str, w, |w|) && str[|w|] == null
    requires (forall x :: x in w ==> NUL !in x) && Inside(w)
    ensures vec == Resolved(w)
  {
    hide Inside, Ups, Resolved;
    vec := [];
    var i := 0;
    NoUpIsNormal(w[..0]);
    while str[i] != null
      invariant 0 <= i <= |w| && Inside(w[..i]) && vec == Resolved(w[..i])
      decreases |w| - i
    {
      TextOf(str[i], w[i]);
      InsidePrefix(w, i + 1);
      assert w[..i + 1] == w[..i] + [w[i]];
      OneMore(w[..i], w[i]);
      vec := vec + [str[i][..str[i].Length - 1]];
      var up := IsUp(str[i]);
      if up {
        vec := vec[..|vec| - 1];
        vec := vec[..|vec| - 1];
      }
      i := i + 1;
    }
    assert w[..i] == w;
  }

  /** Lines 205-213: the segments with slashes between them. */
  method Print(vec: seq<string>) returns (oss: string)
    ensures oss == Joined(vec, '/')
  {
    oss := [];
    var i := 0;
    assert vec[0..] == vec;
    while i < |vec|
      invariant 0 <= i <= |vec| && oss + Joined(vec[i..], '/') == Joined(vec, '/')
    {
      assert vec[i..][1..] == vec[i + 1..];
      ghost var was := oss;
      oss := oss + vec[i];
      if i != |vec| - 1 {
        oss := oss + "/";
        assert oss + Joined(vec[i + 1..], '/') == was + (vec[i] + "/" + Joined(vec[i + 1..], '/'));
      }
      i := i + 1;
    }
  }

  /** out_root_dir: refused with a 400 and the path left alone, or accepted and the path replaced. */
  method OutRootDir(pa: string) returns (ok: bool, pa': string)
    ensures ok <==> Inside(Words(CStr(pa), '/'))
    ensures pa' == if ok then Canonical(pa) else pa
  {
    var s := CStr(pa);
    var str := Split(s, '/');
    ghost var w := Words(s, '/');
    WordsAreWords(s, '/');
    assert forall x :: x in w ==> NUL !in x;
    ok := StaysInside(str, w);
    if !ok {
      return false, pa;
    }
    var vec := Stack(str, w);
    var oss := Print(vec);
    pa' := "/" + oss;
  }

  // ----- what canonical paths are -----

  lemma {:induction false} CStrWhole(s: string)
    requires NUL !in s
    ensures CStr(s) == s
  {
    if s != [] {
      CStrWhole(s[1..]);
    }
  }

  lemma {:induction false} JoinedPlain(ws: seq<string>, c: char, x: char)
    requires x != c && forall w :: w in ws ==> x !in w
    ensures x !in Joined(ws, c)
  {
    if |ws| > 1 {
      JoinedPlain(ws[1..], c, x);
    }
  }

  /** The segments of a canonical path are the resolved segments, none of them empty or "..". */
  lemma CanonicalWords(pa: string)
    requires Inside(Words(CStr(pa), '/'))
    ensures var w := Words(CStr(Canonical(pa)), '/'); w == Resolved(Words(CStr(pa), '/')) && UP !in w && [] !in w
    ensures NUL !in Canonical(pa)
  {
    var s := CStr(pa);
    var w := Words(s, '/');
    var r := Resolved(w);
    WordsAreWords(s, '/');
    ResolvedKeeps(w);
    SplitJoined(r, '/');
    JoinedPlain(r, '/', NUL);
    CStrWhole(Canonical(pa));
    assert ("/" + Joined(r, '/'))[1..] == Joined(r, '/');
  }

  /** A canonical path is accepted and stays as it is. */
  lemma CanonicalTwice(pa: string)
    requires Inside(Words(CStr(pa), '/'))
    ensures Inside(Words(CStr(Canonical(pa)), '/')) && Canonical(Canonical(pa)) == Canonical(pa)
  {
    CanonicalWords(pa);
    NoUpIsNormal(Resolved(Words(CStr(pa), '/')));
  }

  /** removeslashes before out_root_dir decides nothing and changes nothing. */
  lemma SqueezingDecidesNothing(pa: string)
    ensures Inside(Words(CStr(Squeezed(pa)), '/')) <==> Inside(Words(CStr(pa), '/'))
    ensures Inside(Words(CStr(pa), '/')) ==> Canonical(Squeezed(pa)) == Canonical(pa)
  {
    SqueezedKeepsWords(pa);
  }

  ghost predicate TwoSlashes(s: string, i: nat) {
    i + 1 < |s| && s[i] == '/' && s[i + 1] == '/'
  }

  /** No two slashes in a row. */
  ghost predicate SingleSlashes(s: string) {
    forall i :: !TwoSlashes(s, i)
  }

  /** Squeezing leaves alone exactly the strings without two slashes in a row, and yields such a one. */
  lemma {:induction false} SqueezedIsSingle(s: string)
    ensures SingleSlashes(Squeezed(s))
    ensures Squeezed(s) == s <==> SingleSlashes(s)
    ensures |Squeezed(s)| <= |s| && (s != [] ==> Squeezed(s) != [] && Squeezed(s)[0] == s[0])
  {
    if s != [] {
      var t := s[1..];
      SqueezedIsSingle(t);
      SinglePrepend(s[0], t);
      SinglePrepend(s[0], Squeezed(t));
      assert s == [s[0]] + t;
      if |s| >= 2 && s[0] == '/' && s[1] == '/' {
        assert TwoSlashes(s, 0);
      } else {
        assert Squeezed(s)[1..] == Squeezed(t);
      }
    }
  }

  lemma SinglePrepend(x: char, t: string)
    ensures SingleSlashes([x] + t) <==> SingleSlashes(t) && !(x == '/' && t != [] && t[0] == '/')
  {
    var s := [x] + t;
    if i: nat :| TwoSlashes(t, i) {
      assert TwoSlashes(s, i + 1);
    }
    if i: nat :| TwoSlashes(s, i) && i > 0 {
      assert TwoSlashes(t, i - 1);
    }
    if x == '/' && t != [] && t[0] == '/' {
      assert TwoSlashes(s, 0);
    }
  }

  /** A canonical path has no empty segment: its slashes stand alone. */
  lemma CanonicalIsSingle(pa: string)
    requires Inside(Words(CStr(pa), '/'))
    ensures SingleSlashes(Canonical(pa))
  {
    var w := Words(CStr(pa), '/');
    WordsAreWords(CStr(pa), '/');
    ResolvedKeeps(w);
    JoinedSingle(Resolved(w));
  }

  lemma {:induction false} JoinedSingle(ws: seq<string>)
    requires forall w :: w in ws ==> IsWord(w, '/')
    ensures SingleSlashes("/" + Joined(ws, '/'))
  {
    if ws == [] {
    } else {
      var rest := if |ws| == 1 then [] else "/" + Joined(ws[1..], '/');
      assert IsWord(ws[0], '/');
      if |ws| > 1 {
        JoinedSingle(ws[1..]);
      }
      WordSingle(ws[0], rest);
      SinglePrepend('/', ws[0] + rest);
      assert Joined(ws, '/') == ws[0] + rest;
      assert ws[0][0] in ws[0];
    }
  }

  lemma {:induction false} WordSingle(w: string, rest: string)
    requires '/' !in w && SingleSlashes(rest)
    ensures SingleSlashes(w + rest)
  {
    if w == [] {
      assert w + rest == rest;
    } else {
      WordSingle(w[1..], rest);
      SinglePrepend(w[0], w[1..] + rest);
      assert w + rest == [w[0]] + (w[1..] + rest) && w[0] in w;
    }
  }

  // ----- the form of canonical paths -----

  /** Slashes that stand alone, one at the front, and none at the end unless it is the root. */
  ghost predicate IsRooted(s: string) {
    && NUL !in s && SingleSlashes(s)
    && s != [] && s[0] == '/' && (s[|s| - 1] == '/' ==> s == "/")
  }

  lemma SingleSuffix(s: string, i: nat)
    requires SingleSlashes(s) && i <= |s|
    ensures SingleSlashes(s[i..])
    ensures i + 1 < |s| && s[i] == '/' ==> s[i + 1] != '/'
  {
    assert !TwoSlashes(s, i);
    forall k: int
      ensures k >= 0 ==> !TwoSlashes(s[i..], k)
    {
      assert k >= 0 ==> !TwoSlashes(s, i + k);
    }
  }

  /** Without a slash at either end and with single slashes between, a string is its segments joined. */
  lemma {:induction false} JoinedBack(u: string)
    requires SingleSlashes(u) && (u != [] ==> u[0] != '/' && u[|u| - 1] != '/')
    ensures u == Joined(Words(u, '/'), '/') && (u != [] ==> Words(u, '/') != [])
    decreases |u|
  {
    hide SingleSlashes;
    var n := Run(u, '/');
    if u == [] {
    } else if n == |u| {
      assert u[..n] == u && u[n..] == [];
    } else {
      var rest := u[n + 1..];
      SingleSuffix(u, n);
      SingleSuffix(u, n + 1);
      JoinedBack(rest);
      assert u[n..][1..] == rest;
      JoinedFront(u[..n], Words(rest, '/'));
      assert u == u[..n] + ['/'] + rest;
    }
  }

  lemma JoinedFront(w: string, ws: seq<string>)
    requires ws != []
    ensures Joined([w] + ws, '/') == w + ['/'] + Joined(ws, '/')
  {
    assert ([w] + ws)[1..] == ws;
  }

  /** A string in this form is determined by its segments. */
  lemma RootedIsJoined(s: string)
    requires IsRooted(s)
    ensures s == "/" + Joined(Words(s, '/'), '/')
  {
    hide SingleSlashes;
    var u := s[1..];
    SingleSuffix(s, 0);
    SingleSuffix(s, 1);
    assert u != [] ==> u[|u| - 1] == s[|s| - 1];
    JoinedBack(u);
    assert s == "/" + u;
  }

  lemma RootedUnique(s: string, t: string)
    requires IsRooted(s) && IsRooted(t) && Words(s, '/') == Words(t, '/')
    ensures s == t
  {
    RootedIsJoined(s);
    RootedIsJoined(t);
  }

  lemma {:induction false} JoinedEnd(ws: seq<string>)
    requires ws != [] && forall w :: w in ws ==> IsWord(w, '/')
    ensures var j := Joined(ws, '/'); j != [] && j[|j| - 1] != '/'
  {
    assert IsWord(ws[0], '/');
    if |ws| == 1 {
      assert ws[0][|ws[0]| - 1] in ws[0];
    } else {
      JoinedEnd(ws[1..]);
    }
  }

  /** A canonical path has this form. */
  lemma CanonicalIsRooted(pa: string)
    requires Inside(Words(CStr(pa), '/'))
    ensures IsRooted(Canonical(pa))
  {
    hide SingleSlashes, Inside;
    var w := Words(CStr(pa), '/');
    CanonicalIsSingle(pa);
    CanonicalWords(pa);
    WordsAreWords(CStr(pa), '/');
    ResolvedKeeps(w);
    if Resolved(w) != [] {
      JoinedEnd(Resolved(w));
    }
  }

  /** A path is accepted and left as it is if and only if it has this form and no segment "..". */
  lemma CanonicalExactly(pa: string)
    ensures Inside(Words(CStr(pa), '/')) && Canonical(pa) == pa <==> IsRooted(pa) && ".." !in Words(pa, '/')
  {
    hide SingleSlashes, Inside, Resolved;
    if Inside(Words(CStr(pa), '/')) && Canonical(pa) == pa {
      CanonicalIsRooted(pa);
      CanonicalWords(pa);
      CStrWhole(pa);
    }
    if IsRooted(pa) && ".." !in Words(pa, '/') {
      CStrWhole(pa);
      NoUpIsNormal(Words(pa, '/'));
      RootedIsJoined(pa);
    }
  }

  lemma WrittenWords(ws: seq<string>)
    requires forall w :: w in ws ==> IsWord(w, '/') && NUL !in w
    ensures Words(CStr("/" + Joined(ws, '/')), '/') == ws
  {
    SplitJoined(ws, '/');
    JoinedPlain(ws, '/', NUL);
    CStrWhole("/" + Joined(ws, '/'));
    assert ("/" + Joined(ws, '/'))[1..] == Joined(ws, '/');
  }

  /**
   A written path is refused if it starts with ".."; a segment and ".." behind it
   can be left out; and without ".." it stays: this determines what becomes of it.
   */
  lemma WrittenPaths(a: seq<string>, x: string, b: seq<string>)
    requires forall w :: w in a + [x] + b ==> IsWord(w, '/') && NUL !in w
    requires x != ".."
    ensures !Inside(Words(CStr("/" + Joined([".."] + b, '/')), '/'))
    ensures var s, t := "/" + Joined(a + [x, ".."] + b, '/'), "/" + Joined(a + b, '/');
            && (Inside(Words(CStr(s), '/')) <==> Inside(Words(CStr(t), '/')))
            && (Inside(Words(CStr(t), '/')) ==> Canonical(s) == Canonical(t))
            && (".." !in a + b ==> Inside(Words(CStr(t), '/')) && Canonical(t) == t)
  {
    hide Inside, Resolved, Joined;
    forall w | w in a
      ensures IsWord(w, '/') && NUL !in w
    {
      assert w in a + [x] + b;
    }
    forall w | w in b
      ensures IsWord(w, '/') && NUL !in w
    {
      assert w in a + [x] + b;
    }
    assert x in a + [x] + b && IsWord("..", '/') && NUL !in "..";
    WrittenWords([".."] + b);
    WrittenWords(a + [x, ".."] + b);
    WrittenWords(a + b);
    UpFirst(b);
    PairCancels(a, x, b);
    if ".." !in a + b {
      NoUpIsNormal(a + b);
    }
  }

  lemma UpFirst(b: seq<string>)
    ensures !Inside([".."] + b)
  {
    var w := [".."] + b;
    assert w[..1] == [] + [".."];
    OneMore([], "..");
  }
}
