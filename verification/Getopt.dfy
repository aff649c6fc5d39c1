/**
 The permuting scanner of siege-4.1.7/src/getopt.c. `first_nonopt`,
 `last_nonopt`, `optind` and `nextchar` persist across calls, and argv is
 permuted in place.
 */
module Getopt {
  import opened GetoptSpec
  import opened Options

  /** Two disjoint stretches of `len` elements change places. */
  function Swapped(s: seq<string>, i: nat, j: nat, len: nat): (r: seq<string>)
    requires i + len <= j && j + len <= |s|
    ensures |r| == |s|
  {
    s[..i] + s[j..j + len] + s[i + len..j] + s[i..i + len] + s[j + len..]
  }

  /** The adjacent stretches bottom..middle and middle..top change places. */
  function Exchanged(s: seq<string>, bottom: nat, middle: nat, top: nat): (r: seq<string>)
    requires bottom <= middle <= top <= |s|
    ensures |r| == |s|
  {
    s[..bottom] + s[middle..top] + s[bottom..middle] + s[top..]
  }

  lemma SwappedElementwise(s: seq<string>, r: seq<string>, i: nat, j: nat, len: nat)
    requires i + len <= j && j + len <= |s| == |r|
    requires forall m :: i <= m < i + len ==> r[m] == s[m + (j - i)]
    requires forall m :: j <= m < j + len ==> r[m] == s[m - (j - i)]
    requires forall m :: 0 <= m < |s| && !(i <= m < i + len) && !(j <= m < j + len) ==> r[m] == s[m]
    ensures r == Swapped(s, i, j, len)
  {
  }

  lemma SwappedParts(a: seq<string>, x: seq<string>, y: seq<string>, z: seq<string>, t: seq<string>)
    requires |x| == |z|
    ensures Swapped(a + x + y + z + t, |a|, |a| + |x| + |y|, |x|) == a + z + y + x + t
  {
    var s := a + x + y + z + t;
    InFront(a + x + y, z, t);
    InFront(a + x, y, z + t);
    InFront(a, x, y + (z + t));
    Middle(s, a, x, y + (z + t));
    Middle(s, a + x, y, z + t);
    Middle(s, a + x + y, z, t);
    Middle(s, a + x + y + z, t, []);
  }

  lemma Middle(s: seq<string>, before: seq<string>, x: seq<string>, after: seq<string>)
    requires s == before + x + after
    ensures s[|before|..|before| + |x|] == x && s[..|before|] == before
  {
  }

  lemma ExchangedParts(a: seq<string>, x: seq<string>, y: seq<string>, t: seq<string>)
    ensures Exchanged(a + x + y + t, |a|, |a| + |x|, |a| + |x| + |y|) == a + y + x + t
  {
    var s := a + x + y + t;
    InFront(a + x, y, t);
    Middle(s, a, x, y + t);
    Middle(s, a + x, y, t);
    Middle(s, a + x + y, t, []);
  }

  lemma FiveParts(s: seq<string>, i: nat, j: nat, k: nat, l: nat)
    requires i <= j <= k <= l <= |s|
    ensures s == s[..i] + s[i..j] + s[j..k] + s[k..l] + s[l..]
  {
    assert s[..j] == s[..i] + s[i..j];
    assert s[..k] == s[..j] + s[j..k];
    assert s[..l] == s[..k] + s[k..l];
  }

  /** The bottom segment is the short one: it is in place once swapped with the far end of the top segment. */
  lemma BottomIsShort(s: seq<string>, bottom: nat, middle: nat, top: nat)
    requires bottom <= middle <= top <= |s| && middle - bottom < top - middle
    ensures var len := middle - bottom;
            Exchanged(Swapped(s, bottom, top - len, len), bottom, middle, top - len)
            == Exchanged(s, bottom, middle, top)
  {
    hide Swapped, Exchanged;
    var far := top - (middle - bottom);
    var a, x, y, z, t := s[..bottom], s[bottom..middle], s[middle..far], s[far..top], s[top..];
    FiveParts(s, bottom, middle, far, top);
    SwappedParts(a, x, y, z, t);
    InFront(a + z + y, x, t);
    ExchangedParts(a, z, y, x + t);
    InFront(a + x, y, z);
    ExchangedParts(a, x, y + z, t);
    InFront(a, y, z);
    InFront(a + y + z, x, t);
  }

  /** The top segment is the short one: it is in place once swapped with the near end of the bottom segment. */
  lemma TopIsShort(s: seq<string>, bottom: nat, middle: nat, top: nat)
    requires bottom <= middle <= top <= |s| && top - middle <= middle - bottom
    ensures var len := top - middle;
            Exchanged(Swapped(s, bottom, middle, len), bottom + len, middle, top) == Exchanged(s, bottom, middle, top)
  {
    hide Swapped, Exchanged;
    var near := bottom + (top - middle);
    var a, x, y, z, t := s[..bottom], s[bottom..near], s[near..middle], s[middle..top], s[top..];
    FiveParts(s, bottom, near, middle, top);
    SwappedParts(a, x, y, z, t);
    ExchangedParts(a + z, y, x, t);
    InFront(a, x, y);
    ExchangedParts(a, x + y, z, t);
    InFront(a + z, x, y);
    assert a + z + (x + y) + t == (a + z) + x + y + t;
  }

  lemma NothingToExchange(s: seq<string>, bottom: nat, middle: nat, top: nat)
    requires bottom <= middle <= top <= |s| && (bottom == middle || middle == top)
    ensures Exchanged(s, bottom, middle, top) == s
  {
  }

  method SwapStretches(argv: array<string>, i: nat, j: nat, len: nat)
    requires i + len <= j && j + len <= argv.Length
    modifies argv
    ensures argv[..] == Swapped(old(argv[..]), i, j, len)
  {
    hide Swapped;
    ghost var s := argv[..];
    for k := 0 to len
      invariant forall m :: i <= m < i + k ==> argv[m] == s[m + (j - i)]
      invariant forall m :: j <= m < j + k ==> argv[m] == s[m - (j - i)]
      invariant forall m :: 0 <= m < argv.Length && !(i <= m < i + k) && !(j <= m < j + k) ==> argv[m] == s[m]
    {
      argv[i + k], argv[j + k] := argv[j + k], argv[i + k];
    }
    SwappedElementwise(s, argv[..], i, j, len);
  }

  /** The loop of exchange: the shorter segment is swapped into place until one is empty. */
  method BlockSwap(argv: array<string>, first: nat, last: nat, end: nat)
    requires first <= last <= end <= argv.Length
    modifies argv
    ensures argv[..] == Exchanged(old(argv[..]), first, last, end)
  {
    hide *;
    var bottom: nat, middle: nat, top: nat := first, last, end;
    ghost var goal := Exchanged(argv[..], bottom, middle, top);
    while top > middle && middle > bottom
      invariant bottom <= middle <= top <= argv.Length
      invariant Exchanged(argv[..], bottom, middle, top) == goal
      decreases top - bottom
    {
      if top - middle > middle - bottom {
        var len := middle - bottom;
        BottomIsShort(argv[..], bottom, middle, top);
        SwapStretches(argv, bottom, top - len, len);
        top := top - len;
      } else {
        var len := top - middle;
        TopIsShort(argv[..], bottom, middle, top);
        SwapStretches(argv, bottom, middle, len);
        bottom := bottom + len;
      }
    }
    NothingToExchange(argv[..], bottom, middle, top);
  }

  /** The loop over the characters of an option name. */
  method NameEnd(next: string) returns (n: nat)
    ensures n == NameLength(next)
  {
    n := 0;
    while n < |next| && next[n] != '='
      invariant n <= |next| && NameLength(next) == n + NameLength(next[n..])
    {
      assert next[n..][1..] == next[n + 1..];
      n := n + 1;
    }
  }

  /** The loop over the table of long options. */
  method FindLong(opts: seq<LongOpt>, name: string) returns (pfound: Option<nat>, exact: bool, ambig: bool)
    ensures Lookup(opts, name) ==
            if ambig && !exact then Ambiguous else if pfound.Some? then Found(pfound.value) else NoMatch
    ensures pfound.Some? ==> pfound.value < |opts|
  {
    pfound, exact, ambig := None, false, false;
    var i := 0;
    while i < |opts|
      invariant i <= |opts| && !exact
      invariant pfound.Some? ==> pfound.value < i && Abbreviates(name, opts[pfound.value])
      invariant IsMatch(opts[..i], name,
                        if ambig then Ambiguous else if pfound.Some? then Found(pfound.value) else NoMatch)
      invariant forall k :: 0 <= k < i ==> opts[k].name != name
      invariant ambig ==> pfound.Some?
    {
      if Abbreviates(name, opts[i]) {
        if |name| == |opts[i].name| {
          pfound, exact := Some(i), true;
          assert IsMatch(opts, name, Found(i));
          MatchIsUnique(opts, name, Lookup(opts, name), Found(i));
          return;
        } else if pfound.None? {
          pfound := Some(i);
        } else {
          assert 0 <= pfound.value < i && Abbreviates(name, opts[pfound.value]);
          ambig := true;
        }
      }
      i := i + 1;
    }
    assert opts[..i] == opts;
    MatchIsUnique(opts, name, Lookup(opts, name),
                  if ambig then Ambiguous else if pfound.Some? then Found(pfound.value) else NoMatch);
  }

  lemma RegroupedLayout(a: seq<string>, zero: string, done: seq<string>, skipped: seq<string>,
                        recent: seq<string>, tail: seq<string>)
    requires a == [zero] + done + skipped + recent + tail
    ensures Exchanged(a, 1 + |done|, 1 + |done| + |skipped|, 1 + |done| + |skipped| + |recent|) ==
            [zero] + (done + recent) + skipped + tail
  {
  }

  class Scanner {
    const c: Config
    var optind: nat
    var firstNonopt: nat
    var lastNonopt: nat
    var nextchar: string
    var started: bool

    // The vector as it was given, and where its elements are now: options in
    // front, skipped non-options, options read since, and the unread rest.
    ghost const args: seq<string>
    ghost var done: seq<string>
    ghost var skipped: seq<string>
    ghost var recent: seq<string>

    /** The state before the first call; `argv` is what the program was given. */
    constructor (c: Config, argv: array<string>)
      requires argv.Length >= 1 && NoLongW(c) && Permutes(c)
      ensures this.c == c && !started && nextchar == "" && optind == 1 && args == argv[..]
    {
      this.c := c;
      optind, firstNonopt, lastNonopt := 1, 0, 0;
      nextchar := "";
      started := false;
      args := argv[..];
      done, skipped, recent := [], [], [];
    }

    /** What is still to be read. */
    ghost function Rest(): Parsed
      requires optind <= |args|
      requires nextchar != "" ==> optind < |args| && |nextchar| <= |args[optind]|
      reads this
    {
      if nextchar == "" then Parse(c, args, optind) else ParseWithin(c, args, optind, nextchar)
    }

    /** Where everything is, if `last` ends the group of skipped non-options. */
    ghost predicate Placed(argv: array<string>, last: nat)
      reads this, argv
    {
      && optind <= |args| == argv.Length && args != []
      && (nextchar != "" ==> optind < |args| && !NonOption(args[optind]) && |nextchar| <= |args[optind]|)
      && firstNonopt == 1 + |done| && last == firstNonopt + |skipped| && optind == last + |recent|
      && argv[..] == [args[0]] + done + skipped + recent + args[optind..]
    }

    ghost predicate Sound(argv: array<string>)
      reads this, argv
    {
      Placed(argv, lastNonopt)
    }

    /** Whatever is read from here on, the whole run comes to this. */
    ghost predicate HeadsFor(argv: array<string>, p: Parsed)
      reads this, argv
    {
      Sound(argv) && p == Parsed(Rest().reports, done + recent + Rest().consumed, skipped + Rest().others)
    }

    /** exchange */
    method Exchange(argv: array<string>)
      requires firstNonopt <= lastNonopt <= optind <= argv.Length
      modifies argv, this`firstNonopt, this`lastNonopt
      ensures argv[..] == Exchanged(old(argv[..]), old(firstNonopt), old(lastNonopt), optind)
      ensures firstNonopt == old(firstNonopt) + (optind - old(lastNonopt)) && lastNonopt == optind
    {
      BlockSwap(argv, firstNonopt, lastNonopt, optind);
      firstNonopt := firstNonopt + (optind - lastNonopt);
      lastNonopt := optind;
    }

    /** Lines 566-570: options read since the last group of non-options join those in front. */
    method Regroup(argv: array<string>)
      requires Sound(argv) && nextchar == ""
      modifies argv, this`firstNonopt, this`lastNonopt, this`done, this`recent
      ensures Placed(argv, optind) && recent == [] && done == old(done) + old(recent)
    {
      hide Exchanged;
      RegroupedLayout(argv[..], args[0], done, skipped, recent, args[optind..]);
      if firstNonopt != lastNonopt && lastNonopt != optind {
        Exchange(argv);
      } else if lastNonopt != optind {
        firstNonopt := optind;
      }
      done, recent := done + recent, [];
    }

    /** Lines 575-577: further non-options extend the group of those skipped. */
    method Skip(argv: array<string>)
      requires Placed(argv, optind) && nextchar == "" && recent == []
      modifies this`optind, this`lastNonopt, this`skipped
      ensures Sound(argv) && (optind < |args| ==> !NonOption(args[optind]))
      ensures old(optind) <= optind && skipped == old(skipped) + args[old(optind)..optind]
      ensures Skips(c, args, old(optind), optind)
    {
      hide Skips, NonOption, Parse, Follow;
      ghost var first, old_ := optind, skipped;
      NothingSkipped(c, args, first);
      NothingBetween([args[0]] + done + skipped, args[optind..]);
      assert skipped + args[first..first] == skipped;
      while optind < argv.Length && NonOption(argv[optind])
        invariant first <= optind <= |args| == argv.Length && nextchar == "" && firstNonopt == old(firstNonopt)
        invariant skipped == old_ + args[first..optind]
        invariant argv[..] == [args[0]] + done + skipped + args[optind..]
        invariant Skips(c, args, first, optind)
      {
        SkipStep(argv[..], [args[0]] + done, old_, args, first, optind);
        SkipsOneMore(c, args, first, optind);
        optind := optind + 1;
        skipped := old_ + args[first..optind];
      }
      if optind < argv.Length {
        SameTail(argv[..], [args[0]] + done + skipped, args, optind);
      }
      NothingBetween([args[0]] + done + skipped, args[optind..]);
      lastNonopt := optind;
    }

    /** Lines 585-592: `--` joins the consumed elements in front of those skipped. */
    method FrontDashes(argv: array<string>)
      requires Sound(argv) && nextchar == "" && recent == [] && optind < |args| && args[optind] == "--"
      modifies argv, this`optind, this`firstNonopt, this`lastNonopt
      ensures optind == old(optind) + 1 && firstNonopt == 2 + |done| && argv.Length == |args|
      ensures argv[..] == [args[0]] + (done + ["--"]) + skipped + args[optind..]
    {
      hide Exchanged;
      assert args[optind..] == ["--"] + args[optind + 1..];
      NothingBetween([args[0]] + done + skipped, args[optind..]);
      InFront([args[0]] + done + skipped, ["--"], args[optind + 1..]);
      RegroupedLayout(argv[..], args[0], done, skipped, ["--"], args[optind + 1..]);
      optind := optind + 1;
      if firstNonopt != lastNonopt && lastNonopt != optind {
        Exchange(argv);
      } else if firstNonopt == lastNonopt {
        NoneSkipped([args[0]], done, skipped, args[optind..]);
        firstNonopt := optind;
      }
    }

    /** Lines 585-596: `--` ends the scan; everything after it counts as skipped. */
    method DoubleDash(argv: array<string>)
      requires Sound(argv) && nextchar == "" && recent == [] && optind < |args| && args[optind] == "--"
      modifies argv, this`optind, this`firstNonopt, this`lastNonopt, this`done, this`skipped
      ensures Sound(argv) && recent == [] && optind == |args|
      ensures done == old(done) + ["--"] && skipped == old(skipped) + args[old(optind) + 1..]
    {
      FrontDashes(argv);
      lastNonopt := argv.Length;
      NothingBehind([args[0]] + (done + ["--"]), skipped, args[optind..]);
      done, skipped := done + ["--"], skipped + args[optind..];
      optind := argv.Length;
    }

    /** Lines 562-578: skipped non-options end up behind all options read so far. */
    method Collect(argv: array<string>, ghost p: Parsed)
      requires HeadsFor(argv, p) && nextchar == ""
      modifies argv, this
      ensures started == old(started)
      ensures HeadsFor(argv, p) && nextchar == "" && recent == [] && (optind < |args| ==> !NonOption(args[optind]))
    {
      hide Parse, NonOption, Skips;
      ghost var i, before, tail := optind, skipped, Rest();
      Regroup(argv);
      assert Rest() == tail && p.consumed == done + tail.consumed == done + recent + tail.consumed;
      Skip(argv);
      SkipsAppend(c, args, i, optind, before);
    }

    /** Lines 597-607: at the end, optind goes back to the first of the skipped elements. */
    method Settle(argv: array<string>, ghost p: Parsed)
      requires HeadsFor(argv, p) && nextchar == "" && recent == [] && optind == argv.Length
      modifies this`optind
      ensures p.reports == [] && argv[..] == [args[0]] + p.consumed + p.others && optind == 1 + |p.consumed|
    {
      hide ParseWithin, NonOption;
      assert p.consumed == done && p.others == skipped && argv[..] == [args[0]] + done + skipped;
      if firstNonopt != lastNonopt {
        optind := firstNonopt;
      }
    }

    /** Lines 551-625: on to the next option element, or to the end of the scan. */
    method Advance(argv: array<string>, ghost p: Parsed) returns (finished: bool)
      requires HeadsFor(argv, p) && nextchar == ""
      modifies argv, this
      ensures started == old(started)
      ensures finished ==>
                p.reports == [] && argv[..] == [args[0]] + p.consumed + p.others && optind == 1 + |p.consumed|
      ensures !finished ==> HeadsFor(argv, p) && nextchar != ""
    {
      hide Parse, ParseWithin, NonOption;
      Collect(argv, p);
      AtHand(argv);
      if optind != argv.Length && argv[optind] == "--" {
        EndAtDashes(argv, p);
      }
      if optind == argv.Length {
        Settle(argv, p);
        return true;
      }
      EnterOption(argv, p);
      return false;
    }

    lemma AtHand(argv: array<string>)
      requires Sound(argv)
      ensures optind < |args| ==> argv[optind] == args[optind]
    {
      if optind < |args| {
        SameTail(argv[..], [args[0]] + done + skipped + recent, args, optind);
      }
    }

    /** Lines 580-596: at `--` the rest counts as skipped. */
    method EndAtDashes(argv: array<string>, ghost p: Parsed)
      requires HeadsFor(argv, p) && nextchar == "" && recent == [] && optind < |args| && args[optind] == "--"
      requires !NonOption(args[optind])
      modifies argv, this
      ensures started == old(started)
      ensures HeadsFor(argv, p) && nextchar == "" && recent == [] && optind == |args|
    {
      hide Parse, ParseWithin, NonOption;
      ParseUnfolds(c, args, optind);
      DoubleDash(argv);
      ParseUnfolds(c, args, optind);
    }

    /** Lines 621-625: past the dashes of an option element. */
    method EnterOption(argv: array<string>, ghost p: Parsed)
      requires HeadsFor(argv, p) && nextchar == "" && optind < |args| && argv[optind] == args[optind]
      requires !NonOption(args[optind]) && args[optind] != "--"
      modifies this`nextchar
      ensures HeadsFor(argv, p) && nextchar != ""
    {
      hide Parse, ParseWithin, NonOption;
      ParseUnfolds(c, args, optind);
      nextchar := FirstChar(c, argv[optind]);
    }

    /** Lines 643-741 and 756-763: an option that may have a long name. `short` asks for lines 769 on. */
    method DecodeLong(argv: array<string>) returns (r: Report, short: bool)
      requires argv.Length == |args| && optind < |args| && nextchar != "" && TriesLong(c, argv[optind])
      modifies this`optind, this`nextchar
      ensures short ==> optind == old(optind) && nextchar == old(nextchar)
      ensures short ==> Decode(c, argv[old(optind)], old(nextchar), Follow(argv[..], old(optind))) ==
                        DecodeShort(c, old(nextchar), Follow(argv[..], old(optind)))
      ensures !short ==> old(optind) <= optind &&
                         Decode(c, argv[old(optind)], old(nextchar), Follow(argv[..], old(optind))) ==
                         Decoded(r, nextchar, optind - old(optind))
    {
      short := false;
      var s := argv[optind];
      var n := NameEnd(nextchar);
      var pfound, exact, ambig := FindLong(c.longopts.value, nextchar[..n]);
      if ambig && !exact {
        nextchar := "";
        optind := optind + 1;
        return Report(QUESTION, None, None, Some(0)), false;
      }
      if pfound.Some? {
        var o, optarg := c.longopts.value[pfound.value], None;
        optind := optind + 1;
        if n < |nextchar| {
          if o.hasArg != 0 {
            optarg := Some(nextchar[n + 1..]);
          } else {
            nextchar := "";
            return Report(QUESTION, None, None, Some(o.val)), false;
          }
        } else if o.hasArg == 1 {
          if optind < argv.Length {
            optarg := Some(argv[optind]);
            optind := optind + 1;
          } else {
            nextchar := "";
            return Report(if At(c.optstring, 0) == ':' then COLON else QUESTION, None, None, Some(o.val)), false;
          }
        }
        nextchar := "";
        return Report(if o.flag then 0 else o.val, optarg, pfound, None), false;
      }
      if !c.longOnly || At(s, 1) == '-' || IndexOf(c.optstring, nextchar[0]).None? {
        nextchar := "";
        optind := optind + 1;
        return Report(QUESTION, None, None, Some(0)), false;
      }
      return Report(QUESTION, None, None, None), true;
    }

    /** Lines 769-791 and 915-961: the next short option character. */
    method DecodeChar(argv: array<string>) returns (r: Report)
      requires argv.Length == |args| && optind < |args| && nextchar != ""
      modifies this`optind, this`nextchar
      ensures old(optind) <= optind
      ensures DecodeShort(c, old(nextchar), Follow(argv[..], old(optind))) == Decoded(r, nextchar, optind - old(optind))
    {
      var ch := nextchar[0];
      nextchar := nextchar[1..];
      var temp := IndexOf(c.optstring, ch);
      if nextchar == "" {
        optind := optind + 1;
      }
      if temp.None? || ch == ':' {
        return Report(QUESTION, None, None, Some(ch as int));
      }
      var code, optarg, optopt := ch as int, None, None;
      if At(c.optstring, temp.value + 1) == ':' {
        if At(c.optstring, temp.value + 2) == ':' {
          if nextchar != "" {
            optarg := Some(nextchar);
            optind := optind + 1;
          }
        } else {
          if nextchar != "" {
            optarg := Some(nextchar);
            optind := optind + 1;
          } else if optind == argv.Length {
            optopt := Some(ch as int);
            code := if At(c.optstring, 0) == ':' then COLON else QUESTION;
          } else {
            optarg := Some(argv[optind]);
            optind := optind + 1;
          }
        }
        nextchar := "";
      }
      return Report(code, optarg, None, optopt);
    }

    /** Lines 643-961: one option out of the element being scanned. */
    method DecodeOne(argv: array<string>) returns (r: Report)
      requires argv.Length == |args| && optind < |args| && nextchar != ""
      modifies this`optind, this`nextchar
      ensures old(optind) <= optind
      ensures Decode(c, argv[old(optind)], old(nextchar), Follow(argv[..], old(optind))) ==
              Decoded(r, nextchar, optind - old(optind))
    {
      hide Decode, DecodeShort, TriesLong;
      var short := true;
      if TriesLong(c, argv[optind]) {
        r, short := DecodeLong(argv);
      } else {
        DecodeTriesShort(c, argv[optind], nextchar, Follow(argv[..], optind));
      }
      if short {
        r := DecodeChar(argv);
      }
    }

    method DecodeCurrent(argv: array<string>, ghost p: Parsed) returns (r: Report)
      requires HeadsFor(argv, p) && nextchar != ""
      modifies this`optind, this`nextchar, this`recent
      ensures p.reports != [] && r == p.reports[0] && HeadsFor(argv, p.(reports := p.reports[1..]))
    {
      hide Parse, ParseWithin, Decode, NonOption;
      ghost var i, next := optind, nextchar;
      SameTail(argv[..], [args[0]] + done + skipped + recent, args, i);
      r := DecodeOne(argv);
      WithinUnfolds(c, args, i, next);
      ghost var t := args[i..optind];
      assert args[i..] == t + args[optind..];
      Rebracket([args[0]] + done + skipped, recent, t, args[optind..]);
      if nextchar == "" {
        Rebracket(done, recent, t, Parse(c, args, optind).consumed);
      } else {
        assert recent + t == recent;
      }
      recent := recent + t;
    }

    /** Lines 407-409 and 530-537: the first call initialises the state. */
    method Start(argv: array<string>, ghost p: Parsed)
      requires !started && argv.Length >= 1 && optind == 1 && args == argv[..] && p == Parse(c, args, 1)
      modifies this
      ensures HeadsFor(argv, p) && nextchar == "" && started
    {
      hide Parse;
      firstNonopt, lastNonopt := optind, optind;
      nextchar := "";
      started := true;
      done, skipped, recent := [], [], [];
    }

    /** One call of _getopt_internal; no report stands for the return value -1. */
    method Next(argv: array<string>, ghost p: Parsed) returns (r: Option<Report>)
      requires if started then HeadsFor(argv, p)
               else argv.Length >= 1 && optind == 1 && args == argv[..] && p == Parse(c, args, 1)
      modifies argv, this
      ensures started
      ensures r.None? ==> p.reports == [] && argv[..] == [args[0]] + p.consumed + p.others && optind == 1 + |p.consumed|
      ensures r.Some? ==> p.reports != [] && r.value == p.reports[0] && HeadsFor(argv, p.(reports := p.reports[1..]))
    {
      hide HeadsFor, Parse;
      if !started {
        Start(argv, p);
      }
      var finished := false;
      if nextchar == "" {
        finished := Advance(argv, p);
      }
      if finished {
        return None;
      }
      var report := DecodeCurrent(argv, p);
      return Some(report);
    }
  }

  /** What a run of getopt does to the vector and reports, in PERMUTE mode. */
  method Run(c: Config, argv: array<string>) returns (reports: seq<Report>, optind: nat)
    requires argv.Length >= 1 && NoLongW(c) && Permutes(c)
    modifies argv
    ensures var args := old(argv[..]);
            var p := Parse(c, args, 1);
            && reports == p.reports
            && argv[..] == [args[0]] + p.consumed + p.others
            && optind == 1 + |p.consumed|
  {
    hide Parse, ParseWithin, Scanner.HeadsFor;
    var scanner := new Scanner(c, argv);
    ghost var p := Parse(c, argv[..], 1);
    reports := [];
    var r := scanner.Next(argv, p);
    ghost var left := if r.Some? then p.(reports := p.reports[1..]) else p;
    while r.Some?
      invariant fresh(scanner) && scanner.started && scanner.c == c && scanner.args == old(argv[..])
      invariant r.Some? ==> scanner.HeadsFor(argv, left) && p == left.(reports := reports + [r.value] + left.reports)
      invariant r.None? ==> p.reports == reports && argv[..] == [old(argv[..])[0]] + p.consumed + p.others
      invariant r.None? ==> scanner.optind == 1 + |p.consumed|
      decreases if r.Some? then 1 + |left.reports| else 0
    {
      reports := reports + [r.value];
      r := scanner.Next(argv, left);
      left := if r.Some? then left.(reports := left.reports[1..]) else left;
    }
    optind := scanner.optind;
  }

  lemma NothingBehind(x: seq<string>, y: seq<string>, z: seq<string>)
    ensures x + y + z == x + (y + z) + [] + []
  {
  }

  lemma NoneSkipped(zero: seq<string>, done: seq<string>, skipped: seq<string>, tail: seq<string>)
    requires skipped == []
    ensures zero + done + skipped + ["--"] + tail == zero + (done + ["--"]) + skipped + tail
  {
  }

  lemma NothingBetween(x: seq<string>, y: seq<string>)
    ensures x + [] + y == x + y
  {
  }

  lemma Rebracket(x: seq<string>, recent: seq<string>, t: seq<string>, tail: seq<string>)
    ensures x + recent + (t + tail) == x + (recent + t) + tail
  {
  }

  lemma SameTail(a: seq<string>, head: seq<string>, args: seq<string>, i: nat)
    requires |a| == |args| && i < |args| && a == head + args[i..]
    ensures a[i] == args[i] && Follow(a, i) == Follow(args, i)
  {
    assert |head| == i;
    assert a[i] == args[i..][0];
    if i + 1 < |args| {
      assert a[i + 1] == args[i..][1];
    }
  }

  /** The elements i to j - 1 are non-options. */
  ghost predicate Skips(c: Config, args: seq<string>, i: nat, j: nat)
    requires i <= j <= |args|
  {
    var p, q := Parse(c, args, i), Parse(c, args, j);
    p == Parsed(q.reports, q.consumed, args[i..j] + q.others)
  }

  lemma SkipsAppend(c: Config, args: seq<string>, i: nat, j: nat, before: seq<string>)
    requires i <= j <= |args| && Skips(c, args, i, j)
    ensures before + Parse(c, args, i).others == before + args[i..j] + Parse(c, args, j).others
    ensures Parse(c, args, i).reports == Parse(c, args, j).reports
    ensures Parse(c, args, i).consumed == Parse(c, args, j).consumed
  {
  }

  lemma NothingSkipped(c: Config, args: seq<string>, i: nat)
    requires i <= |args|
    ensures Skips(c, args, i, i)
  {
  }

  lemma SkipStep(a: seq<string>, front: seq<string>, before: seq<string>, args: seq<string>, first: nat, i: nat)
    requires first <= i < |args| == |a| && a == front + (before + args[first..i]) + args[i..]
    ensures a[i] == args[i] && a == front + (before + args[first..i + 1]) + args[i + 1..]
  {
    SameTail(a, front + (before + args[first..i]), args, i);
    assert args[i..] == [args[i]] + args[i + 1..];
    assert before + args[first..i + 1] == before + args[first..i] + [args[i]];
    Rebracket(front, before + args[first..i], [args[i]], args[i + 1..]);
  }

  lemma SkipsOneMore(c: Config, args: seq<string>, i: nat, j: nat)
    requires i <= j < |args| && Skips(c, args, i, j) && NonOption(args[j])
    ensures Skips(c, args, i, j + 1)
  {
    hide Parse, NonOption;
    ParseNonOption(c, args, j);
    SliceMore(args, i, j, Parse(c, args, j + 1).others);
  }

  lemma SliceMore(args: seq<string>, i: nat, j: nat, rest: seq<string>)
    requires i <= j < |args|
    ensures args[i..j] + ([args[j]] + rest) == args[i..j + 1] + rest
  {
    assert args[i..j + 1] == args[i..j] + [args[j]];
  }

  lemma DecodeTriesShort(c: Config, s: string, next: string, follow: Option<string>)
    requires next != "" && !TriesLong(c, s)
    ensures Decode(c, s, next, follow) == DecodeShort(c, next, follow)
  {
  }
}
