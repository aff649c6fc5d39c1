/**
 What siege-4.1.7/src/getopt.c makes of an argument vector, told without any
 permutation: elements are read from left to right, each once.

 A string stands for the characters before its terminating NUL.
 */
module GetoptSpec {
  import opened Options

  /** struct option; `flag` says whether its flag pointer is non-null. */
  datatype LongOpt = LongOpt(name: string, hasArg: int, flag: bool, val: int)

  /** The arguments of _getopt_internal that stay the same during a run; no table means a null `longopts`. */
  datatype Config = Config(optstring: string, longopts: Option<seq<LongOpt>>, longOnly: bool)

  /** What one call reports: return value, optarg, *longind and optopt (None when the call does not set it). */
  datatype Report = Report(code: int, optarg: Option<string>, longind: Option<nat>, optopt: Option<int>)

  /** The effect of one call on the element being scanned: what is left of it, and how many elements are done with. */
  datatype Decoded = Decoded(report: Report, rest: string, taken: nat)

  const QUESTION: int := '?' as int
  const COLON: int := ':' as int

  function At(s: string, i: nat): char {
    if i < |s| then s[i] else '\0'
  }

  /** strchr, for a character other than NUL. */
  function IndexOf(s: string, c: char): (i: Option<nat>)
    ensures i.None? <==> c !in s
    ensures i.Some? ==> i.value < |s| && s[i.value] == c && c !in s[..i.value]
  {
    if s == "" then None
    else if s[0] == c then Some(0)
    else match IndexOf(s[1..], c) case None => None case Some(i) => Some(i + 1)
  }

  predicate NonOption(s: string) {
    At(s, 0) != '-' || At(s, 1) == '\0'
  }

  /** No option character of the configuration uses the `W;` extension. */
  predicate NoLongW(c: Config) {
    var i := IndexOf(c.optstring, 'W');
    i.Some? ==> At(c.optstring, i.value + 1) != ';'
  }

  /** The ordering is PERMUTE, if the environment does not ask for another. */
  predicate Permutes(c: Config) {
    At(c.optstring, 0) != '-' && At(c.optstring, 0) != '+'
  }

  /** Where the option characters of an element start. */
  function FirstChar(c: Config, s: string): (f: string)
    requires !NonOption(s)
    ensures |f| <= |s| && (s != "--" ==> f != "")
  {
    if c.longopts.Some? && s[1] == '-' then s[2..] else s[1..]
  }

  /** Length of the option name at `next`: up to '=' or the end. */
  function NameLength(next: string): (n: nat)
    ensures n <= |next| && '=' !in next[..n] && (n < |next| ==> next[n] == '=')
  {
    if next == "" || next[0] == '=' then 0 else 1 + NameLength(next[1..])
  }

  datatype Match = NoMatch | Found(index: nat) | Ambiguous

  predicate Abbreviates(name: string, o: LongOpt) {
    name <= o.name
  }

  /** An exact match wins; else an abbreviation must be the only one. */
  ghost predicate IsMatch(opts: seq<LongOpt>, name: string, m: Match) {
    match m
    case Found(i) =>
      && i < |opts| && Abbreviates(name, opts[i])
      && ((opts[i].name == name && forall k :: 0 <= k < i ==> opts[k].name != name) ||
          (forall k :: 0 <= k < |opts| ==> opts[k].name != name && (k != i ==> !Abbreviates(name, opts[k]))))
    case NoMatch => forall k :: 0 <= k < |opts| ==> !Abbreviates(name, opts[k])
    case Ambiguous =>
      && (forall k :: 0 <= k < |opts| ==> opts[k].name != name)
      && exists i, j :: 0 <= i < j < |opts| && Abbreviates(name, opts[i]) && Abbreviates(name, opts[j])
  }

  lemma MatchIsUnique(opts: seq<LongOpt>, name: string, m: Match, m': Match)
    requires IsMatch(opts, name, m) && IsMatch(opts, name, m')
    ensures m == m'
  {
  }

  /** The outcome with one more option, number i, behind those that gave m; `exact` says whether m is an exact match. */
  function NextMatch(name: string, o: LongOpt, i: nat, m: Match, exact: bool): Match {
    if exact then m
    else if o.name == name then Found(i)
    else if !Abbreviates(name, o) then m
    else if m.NoMatch? then Found(i)
    else Ambiguous
  }

  lemma NextMatchFound(opts: seq<LongOpt>, name: string, o: LongOpt, m: Match)
    requires IsMatch(opts, name, m) && m.Found? && (opts[m.index].name == name || !Abbreviates(name, o))
    requires opts[m.index].name == name || o.name != name
    ensures IsMatch(opts + [o], name, m)
  {
  }

  lemma NextMatchExact(opts: seq<LongOpt>, name: string, o: LongOpt, m: Match)
    requires IsMatch(opts, name, m) && (m.Found? ==> opts[m.index].name != name) && o.name == name
    ensures IsMatch(opts + [o], name, Found(|opts|))
  {
  }

  lemma NextMatchSecond(opts: seq<LongOpt>, name: string, o: LongOpt, m: Match)
    requires IsMatch(opts, name, m) && m.Found? && opts[m.index].name != name
    requires o.name != name && Abbreviates(name, o)
    ensures IsMatch(opts + [o], name, Ambiguous)
  {
    var all := opts + [o];
    assert Abbreviates(name, all[m.index]) && Abbreviates(name, all[|opts|]);
  }

  lemma NextMatchRest(opts: seq<LongOpt>, name: string, o: LongOpt, m: Match)
    requires IsMatch(opts, name, m) && !m.Found? && o.name != name
    ensures IsMatch(opts + [o], name, NextMatch(name, o, |opts|, m, false))
  {
    var all := opts + [o];
    if m.Ambiguous? {
      var i, j :| 0 <= i < j < |opts| && Abbreviates(name, opts[i]) && Abbreviates(name, opts[j]);
      assert Abbreviates(name, all[i]) && Abbreviates(name, all[j]);
    }
  }

  lemma NextIsMatch(opts: seq<LongOpt>, name: string, o: LongOpt, m: Match)
    requires IsMatch(opts, name, m)
    ensures m.Found? ==> m.index < |opts|
    ensures IsMatch(opts + [o], name, NextMatch(name, o, |opts|, m, m.Found? && opts[m.index].name == name))
  {
    FoundWithin(opts, name, m);
    hide IsMatch, Abbreviates;
    if m.Found? && (opts[m.index].name == name || (o.name != name && !Abbreviates(name, o))) {
      NextMatchFound(opts, name, o, m);
    } else if o.name == name {
      NextMatchExact(opts, name, o, m);
    } else if m.Found? {
      NextMatchSecond(opts, name, o, m);
    } else {
      NextMatchRest(opts, name, o, m);
    }
  }

  lemma FoundWithin(opts: seq<LongOpt>, name: string, m: Match)
    requires IsMatch(opts, name, m)
    ensures m.Found? ==> m.index < |opts|
  {
  }

  /** Lookup as a function: scan for an exact match, and failing that count the abbreviations. */
  function Lookup(opts: seq<LongOpt>, name: string): (m: Match)
    ensures IsMatch(opts, name, m)
  {
    if opts == [] then NoMatch
    else
      var before, last := opts[..|opts| - 1], opts[|opts| - 1];
      var m := Lookup(before, name);
      NextIsMatch(before, name, last, m);
      assert before + [last] == opts;
      NextMatch(name, last, |before|, m, m.Found? && before[m.index].name == name)
  }

  // -------------------------------------------------------------------------
  // One call
  // -------------------------------------------------------------------------

  predicate TriesLong(c: Config, s: string) {
    c.longopts.Some?
    && (At(s, 1) == '-' || (c.longOnly && (At(s, 2) != '\0' || IndexOf(c.optstring, At(s, 1)).None?)))
  }

  function MissingArgument(c: Config): int {
    if At(c.optstring, 0) == ':' then COLON else QUESTION
  }

  /** A long option was found at `i`; `n` is the length of its name in `next`. */
  function DecodeFound(c: Config, o: LongOpt, i: nat, next: string, n: nat, follow: Option<string>): Decoded
    requires n <= |next|
  {
    var code := if o.flag then 0 else o.val;
    if n < |next| then
      if o.hasArg != 0 then Decoded(Report(code, Some(next[n + 1..]), Some(i), None), "", 1)
      else Decoded(Report(QUESTION, None, None, Some(o.val)), "", 1)
    else if o.hasArg == 1 then
      if follow.Some? then Decoded(Report(code, follow, Some(i), None), "", 2)
      else Decoded(Report(MissingArgument(c), None, None, Some(o.val)), "", 1)
    else Decoded(Report(code, None, Some(i), None), "", 1)
  }

  /** The next short option character. */
  function DecodeShort(c: Config, next: string, follow: Option<string>): Decoded
    requires next != ""
  {
    var ch, rest := next[0], next[1..];
    var spec := IndexOf(c.optstring, ch);
    var step := if rest == "" then 1 else 0;
    if spec.None? || ch == ':' then Decoded(Report(QUESTION, None, None, Some(ch as int)), rest, step)
    else if At(c.optstring, spec.value + 1) != ':' then Decoded(Report(ch as int, None, None, None), rest, step)
    else if rest != "" then Decoded(Report(ch as int, Some(rest), None, None), "", 1)
    else if At(c.optstring, spec.value + 2) == ':' then Decoded(Report(ch as int, None, None, None), "", 1)
    else if follow.Some? then Decoded(Report(ch as int, follow, None, None), "", 2)
    else Decoded(Report(MissingArgument(c), None, None, Some(ch as int)), "", 1)
  }

  /** One call inside element `s`, of which `next` is still to be read; `follow` is the element after it. */
  function Decode(c: Config, s: string, next: string, follow: Option<string>): (d: Decoded)
    requires next != ""
    ensures |d.rest| < |next| && (d.rest == "" <==> d.taken > 0)
    ensures d.taken <= if follow.Some? then 2 else 1
  {
    if TriesLong(c, s) then
      var n := NameLength(next);
      match Lookup(c.longopts.value, next[..n])
      case Ambiguous => Decoded(Report(QUESTION, None, None, Some(0)), "", 1)
      case Found(i) => DecodeFound(c, c.longopts.value[i], i, next, n, follow)
      case NoMatch =>
        if !c.longOnly || At(s, 1) == '-' || IndexOf(c.optstring, next[0]).None?
        then Decoded(Report(QUESTION, None, None, Some(0)), "", 1)
        else DecodeShort(c, next, follow)
    else DecodeShort(c, next, follow)
  }

  // -------------------------------------------------------------------------
  // A whole vector
  // -------------------------------------------------------------------------

  /** The reports in order, the elements consumed as options and their arguments (and `--`), and all the others. */
  datatype Parsed = Parsed(reports: seq<Report>, consumed: seq<string>, others: seq<string>)

  function Follow(args: seq<string>, i: nat): Option<string> {
    if i + 1 < |args| then Some(args[i + 1]) else None
  }

  /** Reading from element i on. */
  function Parse(c: Config, args: seq<string>, i: nat): Parsed
    requires i <= |args|
    decreases |args| - i, if i < |args| then |args[i]| + 1 else 0
  {
    if i == |args| then Parsed([], [], [])
    else if NonOption(args[i]) then
      var p := Parse(c, args, i + 1);
      Parsed(p.reports, p.consumed, [args[i]] + p.others)
    else if args[i] == "--" then Parsed([], ["--"], args[i + 1..])
    else ParseWithin(c, args, i, FirstChar(c, args[i]))
  }

  /** Reading on inside element i, of which `next` is left. */
  function ParseWithin(c: Config, args: seq<string>, i: nat, next: string): Parsed
    requires i < |args| && 0 < |next| <= |args[i]|
    decreases |args| - i, |next|
  {
    var d := Decode(c, args[i], next, Follow(args, i));
    if d.rest != "" then
      var p := ParseWithin(c, args, i, d.rest);
      Parsed([d.report] + p.reports, p.consumed, p.others)
    else
      var p := Parse(c, args, i + d.taken);
      Parsed([d.report] + p.reports, args[i..i + d.taken] + p.consumed, p.others)
  }

  lemma ParseUnfolds(c: Config, args: seq<string>, i: nat)
    requires i <= |args|
    ensures i == |args| ==> Parse(c, args, i) == Parsed([], [], [])
    ensures i < |args| && !NonOption(args[i]) && args[i] == "--" ==>
              Parse(c, args, i) == Parsed([], ["--"], args[i + 1..])
    ensures i < |args| && !NonOption(args[i]) && args[i] != "--" ==>
              Parse(c, args, i) == ParseWithin(c, args, i, FirstChar(c, args[i]))
  {
  }

  lemma ParseNonOption(c: Config, args: seq<string>, i: nat)
    requires i < |args| && NonOption(args[i])
    ensures var p := Parse(c, args, i + 1); Parse(c, args, i) == Parsed(p.reports, p.consumed, [args[i]] + p.others)
  {
    hide NonOption;
  }

  lemma WithinUnfolds(c: Config, args: seq<string>, i: nat, next: string)
    requires i < |args| && 0 < |next| <= |args[i]|
    ensures var d, p := Decode(c, args[i], next, Follow(args, i)), ParseWithin(c, args, i, next);
            if d.rest != "" then
              var q := ParseWithin(c, args, i, d.rest);
              p == Parsed([d.report] + q.reports, q.consumed, q.others)
            else
              var q := Parse(c, args, i + d.taken);
              p == Parsed([d.report] + q.reports, args[i..i + d.taken] + q.consumed, q.others)
  {
  }

  /** The elements of s that the mask marks with b, in their order. */
  function Chosen(s: seq<string>, mask: seq<bool>, b: bool): seq<string>
    requires |mask| == |s|
  {
    if s == [] then [] else (if mask[0] == b then [s[0]] else []) + Chosen(s[1..], mask[1..], b)
  }

  lemma {:induction false} ChosenAppend(s: seq<string>, m: seq<bool>, t: seq<string>, n: seq<bool>, b: bool)
    requires |m| == |s| && |n| == |t|
    ensures Chosen(s + t, m + n, b) == Chosen(s, m, b) + Chosen(t, n, b)
  {
    hide Chosen;
    ChosenUnfolds(s, m, b);
    if s == [] {
      assert s + t == t && m + n == n && [] + Chosen(t, n, b) == Chosen(t, n, b);
    } else {
      ChosenUnfolds(s + t, m + n, b);
      assert (s + t)[1..] == s[1..] + t && (m + n)[1..] == m[1..] + n;
      ChosenAppend(s[1..], m[1..], t, n, b);
      InFront(if m[0] == b then [s[0]] else [], Chosen(s[1..], m[1..], b), Chosen(t, n, b));
    }
  }

  lemma ChosenUnfolds(s: seq<string>, mask: seq<bool>, b: bool)
    requires |mask| == |s|
    ensures s == [] ==> Chosen(s, mask, b) == []
    ensures s != [] ==>
              Chosen(s, mask, b) == (if mask[0] == b then [s[0]] else []) + Chosen(s[1..], mask[1..], b)
  {
  }

  lemma InFront(x: seq<string>, y: seq<string>, z: seq<string>)
    ensures x + (y + z) == x + y + z
  {
  }

  lemma {:induction false} ChosenAll(s: seq<string>, mask: seq<bool>, b: bool)
    requires |mask| == |s| && forall k :: 0 <= k < |s| ==> mask[k] == b
    ensures Chosen(s, mask, b) == s && Chosen(s, mask, !b) == []
  {
    if s != [] {
      ChosenAll(s[1..], mask[1..], b);
      assert [s[0]] + s[1..] == s;
    }
  }

  /** One stretch of elements that all go the same way, and then the rest. */
  lemma Stretch(s: seq<string>, b: bool, t: seq<string>, n: seq<bool>) returns (mask: seq<bool>)
    requires |n| == |t|
    ensures |mask| == |s + t|
    ensures Chosen(s + t, mask, b) == s + Chosen(t, n, b) && Chosen(s + t, mask, !b) == Chosen(t, n, !b)
  {
    var m := seq(|s|, _ => b);
    mask := m + n;
    ChosenAll(s, m, b);
    ChosenAppend(s, m, t, n, b);
    ChosenAppend(s, m, t, n, !b);
    assert [] + Chosen(t, n, !b) == Chosen(t, n, !b);
  }

  /**
   In original order: each element read is either consumed or one of the others,
   and neither the ones nor the others change their order.
   */
  lemma {:induction false} ParseKeepsOrder(c: Config, args: seq<string>, i: nat) returns (mask: seq<bool>)
    requires i <= |args|
    ensures |mask| == |args| - i
    ensures var p := Parse(c, args, i);
            p.consumed == Chosen(args[i..], mask, true) && p.others == Chosen(args[i..], mask, false)
    decreases |args| - i, if i < |args| then |args[i]| + 1 else 0
  {
    hide Chosen, NonOption, Decode;
    if i == |args| {
      mask := [];
      ChosenAll([], [], true);
    } else {
      assert args[i..] == [args[i]] + args[i + 1..];
      if NonOption(args[i]) {
        mask := ParseKeepsOrder(c, args, i + 1);
        mask := Stretch([args[i]], false, args[i + 1..], mask);
      } else if args[i] == "--" {
        var rest := seq(|args| - i - 1, _ => false);
        ChosenAll(args[i + 1..], rest, false);
        mask := Stretch([args[i]], true, args[i + 1..], rest);
        assert ["--"] + [] == ["--"];
      } else {
        mask := ParseWithinKeepsOrder(c, args, i, FirstChar(c, args[i]));
      }
    }
  }

  lemma {:induction false} ParseWithinKeepsOrder(c: Config, args: seq<string>, i: nat, next: string)
    returns (mask: seq<bool>)
    requires i < |args| && 0 < |next| <= |args[i]|
    ensures |mask| == |args| - i
    ensures var p := ParseWithin(c, args, i, next);
            p.consumed == Chosen(args[i..], mask, true) && p.others == Chosen(args[i..], mask, false)
    decreases |args| - i, |next|
  {
    hide Chosen, Decode;
    var d := Decode(c, args[i], next, Follow(args, i));
    if d.rest != "" {
      mask := ParseWithinKeepsOrder(c, args, i, d.rest);
    } else {
      mask := ParseKeepsOrder(c, args, i + d.taken);
      mask := Stretch(args[i..i + d.taken], true, args[i + d.taken..], mask);
      assert args[i..] == args[i..i + d.taken] + args[i + d.taken..];
    }
  }

  lemma {:induction false} ChosenPartitions(s: seq<string>, mask: seq<bool>)
    requires |mask| == |s|
    ensures var x, y := Chosen(s, mask, true), Chosen(s, mask, false);
            multiset(x + y) == multiset(s) && |x| + |y| == |s|
  {
    hide Chosen;
    ChosenUnfolds(s, mask, true);
    ChosenUnfolds(s, mask, false);
    if s != [] {
      ChosenPartitions(s[1..], mask[1..]);
      PutBack(s, Chosen(s[1..], mask[1..], true), Chosen(s[1..], mask[1..], false));
    }
  }

  lemma PutBack(s: seq<string>, x: seq<string>, y: seq<string>)
    requires s != [] && multiset(x + y) == multiset(s[1..])
    ensures multiset([s[0]] + x + ([] + y)) == multiset([] + x + ([s[0]] + y)) == multiset(s)
  {
    assert s == [s[0]] + s[1..] && [] + x == x && [] + y == y;
  }

  /** Nothing is lost or invented: consumed and other elements are together the elements read. */
  lemma ParsePartitions(c: Config, args: seq<string>, i: nat)
    requires i <= |args|
    ensures var p := Parse(c, args, i);
            multiset(p.consumed + p.others) == multiset(args[i..]) && |p.consumed| + |p.others| == |args| - i
  {
    hide Parse, Chosen;
    var mask := ParseKeepsOrder(c, args, i);
    ChosenPartitions(args[i..], mask);
  }
}
