/**
 Writing and reading a command line. An argument vector is put together from
 items (options with and without values, words, mistakes), and reading it gives
 back the items: one report for each option, in order, with its value.
 */
module GetoptLaws {
  import opened Options
  import opened GetoptSpec

  /** An option at the end of an element of short ones, with its value behind it or in the next element. */
  datatype Valued = Valued(ch: char, value: Option<string>, joined: bool)

  /**
   What a user writes: a word that is no option, a long option, a long option
   that the table does not take that way, or an element of short options.
   */
  datatype Item =
    | Word(text: string)
    | Long(dashes: string, name: string, value: Option<string>, joined: bool)
    | Wrong(dashes: string, name: string, value: Option<string>)
    | Short(flags: string, valued: Option<Valued>)

  /** What can stand at the end: nothing, `--` and what follows, or an option whose argument is missing. */
  datatype End =
    | Nothing
    | Dashes(rest: seq<string>)
    | LongMissing(dashes: string, name: string)
    | ShortMissing(flags: string, ch: char)

  // -------------------------------------------------------------------------
  // Writing
  // -------------------------------------------------------------------------

  function WithValue(s: string, value: Option<string>): string {
    if value.Some? then s + "=" + value.value else s
  }

  function Write(item: Item): (args: seq<string>)
    ensures 1 <= |args| <= 2
  {
    match item
    case Word(text) => [text]
    case Long(dashes, name, value, joined) =>
      if value.Some? && !joined then [dashes + name, value.value] else [WithValue(dashes + name, value)]
    case Wrong(dashes, name, value) => [WithValue(dashes + name, value)]
    case Short(flags, None) => ["-" + flags]
    case Short(flags, Some(Valued(ch, value, joined))) =>
      if value.None? then ["-" + (flags + [ch])]
      else if joined then ["-" + (flags + ([ch] + value.value))]
      else ["-" + (flags + [ch]), value.value]
  }

  function WriteAll(items: seq<Item>): seq<string> {
    if items == [] then [] else Write(items[0]) + WriteAll(items[1..])
  }

  function WriteEnd(end: End): seq<string> {
    match end
    case Nothing => []
    case Dashes(rest) => ["--"] + rest
    case LongMissing(dashes, name) => [dashes + name]
    case ShortMissing(flags, ch) => ["-" + (flags + [ch])]
  }

  // -------------------------------------------------------------------------
  // What the configuration says of an option
  // -------------------------------------------------------------------------

  datatype Arity = Unknown | Plain | Needs | May

  /** A character of optstring, and whether one or two colons follow it. */
  function ArityOf(c: Config, ch: char): Arity {
    var i := IndexOf(c.optstring, ch);
    if i.None? || ch == ':' then Unknown
    else if "::" <= c.optstring[i.value + 1..] then May
    else if ":" <= c.optstring[i.value + 1..] then Needs
    else Plain
  }

  /** `--name`, or `-name` where the configuration allows it and it cannot be a single short option. */
  predicate Marked(c: Config, dashes: string, name: string, more: bool) {
    && c.longopts.Some? && name != "" && '=' !in name && '\0' !in name
    && (dashes == "--" ||
        (dashes == "-" && c.longOnly && name[0] != '-' && (more || |name| > 1 || name[0] !in c.optstring)))
  }

  /** Position k of the characters behind a dash is read as a short option. */
  predicate ReadShort(c: Config, text: string, k: nat)
    requires k < |text|
  {
    || c.longopts.None? || !c.longOnly || (|text| == 1 && text[0] in c.optstring)
    || (text[k] in c.optstring && Lookup(c.longopts.value, text[k..][..NameLength(text[k..])]).NoMatch?)
  }

  /** A dash and `text` start with the short options `flags`, none of which takes an argument, and then n more. */
  predicate Flags(c: Config, text: string, flags: string, n: nat) {
    && |flags| + n <= |text| && flags <= text && text != "" && text[0] != '\0'
    && (text[0] != '-' || (c.longopts.None? && text != "-"))
    && (forall k :: 0 <= k < |flags| ==> !ArityOf(c, flags[k]).Needs? && !ArityOf(c, flags[k]).May?)
    && (forall k :: 0 <= k < |flags| + n ==> ReadShort(c, text, k))
  }

  /** What can be written for a configuration. */
  predicate Fits(c: Config, item: Item) {
    match item
    case Word(text) => text == "" || text[0] != '-' || text == "-"
    case Long(dashes, name, value, joined) =>
      && Marked(c, dashes, name, value.Some? && joined)
      && var m := Lookup(c.longopts.value, name);
         m.Found? &&
         var arg := c.longopts.value[m.index].hasArg;
         if value.None? then arg != 1 else if joined then arg != 0 else arg == 1
    case Wrong(dashes, name, value) =>
      && Marked(c, dashes, name, value.Some?)
      && var m := Lookup(c.longopts.value, name);
         if m.Found? then c.longopts.value[m.index].hasArg == 0 && value.Some?
         else m.Ambiguous? || dashes == "--" || name[0] !in c.optstring
    case Short(flags, None) => flags != "" && Flags(c, flags, flags, 0)
    case Short(flags, Some(Valued(ch, value, joined))) =>
      && Flags(c, Write(item)[0][1..], flags, 1)
      && (if value.None? then ArityOf(c, ch).May?
          else if joined then (ArityOf(c, ch).May? || ArityOf(c, ch).Needs?) && value.value != ""
          else ArityOf(c, ch).Needs?)
  }

  predicate EndFits(c: Config, end: End) {
    match end
    case Nothing => true
    case Dashes(_) => true
    case LongMissing(dashes, name) =>
      && Marked(c, dashes, name, false)
      && var m := Lookup(c.longopts.value, name);
         m.Found? && c.longopts.value[m.index].hasArg == 1
    case ShortMissing(flags, ch) => Flags(c, flags + [ch], flags, 1) && ArityOf(c, ch).Needs?
  }

  // -------------------------------------------------------------------------
  // What reading reports
  // -------------------------------------------------------------------------

  /** A short option reports itself, and a character that is none reports '?' and itself in optopt. */
  function FlagReport(c: Config, ch: char): Report {
    if ArityOf(c, ch).Unknown? then Report('?' as int, None, None, Some(ch as int))
    else Report(ch as int, None, None, None)
  }

  function FlagReports(c: Config, flags: string): seq<Report> {
    if flags == "" then [] else [FlagReport(c, flags[0])] + FlagReports(c, flags[1..])
  }

  /** A long option reports its val, or 0 if it has a flag to set, with its value and its place in the table. */
  function Reports(c: Config, item: Item): seq<Report>
    requires Fits(c, item)
  {
    match item
    case Word(_) => []
    case Long(_, name, value, _) =>
      var i := Lookup(c.longopts.value, name).index;
      var o := c.longopts.value[i];
      [Report(if o.flag then 0 else o.val, value, Some(i), None)]
    case Wrong(_, name, _) =>
      var m := Lookup(c.longopts.value, name);
      [Report('?' as int, None, None, Some(if m.Found? then c.longopts.value[m.index].val else 0))]
    case Short(flags, None) => FlagReports(c, flags)
    case Short(flags, Some(Valued(ch, value, _))) =>
      FlagReports(c, flags) + [Report(ch as int, value, None, None)]
  }

  /** A missing argument is ':' if optstring asks for that, and otherwise '?'. */
  function EndReports(c: Config, end: End): seq<Report>
    requires EndFits(c, end)
  {
    var missing := if ":" <= c.optstring then ':' as int else '?' as int;
    match end
    case Nothing => []
    case Dashes(_) => []
    case LongMissing(_, name) =>
      [Report(missing, None, None, Some(c.longopts.value[Lookup(c.longopts.value, name).index].val))]
    case ShortMissing(flags, ch) => FlagReports(c, flags) + [Report(missing, None, None, Some(ch as int))]
  }

  /** What an item adds to what is read behind it. */
  function Before(c: Config, item: Item, p: Parsed): Parsed
    requires Fits(c, item)
  {
    if item.Word? then Parsed(p.reports, p.consumed, [item.text] + p.others)
    else Parsed(Reports(c, item) + p.reports, Write(item) + p.consumed, p.others)
  }

  function AtEnd(c: Config, end: End): Parsed
    requires EndFits(c, end)
  {
    match end
    case Nothing => Parsed([], [], [])
    case Dashes(rest) => Parsed([], ["--"], rest)
    case _ => Parsed(EndReports(c, end), WriteEnd(end), [])
  }

  function ReadAll(c: Config, items: seq<Item>, end: End): Parsed
    requires EndFits(c, end) && forall k :: 0 <= k < |items| ==> Fits(c, items[k])
  {
    if items == [] then AtEnd(c, end) else Before(c, items[0], ReadAll(c, items[1..], end))
  }

  // -------------------------------------------------------------------------
  // Names and their beginnings
  // -------------------------------------------------------------------------

  /** `name` is the beginning of the name of option k. */
  predicate Begins(opts: seq<LongOpt>, name: string, k: nat) {
    k < |opts| && |name| <= |opts[k].name| && opts[k].name[..|name|] == name
  }

  lemma BeginsAbbreviates(opts: seq<LongOpt>, name: string)
    ensures forall k: nat {:trigger opts[k]} :: k < |opts| ==> (Begins(opts, name, k) <==> Abbreviates(name, opts[k]))
  {
  }

  /** A name is found at its first place, and the beginning of a single name at the place of that one. */
  lemma FoundByName(opts: seq<LongOpt>, name: string, i: nat)
    requires Begins(opts, name, i)
    ensures opts[i].name == name && (forall k :: 0 <= k < i ==> opts[k].name != name) ==> Lookup(opts, name) == Found(i)
    ensures (forall k: nat :: k != i ==> !Begins(opts, name, k)) ==> Lookup(opts, name) == Found(i)
  {
    hide Lookup;
    BeginsAbbreviates(opts, name);
    MatchedAt(opts, name, i, Lookup(opts, name));
  }

  lemma MatchedAt(opts: seq<LongOpt>, name: string, i: nat, m: Match)
    requires i < |opts| && Abbreviates(name, opts[i]) && IsMatch(opts, name, m)
    ensures opts[i].name == name && (forall k :: 0 <= k < i ==> opts[k].name != name) ==> m == Found(i)
    ensures (forall k :: 0 <= k < |opts| && k != i ==> !Abbreviates(name, opts[k])) ==> m == Found(i)
  {
  }

  /** The beginning of no name is unknown, and one of two names that is itself none is ambiguous. */
  lemma NotFoundByName(opts: seq<LongOpt>, name: string, i: nat, j: nat)
    ensures (forall k: nat :: !Begins(opts, name, k)) <==> Lookup(opts, name) == NoMatch
    ensures i != j && Begins(opts, name, i) && Begins(opts, name, j) && (forall o :: o in opts ==> o.name != name) ==>
              Lookup(opts, name) == Ambiguous
  {
    hide Lookup;
    BeginsAbbreviates(opts, name);
  }

  // -------------------------------------------------------------------------
  // One element
  // -------------------------------------------------------------------------

  lemma {:induction false} NameEndsThere(name: string, rest: string)
    requires '=' !in name && (rest == "" || rest[0] == '=')
    ensures NameLength(name + rest) == |name| && (name + rest)[..|name|] == name
  {
    if name == "" {
      assert name + rest == rest;
    } else {
      NameEndsThere(name[1..], rest);
      assert (name + rest)[1..] == name[1..] + rest;
    }
  }

  lemma ValueBehind(s: string, t: string, value: Option<string>)
    ensures WithValue(s + t, value) == s + WithValue(t, value)
  {
    if value.Some? {
      assert s + t + "=" + value.value == s + (t + "=" + value.value);
    }
  }

  /** The name of a long option ends at its value. */
  lemma NameOf(name: string, value: Option<string>)
    requires name != "" && '=' !in name
    ensures var next := WithValue(name, value); NameLength(next) == |name| && next[..|name|] == name
    ensures WithValue(name, value) != "" && WithValue(name, value)[0] == name[0]
  {
    if value.Some? {
      assert WithValue(name, value) == name + ("=" + value.value);
      NameEndsThere(name, "=" + value.value);
    } else {
      assert name + "" == name;
      NameEndsThere(name, "");
    }
  }

  /** A long option is read as one, from behind the dashes. */
  lemma LongElement(c: Config, dashes: string, name: string, value: Option<string>)
    requires Marked(c, dashes, name, value.Some?)
    ensures var s := WithValue(dashes + name, value);
            !NonOption(s) && s != "--" && FirstChar(c, s) == WithValue(name, value) && TriesLong(c, s)
  {
    ValueBehind(dashes, name, value);
    NameOf(name, value);
    var s, next := WithValue(dashes + name, value), WithValue(name, value);
    assert s == dashes + next && s[|dashes|..] == next && s[|dashes|] == name[0];
    if dashes == "-" {
      SecondChar(name, value);
      assert |next| > 1 ==> s[2] == next[1];
    }
  }

  lemma SecondChar(name: string, value: Option<string>)
    requires name != "" && '\0' !in name
    ensures var next := WithValue(name, value);
            |name| > 1 || value.Some? ==> |next| > 1 && next[1] != '\0'
  {
  }

  lemma LongDecoded(c: Config, dashes: string, name: string, value: Option<string>, follow: Option<string>)
    requires Marked(c, dashes, name, value.Some?) && Lookup(c.longopts.value, name).Found?
    ensures var s, next := WithValue(dashes + name, value), WithValue(name, value);
            var i := Lookup(c.longopts.value, name).index;
            next != "" && |name| <= |next| &&
            Decode(c, s, next, follow) == DecodeFound(c, c.longopts.value[i], i, next, |name|, follow)
  {
    hide Lookup, NameLength, TriesLong, DecodeFound, FirstChar, NonOption;
    LongElement(c, dashes, name, value);
    NameOf(name, value);
  }

  /** The elements of a long option are consumed for its report. */
  lemma LongRead(c: Config, item: Item, follow: Option<string>)
    requires item.Long? && Fits(c, item) && (item.value.Some? && !item.joined ==> follow == item.value)
    ensures var s, w := Write(item)[0], if item.joined then item.value else None;
            && !NonOption(s) && s != "--" && FirstChar(c, s) == WithValue(item.name, w) != ""
            && Decode(c, s, FirstChar(c, s), follow) == Decoded(Reports(c, item)[0], "", |Write(item)|)
  {
    hide Lookup, Decode, FirstChar, NonOption, TriesLong;
    var value := if item.joined then item.value else None;
    LongElement(c, item.dashes, item.name, value);
    LongDecoded(c, item.dashes, item.name, value, follow);
    if value.Some? {
      assert WithValue(item.name, value)[|item.name| + 1..] == value.value;
    }
  }

  lemma WrongDecoded(c: Config, dashes: string, name: string, value: Option<string>, follow: Option<string>)
    requires Marked(c, dashes, name, value.Some?) && !Lookup(c.longopts.value, name).Found?
    requires Lookup(c.longopts.value, name).NoMatch? ==> dashes == "--" || name[0] !in c.optstring
    ensures var s, next := WithValue(dashes + name, value), WithValue(name, value);
            next != "" &&
            Decode(c, s, next, follow) == Decoded(Report('?' as int, None, None, Some(0)), "", 1)
  {
    hide Lookup, NameLength, TriesLong, FirstChar, NonOption;
    LongElement(c, dashes, name, value);
    NameOf(name, value);
    ValueBehind(dashes, name, value);
  }

  lemma WrongRead(c: Config, item: Item, follow: Option<string>)
    requires item.Wrong? && Fits(c, item)
    ensures var s := Write(item)[0];
            && !NonOption(s) && s != "--" && FirstChar(c, s) == WithValue(item.name, item.value) != ""
            && Decode(c, s, FirstChar(c, s), follow) == Decoded(Reports(c, item)[0], "", 1)
  {
    hide Lookup, Decode, FirstChar, NonOption, TriesLong;
    LongElement(c, item.dashes, item.name, item.value);
    if Lookup(c.longopts.value, item.name).Found? {
      LongDecoded(c, item.dashes, item.name, item.value, follow);
    } else {
      WrongDecoded(c, item.dashes, item.name, item.value, follow);
    }
  }

  lemma LongMissingRead(c: Config, end: End)
    requires end.LongMissing? && EndFits(c, end)
    ensures var s := end.dashes + end.name;
            && !NonOption(s) && s != "--" && FirstChar(c, s) == end.name != ""
            && Decode(c, s, FirstChar(c, s), None) == Decoded(EndReports(c, end)[0], "", 1)
  {
    hide Lookup, Decode, FirstChar, NonOption, TriesLong;
    LongElement(c, end.dashes, end.name, None);
    LongDecoded(c, end.dashes, end.name, None, None);
  }

  // -------------------------------------------------------------------------
  // Short options
  // -------------------------------------------------------------------------

  lemma ShortElement(c: Config, text: string, flags: string, n: nat)
    requires Flags(c, text, flags, n)
    ensures var s := "-" + text; !NonOption(s) && s != "--" && FirstChar(c, s) == text
  {
  }

  /** Where short options are read, the lookup of long ones fails or is not tried. */
  lemma ShortDecoded(c: Config, text: string, flags: string, n: nat, k: nat, follow: Option<string>)
    requires Flags(c, text, flags, n) && k < |flags| + n
    ensures Decode(c, "-" + text, text[k..], follow) == DecodeShort(c, text[k..], follow)
  {
    hide Lookup, DecodeShort, NameLength;
    var s := "-" + text;
    assert s[1] == text[0] && text[k..][0] == text[k];
    assert ReadShort(c, text, k);
  }

  lemma FlagDecoded(c: Config, next: string, follow: Option<string>)
    requires next != "" && !ArityOf(c, next[0]).Needs? && !ArityOf(c, next[0]).May?
    ensures DecodeShort(c, next, follow) ==
            Decoded(FlagReport(c, next[0]), next[1..], if |next| == 1 then 1 else 0)
  {
  }

  lemma ValueDecoded(c: Config, ch: char, value: Option<string>, joined: bool, follow: Option<string>)
    requires if value.None? then ArityOf(c, ch).May?
             else if joined then (ArityOf(c, ch).May? || ArityOf(c, ch).Needs?) && value.value != ""
             else ArityOf(c, ch).Needs? && follow == value
    ensures DecodeShort(c, [ch] + (if value.Some? && joined then value.value else ""), follow) ==
            Decoded(Report(ch as int, value, None, None), "", if value.Some? && !joined then 2 else 1)
  {
  }

  lemma MissingDecoded(c: Config, ch: char)
    requires ArityOf(c, ch).Needs?
    ensures DecodeShort(c, [ch], None) ==
            Decoded(Report(if ":" <= c.optstring then ':' as int else '?' as int, None, None, Some(ch as int)), "", 1)
  {
  }

  // -------------------------------------------------------------------------
  // A whole vector
  // -------------------------------------------------------------------------

  /** Reading from element i on depends on nothing before it. */
  lemma {:induction false} ParseShift(c: Config, a: seq<string>, i: nat, b: seq<string>, j: nat)
    requires i <= |a| && j <= |b| && a[i..] == b[j..]
    ensures Parse(c, a, i) == Parse(c, b, j)
    decreases |a| - i, if i < |a| then |a[i]| + 1 else 0
  {
    hide Decode, NonOption;
    assert |a| - i == |b| - j;
    if i < |a| {
      assert a[i] == a[i..][0] && a[i..][1..] == a[i + 1..] && b[j..][1..] == b[j + 1..];
      if NonOption(a[i]) {
        ParseShift(c, a, i + 1, b, j + 1);
      } else if a[i] != "--" {
        WithinShift(c, a, i, b, j, FirstChar(c, a[i]));
      }
    }
  }

  lemma {:induction false} WithinShift(c: Config, a: seq<string>, i: nat, b: seq<string>, j: nat, next: string)
    requires i < |a| && j < |b| && a[i..] == b[j..] && 0 < |next| <= |a[i]|
    ensures a[i] == b[j] && ParseWithin(c, a, i, next) == ParseWithin(c, b, j, next)
    decreases |a| - i, |next|
  {
    hide Decode, NonOption;
    assert |a| - i == |b| - j && a[i] == a[i..][0] == b[j];
    assert i + 1 < |a| ==> a[i + 1] == a[i..][1] == b[j + 1];
    assert Follow(a, i) == Follow(b, j);
    var d := Decode(c, a[i], next, Follow(a, i));
    if d.rest != "" {
      WithinShift(c, a, i, b, j, d.rest);
    } else {
      assert a[i..][d.taken..] == a[i + d.taken..] && b[j..][d.taken..] == b[j + d.taken..];
      assert a[i..][..d.taken] == a[i..i + d.taken] && b[j..][..d.taken] == b[j..j + d.taken];
      ParseShift(c, a, i + d.taken, b, j + d.taken);
    }
  }

  function Next(tail: seq<string>): Option<string> {
    if tail == [] then None else Some(tail[0])
  }

  lemma InFirst(s: string, tail: seq<string>)
    ensures var args := [s] + tail; args[0] == s && Follow(args, 0) == Next(tail)
  {
  }

  lemma BehindFirst(s: string, tail: seq<string>, n: nat)
    requires n <= |tail|
    ensures var args := [s] + tail; args[n + 1..] == tail[n..] && args[0..n + 1] == [s] + tail[..n]
  {
  }

  /** Inside the first element of a vector, when the call finishes it. */
  lemma LastRead(c: Config, s: string, next: string, tail: seq<string>, d: Decoded)
    requires 0 < |next| <= |s| && d == Decode(c, s, next, Next(tail)) && d.rest == ""
    ensures 1 <= d.taken <= 1 + |tail|
    ensures var p := Parse(c, tail, d.taken - 1);
            ParseWithin(c, [s] + tail, 0, next) ==
            Parsed([d.report] + p.reports, [s] + tail[..d.taken - 1] + p.consumed, p.others)
  {
    hide Decode, Parse, ParseWithin;
    var args := [s] + tail;
    InFirst(s, tail);
    WithinUnfolds(c, args, 0, next);
    BehindFirst(s, tail, d.taken - 1);
    ParseShift(c, args, d.taken, tail, d.taken - 1);
  }

  lemma EnterElement(c: Config, s: string, tail: seq<string>)
    requires !NonOption(s) && s != "--"
    ensures FirstChar(c, s) != "" && Parse(c, [s] + tail, 0) == ParseWithin(c, [s] + tail, 0, FirstChar(c, s))
  {
    hide NonOption;
    InFirst(s, tail);
    ParseUnfolds(c, [s] + tail, 0);
  }

  lemma WordRead(c: Config, text: string, tail: seq<string>)
    requires text == "" || text[0] != '-' || text == "-"
    ensures var p := Parse(c, tail, 0);
            Parse(c, [text] + tail, 0) == Parsed(p.reports, p.consumed, [text] + p.others)
  {
    hide Parse;
    assert ([text] + tail)[1..] == tail[0..];
    ParseNonOption(c, [text] + tail, 0);
    ParseShift(c, [text] + tail, 1, tail, 0);
  }

  /** A long option or a wrong one, and whatever follows. */
  lemma ElementRead(c: Config, s: string, tail: seq<string>, d: Decoded)
    requires !NonOption(s) && s != "--" && FirstChar(c, s) != "" && d.rest == ""
    requires d == Decode(c, s, FirstChar(c, s), Next(tail))
    ensures 1 <= d.taken <= 1 + |tail|
    ensures var p := Parse(c, tail, d.taken - 1);
            Parse(c, [s] + tail, 0) ==
            Parsed([d.report] + p.reports, [s] + tail[..d.taken - 1] + p.consumed, p.others)
  {
    hide NonOption, Parse, ParseWithin, Decode, FirstChar;
    EnterElement(c, s, tail);
    LastRead(c, s, FirstChar(c, s), tail, d);
  }

  lemma FlagStep(c: Config, text: string, flags: string, k: nat, tail: seq<string>)
    requires Flags(c, text, flags, 1) && k < |flags|
    ensures var p := ParseWithin(c, ["-" + text] + tail, 0, text[k + 1..]);
            ParseWithin(c, ["-" + text] + tail, 0, text[k..]) ==
            Parsed([FlagReport(c, flags[k])] + p.reports, p.consumed, p.others)
  {
    hide Decode, DecodeShort, Parse, ParseWithin, FlagReport, ArityOf;
    ShortDecoded(c, text, flags, 1, k, Next(tail));
    assert text[k] == flags[k] && text[k..][0] == text[k] && text[k..][1..] == text[k + 1..];
    FlagDecoded(c, text[k..], Next(tail));
    InFirst("-" + text, tail);
    WithinUnfolds(c, ["-" + text] + tail, 0, text[k..]);
  }

  lemma NoReports(p: Parsed)
    ensures Parsed([] + p.reports, p.consumed, p.others) == p
  {
    assert [] + p.reports == p.reports;
  }

  /** The flags of an element, one report each, up to what follows them in the element. */
  lemma {:induction false} FlagsRead(c: Config, text: string, flags: string, k: nat, tail: seq<string>)
    requires Flags(c, text, flags, 1) && k <= |flags|
    ensures var p := ParseWithin(c, ["-" + text] + tail, 0, text[|flags|..]);
            ParseWithin(c, ["-" + text] + tail, 0, text[k..]) ==
            Parsed(FlagReports(c, flags[k..]) + p.reports, p.consumed, p.others)
    decreases |flags| - k
  {
    hide Flags, ParseWithin, FlagReport;
    FlagsFit(c, text, flags, 1);
    var p := ParseWithin(c, ["-" + text] + tail, 0, text[|flags|..]);
    if k < |flags| {
      FlagStep(c, text, flags, k, tail);
      FlagsRead(c, text, flags, k + 1, tail);
      assert flags[k..][1..] == flags[k + 1..];
      OneMore(FlagReport(c, flags[k]), FlagReports(c, flags[k + 1..]), p.reports);
    } else {
      NoReports(p);
    }
  }

  lemma FlagsFit(c: Config, text: string, flags: string, n: nat)
    requires Flags(c, text, flags, n)
    ensures |flags| + n <= |text|
  {
  }

  lemma OneMore(r: Report, s: seq<Report>, t: seq<Report>)
    ensures [r] + (s + t) == [r] + s + t
  {
  }

  /** An element of short options whose last one is read as d. */
  lemma ShortsRead(c: Config, text: string, flags: string, tail: seq<string>, d: Decoded)
    requires Flags(c, text, flags, 1) && d == DecodeShort(c, text[|flags|..], Next(tail)) && d.rest == ""
    requires 1 <= d.taken <= 1 + |tail|
    ensures var p := Parse(c, tail, d.taken - 1);
            Parse(c, ["-" + text] + tail, 0) ==
            Parsed(FlagReports(c, flags) + [d.report] + p.reports,
                   ["-" + text] + tail[..d.taken - 1] + p.consumed, p.others)
  {
    hide Parse, ParseWithin, Decode, DecodeShort, FirstChar, NonOption, FlagReports, ReadShort, ArityOf;
    ShortElement(c, text, flags, 1);
    EnterElement(c, "-" + text, tail);
    assert text[0..] == text && flags[0..] == flags;
    FlagsRead(c, text, flags, 0, tail);
    ShortDecoded(c, text, flags, 1, |flags|, Next(tail));
    LastRead(c, "-" + text, text[|flags|..], tail, d);
    var p := Parse(c, tail, d.taken - 1);
    Between(FlagReports(c, flags), d.report, p.reports);
  }

  lemma Between(s: seq<Report>, r: Report, t: seq<Report>)
    ensures s + ([r] + t) == s + [r] + t
  {
  }

  lemma RestRead(c: Config, s: string, extra: seq<string>, tail: seq<string>)
    ensures Parse(c, extra + tail, |extra|) == Parse(c, tail, 0)
    ensures [s] + (extra + tail) == [s] + extra + tail && (extra + tail)[..|extra|] == extra
  {
    hide Parse;
    assert (extra + tail)[|extra|..] == tail[0..];
    ParseShift(c, extra + tail, |extra|, tail, 0);
  }

  /** As above, when the elements of `extra` are taken along and `tail` follows. */
  lemma ElementReadOn(c: Config, s: string, extra: seq<string>, tail: seq<string>, d: Decoded)
    requires !NonOption(s) && s != "--" && FirstChar(c, s) != "" && d.rest == "" && d.taken == 1 + |extra|
    requires d == Decode(c, s, FirstChar(c, s), Next(extra + tail))
    ensures var p := Parse(c, tail, 0);
            Parse(c, [s] + extra + tail, 0) == Parsed([d.report] + p.reports, [s] + extra + p.consumed, p.others)
  {
    hide NonOption, Parse, Decode, FirstChar, Next;
    RestRead(c, s, extra, tail);
    ElementRead(c, s, extra + tail, d);
  }

  lemma ShortsReadOn(c: Config, text: string, flags: string, extra: seq<string>, tail: seq<string>, d: Decoded)
    requires Flags(c, text, flags, 1) && d == DecodeShort(c, text[|flags|..], Next(extra + tail))
    requires d.rest == "" && d.taken == 1 + |extra|
    ensures var p := Parse(c, tail, 0);
            Parse(c, ["-" + text] + extra + tail, 0) ==
            Parsed(FlagReports(c, flags) + [d.report] + p.reports, ["-" + text] + extra + p.consumed, p.others)
  {
    hide Parse, DecodeShort, Flags, FlagReports, Next;
    FlagsFit(c, text, flags, 1);
    RestRead(c, "-" + text, extra, tail);
    ShortsRead(c, text, flags, extra + tail, d);
  }

  lemma LongItemRead(c: Config, item: Item, tail: seq<string>)
    requires item.Long? && Fits(c, item)
    ensures Parse(c, Write(item) + tail, 0) == Before(c, item, Parse(c, tail, 0))
  {
    hide Parse, Decode, Lookup, FirstChar, NonOption, Fits;
    var extra := Write(item)[1..];
    assert Write(item) == [Write(item)[0]] + extra;
    LongRead(c, item, Next(extra + tail));
    ElementReadOn(c, Write(item)[0], extra, tail, Decoded(Reports(c, item)[0], "", |Write(item)|));
  }

  lemma WrongItemRead(c: Config, item: Item, tail: seq<string>)
    requires item.Wrong? && Fits(c, item)
    ensures Parse(c, Write(item) + tail, 0) == Before(c, item, Parse(c, tail, 0))
  {
    hide Parse, Decode, Lookup, FirstChar, NonOption, Fits;
    WrongRead(c, item, Next([] + tail));
    assert Write(item) + [] + tail == Write(item) + tail && Write(item) + [] == Write(item);
    ElementReadOn(c, Write(item)[0], [], tail, Decoded(Reports(c, item)[0], "", 1));
  }

  lemma {:induction false} FlagReportsAppend(c: Config, flags: string, ch: char)
    ensures FlagReports(c, flags + [ch]) == FlagReports(c, flags) + [FlagReport(c, ch)]
  {
    hide FlagReport;
    if flags == "" {
      assert flags + [ch] == [ch] && FlagReports(c, [ch]) == [FlagReport(c, ch)] + FlagReports(c, []);
    } else {
      FlagReportsAppend(c, flags[1..], ch);
      assert (flags + [ch])[1..] == flags[1..] + [ch];
    }
  }

  /** The last flag of an element takes the place of an option with a value. */
  lemma LastFlag(c: Config, flags: string, follow: Option<string>)
    requires flags != "" && Flags(c, flags, flags, 0)
    ensures var n := |flags| - 1;
            && Flags(c, flags, flags[..n], 1) && flags[..n] + [flags[n]] == flags && flags[n..] == [flags[n]]
            && DecodeShort(c, flags[n..], follow) == Decoded(FlagReport(c, flags[n]), "", 1)
  {
    hide DecodeShort, FlagReport, ReadShort, ArityOf;
    FlagDecoded(c, flags[|flags| - 1..], follow);
  }

  lemma FlagItemRead(c: Config, item: Item, tail: seq<string>)
    requires item.Short? && item.valued.None? && Fits(c, item)
    ensures Parse(c, Write(item) + tail, 0) == Before(c, item, Parse(c, tail, 0))
  {
    hide Parse, DecodeShort, Flags, FlagReport, FlagReports;
    var n := |item.flags| - 1;
    LastFlag(c, item.flags, Next([] + tail));
    FlagReportsAppend(c, item.flags[..n], item.flags[n]);
    assert Write(item) + [] + tail == Write(item) + tail && Write(item) + [] == Write(item);
    ShortsReadOn(c, item.flags, item.flags[..n], [], tail, Decoded(FlagReport(c, item.flags[n]), "", 1));
  }

  lemma Behind(flags: string, s: string)
    ensures (flags + s)[|flags|..] == s && ("-" + (flags + s))[1..] == flags + s
  {
  }

  lemma ValuedItemRead(c: Config, item: Item, tail: seq<string>)
    requires item.Short? && item.valued.Some? && Fits(c, item)
    ensures Parse(c, Write(item) + tail, 0) == Before(c, item, Parse(c, tail, 0))
  {
    hide Parse, DecodeShort, Flags, FlagReport, FlagReports, ArityOf;
    var Valued(ch, value, joined) := item.valued.value;
    var more := [ch] + if value.Some? && joined then value.value else "";
    var extra := Write(item)[1..];
    assert [ch] + "" == [ch];
    assert Write(item) == ["-" + (item.flags + more)] + extra;
    Behind(item.flags, more);
    ValueDecoded(c, ch, value, joined, Next(extra + tail));
    ShortsReadOn(c, item.flags + more, item.flags, extra, tail,
                 Decoded(Report(ch as int, value, None, None), "", 1 + |extra|));
  }

  lemma ItemRead(c: Config, item: Item, tail: seq<string>)
    requires Fits(c, item)
    ensures Parse(c, Write(item) + tail, 0) == Before(c, item, Parse(c, tail, 0))
  {
    hide Parse, Before, Write;
    match item
    case Word(text) => WordItemRead(c, item, tail);
    case Long(_, _, _, _) => LongItemRead(c, item, tail);
    case Wrong(_, _, _) => WrongItemRead(c, item, tail);
    case Short(_, valued) =>
      if valued.None? {
        FlagItemRead(c, item, tail);
      } else {
        ValuedItemRead(c, item, tail);
      }
  }

  lemma WordItemRead(c: Config, item: Item, tail: seq<string>)
    requires item.Word? && Fits(c, item)
    ensures Parse(c, Write(item) + tail, 0) == Before(c, item, Parse(c, tail, 0))
  {
    hide Parse;
    WordRead(c, item.text, tail);
  }

  lemma EndRead(c: Config, end: End)
    requires EndFits(c, end)
    ensures Parse(c, WriteEnd(end), 0) == AtEnd(c, end)
  {
    hide Decode, DecodeShort, Lookup, FirstChar, Flags, FlagReports, ParseWithin, ArityOf;
    match end
    case Nothing =>
    case Dashes(rest) =>
      assert (["--"] + rest)[1..] == rest;
    case LongMissing(dashes, name) =>
      LongMissingRead(c, end);
      assert [dashes + name] + [] + [] == [dashes + name];
      ElementReadOn(c, dashes + name, [], [], Decoded(EndReports(c, end)[0], "", 1));
    case ShortMissing(flags, ch) =>
      Behind(flags, [ch]);
      MissingDecoded(c, ch);
      assert ["-" + (flags + [ch])] + [] + [] == ["-" + (flags + [ch])];
      ShortsReadOn(c, flags + [ch], flags, [], [], DecodeShort(c, [ch], None));
  }

  /**
   Reading gives back what was written: whatever items a vector is put together
   from, getopt reports every option of every item once and in order, with its
   own value, takes the elements of the options and leaves the words.
   */
  lemma {:induction false} WrittenIsRead(c: Config, items: seq<Item>, end: End)
    requires EndFits(c, end) && forall k :: 0 <= k < |items| ==> Fits(c, items[k])
    ensures Parse(c, WriteAll(items) + WriteEnd(end), 0) == ReadAll(c, items, end)
  {
    hide Parse, Fits, EndFits, Write, WriteEnd, Before, AtEnd;
    if items == [] {
      assert WriteAll(items) + WriteEnd(end) == WriteEnd(end);
      EndRead(c, end);
    } else {
      WrittenIsRead(c, items[1..], end);
      var tail := WriteAll(items[1..]) + WriteEnd(end);
      assert WriteAll(items) + WriteEnd(end) == Write(items[0]) + tail;
      ItemRead(c, items[0], tail);
    }
  }

  /** The same behind the name of the program, where `Getopt.Run` starts to read. */
  lemma CommandLineIsRead(c: Config, program: string, items: seq<Item>, end: End)
    requires EndFits(c, end) && forall k :: 0 <= k < |items| ==> Fits(c, items[k])
    ensures Parse(c, [program] + (WriteAll(items) + WriteEnd(end)), 1) == ReadAll(c, items, end)
  {
    hide Parse, Fits, EndFits, WriteAll, WriteEnd, ReadAll;
    WrittenIsRead(c, items, end);
    RestRead(c, program, [program], WriteAll(items) + WriteEnd(end));
  }
}
