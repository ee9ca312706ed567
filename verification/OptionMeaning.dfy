/** What the options of a program mean, said from the option string and the table of long options
    alone, and the round trip: options written out as arguments are reported again. */
module OptionMeaning {
  import opened OptionSyntax
  import opened ArgumentPermutation

  // ----------------------------------------------------------- one short option

  /** The option string declares letter c, post being what follows it. */
  predicate Declares(os: string, pre: string, c: char, post: string)
  {
    os == pre + [c] + post && c !in pre && c != ':'
  }

  predicate Follows(post: string, mark: string) { mark <= post }

  lemma {:induction false} FirstAt(pre: string, c: char, post: string)
    requires c !in pre
    ensures IndexOf(pre + [c] + post, c) == |pre|
    decreases |pre|
  {
    var os := pre + [c] + post;
    if pre != "" {
      FirstAt(pre[1..], c, post);
      assert os[1..] == pre[1..] + [c] + post;
    }
  }

  lemma {:induction false} Absent(os: string, c: char)
    requires c !in os
    ensures IndexOf(os, c) == |os|
  {
    if os != "" {
      Absent(os[1..], c);
    }
  }

  lemma {:induction false} Declared(os: string, pre: string, c: char, post: string)
    requires Declares(os, pre, c, post)
    ensures var i := IndexOf(os, c);
            && i < |os| && CharAt(os, i + 1) == (if post == "" then '\0' else post[0])
            && CharAt(os, i + 2) == (if |post| < 2 then '\0' else post[1])
  {
    FirstAt(pre, c, post);
    var i := |pre|;
    assert forall k :: 0 <= k < |post| ==> os[i + 1 + k] == post[k];
  }

  /** An element whose letters are not tried as the name of a long option. */
  predicate Letters(cfg: Config, e: string)
  {
    IsOption(e) && (cfg.long.None? || (e[1] != '-' && !cfg.longOnly))
  }

  lemma {:induction false} LettersAreShort(cfg: Config, os: string, a: seq<string>, nc: string)
    requires a != [] && Letters(cfg, a[0]) && nc != ""
    ensures Decode(cfg, os, a, nc) == DecodeShort(LongOpts(cfg), os, a, nc)
  {
  }

  /** No colon behind the letter: the letter, no argument, and the rest of the element is next. */
  lemma {:induction false} FlagMeans(cfg: Config, os: string, pre: string, c: char, post: string, a: seq<string>, rest: string)
    requires Declares(os, pre, c, post) && !Follows(post, ":") && !(c == 'W' && Follows(post, ";"))
    requires a != [] && Letters(cfg, a[0])
    ensures Decode(cfg, os, a, [c] + rest) == Decoded(c as int, None, rest, if rest == "" then 1 else 0)
  {
    Declared(os, pre, c, post);
    LettersAreShort(cfg, os, a, [c] + rest);
    assert ([c] + rest)[1..] == rest;
  }

  /** A colon behind the letter and text left in the element: that text is the argument. */
  lemma {:induction false} JoinedMeans(cfg: Config, os: string, pre: string, c: char, post: string, a: seq<string>, rest: string)
    requires Declares(os, pre, c, post) && Follows(post, ":") && rest != "" && a != [] && Letters(cfg, a[0])
    ensures Decode(cfg, os, a, [c] + rest) == Decoded(c as int, Some(rest), "", 1)
  {
    Declared(os, pre, c, post);
    LettersAreShort(cfg, os, a, [c] + rest);
    assert ([c] + rest)[1..] == rest;
  }

  /** One colon and nothing left: the next element is the argument and is taken too.  At the end
      of the vector a colon is returned if the option string starts with one, else a question mark. */
  lemma {:induction false} NextMeans(cfg: Config, os: string, pre: string, c: char, post: string, a: seq<string>)
    requires Declares(os, pre, c, post) && Follows(post, ":") && !Follows(post, "::") && a != [] && Letters(cfg, a[0])
    ensures Decode(cfg, os, a, [c]) ==
            if |a| > 1 then Decoded(c as int, Some(a[1]), "", 2)
            else Decoded(if os[0] == ':' then ':' as int else '?' as int, None, "", 1)
  {
    Declared(os, pre, c, post);
    LettersAreShort(cfg, os, a, [c]);
    assert [c][1..] == "" && (|post| >= 2 && post[1] == ':' ==> "::" <= post);
  }

  /** Two colons and nothing left: no argument, and the next element is not touched. */
  lemma {:induction false} OptionalMeans(cfg: Config, os: string, pre: string, c: char, post: string, a: seq<string>)
    requires Declares(os, pre, c, post) && Follows(post, "::") && a != [] && Letters(cfg, a[0])
    ensures Decode(cfg, os, a, [c]) == Decoded(c as int, None, "", 1)
  {
    Declared(os, pre, c, post);
    LettersAreShort(cfg, os, a, [c]);
    assert [c][1..] == "";
  }

  /** A letter that is not declared: a question mark, and the rest of the element is next. */
  lemma {:induction false} UnknownMeans(cfg: Config, os: string, c: char, a: seq<string>, rest: string)
    requires (c !in os || c == ':') && a != [] && Letters(cfg, a[0])
    ensures Decode(cfg, os, a, [c] + rest) == Decoded('?' as int, None, rest, if rest == "" then 1 else 0)
  {
    if c !in os {
      Absent(os, c);
    }
    LettersAreShort(cfg, os, a, [c] + rest);
    assert ([c] + rest)[1..] == rest;
  }

  // ------------------------------------------------------------ one long option

  lemma {:induction false} FirstIs(l: seq<LongOpt>, name: string, exact: bool, i: nat)
    requires i <= |l|
    ensures var r := FirstFrom(l, name, exact, i);
            && (r < |l| ==> if exact then l[r].name == name else name <= l[r].name)
            && forall k :: i <= k < r ==> if exact then l[k].name != name else !(name <= l[k].name)
    decreases |l| - i
  {
    if i < |l| && !(if exact then l[i].name == name else Abbreviates(name, l[i])) {
      FirstIs(l, name, exact, i + 1);
    }
  }

  /** Option i is spelled out by the name, and no earlier one. */
  predicate Spelled(l: seq<LongOpt>, name: string, i: nat)
  {
    i < |l| && l[i].name == name && forall k :: 0 <= k < i ==> l[k].name != name
  }

  /** Option i is the only one the name abbreviates. */
  predicate OnlyAbbreviated(l: seq<LongOpt>, name: string, i: nat)
  {
    i < |l| && forall k :: 0 <= k < |l| ==> (name <= l[k].name <==> k == i)
  }

  predicate SpelledOut(l: seq<LongOpt>, name: string) { exists k :: 0 <= k < |l| && l[k].name == name }

  /** The option found is the first that the name spells out, or else the only one it abbreviates. */
  lemma {:induction false} LookupExact(l: seq<LongOpt>, name: string, i: nat)
    ensures Lookup(l, name) == Found(i) <==>
              Spelled(l, name, i) || (!SpelledOut(l, name) && OnlyAbbreviated(l, name, i))
    ensures Lookup(l, name) == NoMatch <==> forall k :: 0 <= k < |l| ==> !(name <= l[k].name)
  {
    var x, y := FirstFrom(l, name, true, 0), FirstFrom(l, name, false, 0);
    FirstIs(l, name, true, 0);
    FirstIs(l, name, false, 0);
    if x < |l| {
      assert Spelled(l, name, x) && SpelledOut(l, name);
    } else if y < |l| {
      FirstIs(l, name, false, y + 1);
      var z := FirstFrom(l, name, false, y + 1);
      if z == |l| {
        assert OnlyAbbreviated(l, name, y);
      } else {
        assert name <= l[y].name && name <= l[z].name && y != z;
      }
    } else {
      assert forall k :: 0 <= k < |l| ==> l[k].name != name && !(name <= l[k].name);
      assert i < |l| ==> !(name <= l[i].name);
    }
  }

  function Value(o: LongOpt): int { if o.flag then 0 else o.val }

  /** An element that is the name of a long option behind two dashes. */
  predicate Named(cfg: Config, e: string) { cfg.long.Some? && |e| > 2 && e[0] == '-' && e[1] == '-' }

  lemma {:induction false} NamePart(name: string, rest: string)
    requires '=' !in name && (rest == "" || rest[0] == '=')
    ensures NameOf(name + rest) == name && IndexOf(name + rest, '=') == |name|
  {
    if rest == "" {
      Absent(name, '=');
      assert name + rest == name;
    } else {
      FirstAt(name, '=', rest[1..]);
      assert name + rest == name + ['='] + rest[1..];
    }
  }

  /** `--name=v`: v is the argument, if the option takes one. */
  lemma {:induction false} EqualsMeans(cfg: Config, os: string, a: seq<string>, name: string, v: string, i: nat)
    requires a != [] && Named(cfg, a[0]) && '=' !in name && Lookup(cfg.long.value, name) == Found(i)
    ensures var o := cfg.long.value[i];
            Decode(cfg, os, a, name + "=" + v) ==
            if o.hasArg != 0 then Decoded(Value(o), Some(v), "", 1) else Decoded('?' as int, None, "", 1)
  {
    NamePart(name, "=" + v);
    assert name + "=" + v == name + ("=" + v) && (name + "=" + v)[|name| + 1..] == v;
  }

  /** `--name`: a required argument is the next element, which is taken too; an optional one is left
      out.  At the end of the vector a missing one is reported as for a letter. */
  lemma {:induction false} NameMeans(cfg: Config, os: string, a: seq<string>, name: string, i: nat)
    requires a != [] && Named(cfg, a[0]) && '=' !in name && name != "" && Lookup(cfg.long.value, name) == Found(i)
    ensures var o := cfg.long.value[i];
            Decode(cfg, os, a, name) ==
            if o.hasArg != 1 then Decoded(Value(o), None, "", 1)
            else if |a| > 1 then Decoded(Value(o), Some(a[1]), "", 2)
            else Decoded(if os != "" && os[0] == ':' then ':' as int else '?' as int, None, "", 1)
  {
    NamePart(name, "");
    assert name + "" == name;
  }

  /** A name that no option or several options may mean. */
  lemma {:induction false} NoNameMeans(cfg: Config, os: string, a: seq<string>, name: string)
    requires a != [] && Named(cfg, a[0]) && '=' !in name && name != "" && !Lookup(cfg.long.value, name).Found?
    ensures Decode(cfg, os, a, name) == Decoded('?' as int, None, "", 1)
  {
    NamePart(name, "");
    assert name + "" == name;
  }

  /** `-W name` means `--name`: it returns the same and takes one element more. */
  lemma {:induction false} WMeansName(cfg: Config, os: string, pre: string, post: string, a: seq<string>, b: seq<string>, i: nat)
    requires Declares(os, pre, 'W', post) && Follows(post, ";") && |a| > 1 && Letters(cfg, a[0]) && cfg.long.Some?
    requires a[1] != "" && b != [] && Named(cfg, b[0]) && b[1..] == a[2..] && Lookup(cfg.long.value, NameOf(a[1])) == Found(i)
    ensures var w, n := Decode(cfg, os, a, "W"), Decode(cfg, os, b, a[1]);
            && w.ret == n.ret && w.take == n.take + 1 && w.next == n.next == ""
            && (n.arg.Some? ==> w.arg == n.arg)
  {
    Declared(os, pre, 'W', post);
    LettersAreShort(cfg, os, a, "W");
    assert "W"[1..] == "";
    assert |b| > 1 ==> b[1] == b[1..][0] == a[2..][0] == a[2];
  }

  // ------------------------------------------------------------- the round trip

  /** What a user may give: letters that take no argument, in one element; a letter with its
      argument; a long option by its name or an abbreviation; or an operand. */
  datatype Given =
    | Flags(cs: string)
    | Letter(c: char, arg: string, joined: bool)
    | Name(name: string, value: Option<string>, joined: bool)
    | Operand(word: string)

  function Written(g: Given): (a: seq<string>)
    ensures a != []
  {
    match g
    case Flags(cs) => ["-" + cs]
    case Letter(c, arg, joined) => if joined then ["-" + [c] + arg] else ["-" + [c], arg]
    case Name(name, arg, joined) =>
      if arg.None? then ["--" + name] else if joined then ["--" + name + "=" + arg.value] else ["--" + name, arg.value]
    case Operand(word) => [word]
  }

  /** The letter takes no argument. */
  ghost predicate IsFlag(os: string, c: char)
  {
    exists pre, post :: Declares(os, pre, c, post) && !Follows(post, ":") && !(c == 'W' && Follows(post, ";"))
  }

  /** The letter takes an argument, which must be there if required. */
  ghost predicate TakesArg(os: string, c: char, required: bool)
  {
    exists pre, post :: Declares(os, pre, c, post) && Follows(post, ":") && (required ==> !Follows(post, "::"))
  }

  /** The program takes it. */
  ghost predicate Takes(cfg: Config, g: Given)
  {
    match g
    case Flags(cs) =>
      cs != "" && Letters(cfg, "-" + cs) && "-" + cs != "--" && forall k :: 0 <= k < |cs| ==> IsFlag(cfg.optstring, cs[k])
    case Letter(c, arg, joined) =>
      && Letters(cfg, Written(g)[0]) && Written(g)[0] != "--" && TakesArg(cfg.optstring, c, !joined) && (joined ==> arg != "")
    case Name(name, arg, joined) =>
      && cfg.long.Some? && name != "" && '=' !in name && Lookup(cfg.long.value, name).Found?
      && var o := cfg.long.value[Lookup(cfg.long.value, name).index];
         if arg.None? then o.hasArg != 1 else if joined then o.hasArg != 0 else o.hasArg == 1
    case Operand(word) => !IsOption(word)
  }

  function FlagReports(cs: string): (r: seq<Report>)
    ensures |r| == |cs| && forall k :: 0 <= k < |cs| ==> r[k] == Report(cs[k] as int, None)
  {
    seq(|cs|, k requires 0 <= k < |cs| => Report(cs[k] as int, None))
  }

  /** What the program should be told. */
  function Told(cfg: Config, g: Given): seq<Report>
  {
    match g
    case Flags(cs) => FlagReports(cs)
    case Letter(c, arg, _) => [Report(c as int, Some(arg))]
    case Name(name, arg, _) =>
      var l := LongOpts(cfg);
      var m := Lookup(l, name);
      [Report(if m.Found? then Value(l[m.index]) else '?' as int, arg)]
    case Operand(_) => []
  }

  function Left(g: Given): seq<string> { if g.Operand? then [g.word] else [] }

  function WrittenAll(gs: seq<Given>): seq<string>
  {
    if gs == [] then [] else Written(gs[0]) + WrittenAll(gs[1..])
  }

  function ToldAll(cfg: Config, gs: seq<Given>): seq<Report>
  {
    if gs == [] then [] else Told(cfg, gs[0]) + ToldAll(cfg, gs[1..])
  }

  function LeftAll(gs: seq<Given>): seq<string>
  {
    if gs == [] then [] else Left(gs[0]) + LeftAll(gs[1..])
  }

  /** An option element is read as it was meant. */
  ghost predicate ReadAs(cfg: Config, a: seq<string>, nc: string, width: nat, told: seq<Report>)
  {
    && a != [] && IsOption(a[0]) && nc != ""
    && WidthFrom(ReaderOf(cfg), a, nc) == width && ReportsFrom(ReaderOf(cfg), a, nc) == told
  }

  lemma {:induction false} LastOne(cfg: Config, a: seq<string>, nc: string, d: Decoded)
    requires a != [] && IsOption(a[0]) && nc != "" && d == Decode(cfg, cfg.optstring, a, nc) && d.take > 0
    ensures ReadAs(cfg, a, nc, d.take, [Report(d.ret, d.arg)])
  {
    assert ReaderOf(cfg).decode(a, nc) == DecodeOf(cfg, a, nc);
  }

  lemma {:induction false} FlagsRead(cfg: Config, a: seq<string>, cs: string)
    requires a != [] && Letters(cfg, a[0]) && cs != "" && forall k :: 0 <= k < |cs| ==> IsFlag(cfg.optstring, cs[k])
    ensures ReadAs(cfg, a, cs, 1, FlagReports(cs))
  {
    var c, rest := cs[0], cs[1..];
    assert cs == [c] + rest;
    FlagFirst(cfg, a, c, rest, cs);
    if rest != "" {
      FlagsRead(cfg, a, rest);
      MoreRead(cfg, a, c, rest, cs);
    }
    FlagReportsFirst(c, rest, cs);
  }

  lemma {:induction false} FlagReportsFirst(c: char, rest: string, cs: string)
    requires cs == [c] + rest
    ensures FlagReports(cs) == [Report(c as int, None)] + FlagReports(rest)
    ensures rest == "" ==> FlagReports(cs) == [Report(c as int, None)]
  {
  }

  lemma {:induction false} FlagFirst(cfg: Config, a: seq<string>, c: char, rest: string, cs: string)
    requires a != [] && Letters(cfg, a[0]) && IsFlag(cfg.optstring, c) && cs == [c] + rest
    ensures ReaderOf(cfg).decode(a, cs) == Decoded(c as int, None, rest, if rest == "" then 1 else 0)
    ensures rest == "" ==> ReadAs(cfg, a, cs, 1, [Report(c as int, None)])
  {
    var pre, post :| Declares(cfg.optstring, pre, c, post) && !Follows(post, ":") && !(c == 'W' && Follows(post, ";"));
    FlagMeans(cfg, cfg.optstring, pre, c, post, a, rest);
    assert ReaderOf(cfg).decode(a, cs) == DecodeOf(cfg, a, cs);
  }

  lemma {:induction false} MoreRead(cfg: Config, a: seq<string>, c: char, rest: string, cs: string)
    requires a != [] && IsOption(a[0]) && rest != "" && cs != "" && ReaderOf(cfg).decode(a, cs) == Decoded(c as int, None, rest, 0)
    requires ReadAs(cfg, a, rest, 1, FlagReports(rest))
    ensures ReadAs(cfg, a, cs, 1, [Report(c as int, None)] + FlagReports(rest))
  {
  }

  lemma {:induction false} LetterRead(cfg: Config, g: Given, a: seq<string>, tail: seq<string>)
    requires g.Letter? && Takes(cfg, g) && a == Written(g) + tail
    ensures a[0] == Written(g)[0] && IsOption(a[0]) && a[0] != "--"
    ensures ReadAs(cfg, a, Start(cfg, a[0]), |Written(g)|, Told(cfg, g))
  {
    var c := g.c;
    var pre, post :| Declares(cfg.optstring, pre, c, post) && Follows(post, ":") && (!g.joined ==> !Follows(post, "::"));
    var nc := Start(cfg, a[0]);
    if g.joined {
      assert nc == [c] + g.arg;
      JoinedMeans(cfg, cfg.optstring, pre, c, post, a, g.arg);
      LastOne(cfg, a, nc, Decoded(c as int, Some(g.arg), "", 1));
    } else {
      assert nc == [c] && a[1] == g.arg;
      NextMeans(cfg, cfg.optstring, pre, c, post, a);
      LastOne(cfg, a, nc, Decoded(c as int, Some(g.arg), "", 2));
    }
  }

  lemma {:induction false} NameRead(cfg: Config, g: Given, a: seq<string>, tail: seq<string>)
    requires g.Name? && Takes(cfg, g) && a == Written(g) + tail
    ensures a[0] == Written(g)[0] && IsOption(a[0]) && a[0] != "--"
    ensures ReadAs(cfg, a, Start(cfg, a[0]), |Written(g)|, Told(cfg, g))
  {
    var i := Lookup(cfg.long.value, g.name).index;
    var o, nc := cfg.long.value[i], Start(cfg, a[0]);
    if g.value.Some? && g.joined {
      assert nc == g.name + "=" + g.value.value;
      EqualsMeans(cfg, cfg.optstring, a, g.name, g.value.value, i);
      LastOne(cfg, a, nc, Decoded(Value(o), g.value, "", 1));
    } else {
      assert nc == g.name && (g.value.Some? ==> a[1] == g.value.value);
      NameMeans(cfg, cfg.optstring, a, g.name, i);
      LastOne(cfg, a, nc, Decoded(Value(o), g.value, "", if g.value.Some? then 2 else 1));
    }
  }

  lemma {:induction false} OptionRead(cfg: Config, g: Given, a: seq<string>, tail: seq<string>)
    requires !g.Operand? && Takes(cfg, g) && a == Written(g) + tail
    ensures IsOption(a[0]) && a[0] != "--" && ReadAs(cfg, a, Start(cfg, a[0]), |Written(g)|, Told(cfg, g))
  {
    match g
    case Flags(cs) =>
      assert a[0] == "-" + cs && Start(cfg, a[0]) == cs;
      FlagsRead(cfg, a, cs);
    case Letter(_, _, _) => LetterRead(cfg, g, a, tail);
    case Name(_, _, _) => NameRead(cfg, g, a, tail);
  }

  /** What was given first is read first. */
  lemma {:induction false} GivenFirst(cfg: Config, g: Given, a: seq<string>, tail: seq<string>)
    requires Takes(cfg, g) && a == Written(g) + tail
    ensures Reports(ReaderOf(cfg), a) == Told(cfg, g) + Reports(ReaderOf(cfg), tail)
    ensures Others(ReaderOf(cfg), a) == Left(g) + Others(ReaderOf(cfg), tail)
    ensures Overruns(ReaderOf(cfg), a) == Overruns(ReaderOf(cfg), tail)
  {
    if g.Operand? {
      assert a[0] == g.word && a[1..] == tail;
    } else {
      OptionRead(cfg, g, a, tail);
      var k := |Written(g)|;
      assert Width(ReaderOf(cfg), a) == k && Rest(a, k) == tail;
    }
  }

  /** The end of the arguments: nothing more, or `--` and what follows it. */
  predicate AtEnd(rest: seq<string>) { rest == [] || rest[0] == "--" }

  /** Whatever a program takes, written out in any of its forms and in any order, is reported to it
      in that order; the operands, and what follows `--`, are left. */
  lemma {:induction false} RoundTrip(cfg: Config, gs: seq<Given>, rest: seq<string>)
    requires (forall i :: 0 <= i < |gs| ==> Takes(cfg, gs[i])) && AtEnd(rest)
    ensures Reports(ReaderOf(cfg), WrittenAll(gs) + rest) == ToldAll(cfg, gs)
    ensures Others(ReaderOf(cfg), WrittenAll(gs) + rest) == LeftAll(gs) + (if rest == [] then [] else rest[1..])
    ensures !Overruns(ReaderOf(cfg), WrittenAll(gs) + rest)
    decreases |gs|
  {
    if gs == [] {
      assert WrittenAll(gs) + rest == rest;
    } else {
      var tail := WrittenAll(gs[1..]) + rest;
      RoundTrip(cfg, gs[1..], rest);
      GivenNext(cfg, gs, rest, tail, Written(gs[0]) + tail);
    }
  }

  lemma {:induction false} GivenNext(cfg: Config, gs: seq<Given>, rest: seq<string>, tail: seq<string>, a: seq<string>)
    requires gs != [] && Takes(cfg, gs[0]) && tail == WrittenAll(gs[1..]) + rest && a == Written(gs[0]) + tail
    requires Reports(ReaderOf(cfg), tail) == ToldAll(cfg, gs[1..]) && !Overruns(ReaderOf(cfg), tail)
    requires Others(ReaderOf(cfg), tail) == LeftAll(gs[1..]) + (if rest == [] then [] else rest[1..])
    ensures WrittenAll(gs) + rest == a && Reports(ReaderOf(cfg), a) == ToldAll(cfg, gs) && !Overruns(ReaderOf(cfg), a)
    ensures Others(ReaderOf(cfg), a) == LeftAll(gs) + (if rest == [] then [] else rest[1..])
  {
    GivenFirst(cfg, gs[0], a, tail);
    Joins(Written(gs[0]), WrittenAll(gs[1..]), rest);
    Joins(Left(gs[0]), LeftAll(gs[1..]), if rest == [] then [] else rest[1..]);
  }

  lemma {:induction false} Joins(x: seq<string>, y: seq<string>, z: seq<string>)
    ensures (x + y) + z == x + (y + z)
  {
  }

  /** A run of calls over what was written tells the program what was given, and leaves the operands
      at the end of the vector. */
  lemma {:induction false} RunReads(cfg: Config, orig: seq<string>, gs: seq<Given>, rest: seq<string>, a: seq<string>, ind: nat,
                                    reports: seq<Report>)
    requires (forall i :: 0 <= i < |gs| ==> Takes(cfg, gs[i])) && AtEnd(rest) && NoEnd(ToldAll(cfg, gs))
    requires orig != [] && orig[1..] == WrittenAll(gs) + rest && RunOutcome(ReaderOf(cfg), orig, a, ind, reports)
    ensures reports == ToldAll(cfg, gs)
    ensures ind <= |a| && a[ind..] == LeftAll(gs) + (if rest == [] then [] else rest[1..])
  {
    RoundTrip(cfg, gs, rest);
    var options, others := Options(ReaderOf(cfg), orig[1..]), Others(ReaderOf(cfg), orig[1..]);
    assert a == ([orig[0]] + options) + others && ind == |[orig[0]] + options|;
  }
}
