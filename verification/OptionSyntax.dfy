/** The option syntax of GNU getopt (argtable2/getopt.c): how one element is decoded, and
    the reference reading of an argument vector. */
module OptionSyntax {
  datatype Option<T> = None | Some(value: T)

  datatype LongOpt = LongOpt(name: string, hasArg: nat, flag: bool, val: int)

  /** The parameters of one program's calls; long is None when longopts is NULL. */
  datatype Config = Config(optstring: string, long: Option<seq<LongOpt>>, longOnly: bool)

  /** `NONOPTION_P` is its negation. */
  predicate IsOption(e: string) { |e| >= 2 && e[0] == '-' }

  /** The position of c in s, or |s|. */
  function IndexOf(s: string, c: char): (i: nat)
    ensures i <= |s| && (i < |s| ==> s[i] == c)
  {
    if s == "" then 0 else if s[0] == c then 0 else 1 + IndexOf(s[1..], c)
  }

  function CharAt(s: string, i: nat): char { if i < |s| then s[i] else '\0' }

  // ---------------------------------------------------------- long option names

  datatype Match = NoMatch | Ambiguous | Found(index: nat)

  predicate Abbreviates(name: string, o: LongOpt) { name <= o.name }

  /** The first option from i on that name abbreviates, or spells out if exact. */
  function FirstFrom(l: seq<LongOpt>, name: string, exact: bool, i: nat): (r: nat)
    requires i <= |l|
    ensures i <= r <= |l|
    decreases |l| - i
  {
    if i == |l| || (if exact then l[i].name == name else Abbreviates(name, l[i])) then i
    else FirstFrom(l, name, exact, i + 1)
  }

  /** An exact match wins; otherwise the abbreviation must be unique. */
  function Lookup(l: seq<LongOpt>, name: string): (m: Match)
    ensures m.Found? ==> m.index < |l|
  {
    var x, y := FirstFrom(l, name, true, 0), FirstFrom(l, name, false, 0);
    if x < |l| then Found(x)
    else if y == |l| then NoMatch
    else if FirstFrom(l, name, false, y + 1) == |l| then Found(y)
    else Ambiguous
  }

  // ------------------------------------------------------- decoding one option

  /** What a call returns, what is left of the element, and how many elements the
      scan moves on. */
  datatype Decoded = Decoded(ret: int, arg: Option<string>, next: string, take: nat)

  function MissingArgument(os: string): int { (if CharAt(os, 0) == ':' then ':' else '?') as int }

  function NameOf(nc: string): string { nc[..IndexOf(nc, '=')] }

  /** `-W name` read as `--name`, where the option string has `W;`.  An ambiguous name takes
      one element too many, which may lie past the end. */
  function DecodeW(l: seq<LongOpt>, os: string, a: seq<string>, next: string): (r: Decoded)
    requires |a| > 0
    ensures r.next == "" && 1 <= r.take <= 3 && r.take <= |a| + 1
  {
    if next == "" && |a| == 1 then Decoded(MissingArgument(os), None, "", 1)
    else
      var name, take := if next != "" then next else a[1], if next != "" then 1 else 2;
      match Lookup(l, NameOf(name))
      case Ambiguous => Decoded('?' as int, Some(name), "", take + 1)
      case NoMatch => Decoded('W' as int, Some(name), "", take)
      case Found(i) => DecodeNamed(os, l[i], a, name, take)
  }

  /** The long option of a `-W` that has taken the first elements of a. */
  function DecodeNamed(os: string, o: LongOpt, a: seq<string>, name: string, take: nat): (r: Decoded)
    requires 1 <= take <= 2 && take <= |a|
    ensures r.next == "" && 1 <= r.take <= 3 && r.take <= |a|
  {
    var e, val := IndexOf(name, '='), if o.flag then 0 else o.val;
    if e < |name| then
      if o.hasArg != 0 then Decoded(val, Some(name[e + 1..]), "", take) else Decoded('?' as int, Some(name), "", take)
    else if o.hasArg == 1 then
      if |a| > take then Decoded(val, Some(a[take]), "", take + 1) else Decoded(MissingArgument(os), Some(name), "", take)
    else Decoded(val, Some(name), "", take)
  }

  /** a is the rest of the argument vector, from the current element on. */
  function DecodeShort(l: seq<LongOpt>, os: string, a: seq<string>, nc: string): (r: Decoded)
    requires |a| > 0 && nc != ""
    ensures if r.take == 0 then r.next == nc[1..] != "" else r.next == "" && r.take <= 3 && r.take <= |a| + 1
  {
    var c, next, i := nc[0], nc[1..], IndexOf(os, nc[0]);
    var take := if next == "" then 1 else 0;
    if i == |os| || c == ':' then Decoded('?' as int, None, next, take)
    else if c == 'W' && CharAt(os, i + 1) == ';' then DecodeW(l, os, a, next)
    else if CharAt(os, i + 1) != ':' then Decoded(c as int, None, next, take)
    else if next != "" then Decoded(c as int, Some(next), "", 1)
    else if CharAt(os, i + 2) == ':' then Decoded(c as int, None, "", 1)
    else if |a| == 1 then Decoded(MissingArgument(os), None, "", 1)
    else Decoded(c as int, Some(a[1]), "", 2)
  }

  /** A matched long option. */
  function DecodeFound(os: string, o: LongOpt, a: seq<string>, nc: string): (r: Decoded)
    requires |a| > 0
    ensures r.next == "" && 1 <= r.take <= 2 && r.take <= |a|
  {
    var e, val := IndexOf(nc, '='), if o.flag then 0 else o.val;
    if e < |nc| then
      if o.hasArg != 0 then Decoded(val, Some(nc[e + 1..]), "", 1) else Decoded('?' as int, None, "", 1)
    else if o.hasArg == 1 then
      if |a| > 1 then Decoded(val, Some(a[1]), "", 2) else Decoded(MissingArgument(os), None, "", 1)
    else Decoded(val, None, "", 1)
  }

  /** Whether an element is tried as a long option first. */
  predicate TriesLong(cfg: Config, os: string, e: string)
    requires IsOption(e)
  {
    cfg.long.Some? && (e[1] == '-' || (cfg.longOnly && (|e| > 2 || IndexOf(os, e[1]) == |os|)))
  }

  function LongOpts(cfg: Config): seq<LongOpt> { if cfg.long.Some? then cfg.long.value else [] }

  function Decode(cfg: Config, os: string, a: seq<string>, nc: string): (r: Decoded)
    requires |a| > 0 && IsOption(a[0]) && nc != ""
    ensures if r.take == 0 then r.next == nc[1..] != "" else r.next == "" && r.take <= 3 && r.take <= |a| + 1
  {
    if TriesLong(cfg, os, a[0]) then
      match Lookup(cfg.long.value, NameOf(nc))
      case Ambiguous => Decoded('?' as int, None, "", 1)
      case Found(i) => DecodeFound(os, cfg.long.value[i], a, nc)
      case NoMatch =>
        if !cfg.longOnly || a[0][1] == '-' || IndexOf(os, nc[0]) == |os| then Decoded('?' as int, None, "", 1)
        else DecodeShort(LongOpts(cfg), os, a, nc)
    else DecodeShort(LongOpts(cfg), os, a, nc)
  }

  /** Where decoding of an option element starts. */
  function Start(cfg: Config, e: string): (nc: string)
    requires IsOption(e) && e != "--"
    ensures nc != ""
  {
    if cfg.long.Some? && e[1] == '-' then e[2..] else e[1..]
  }

  // ------------------------------------------------------------- decoders

  /** How the options of one program are read: where an option element starts, and what one
      option of it is, given the rest of the vector and what is left of the element. */
  datatype Syntax = Syntax(start: string -> string, decode: (seq<string>, string) -> Decoded)

  predicate Sane(a: seq<string>, nc: string, r: Decoded)
  {
    if r.take == 0 then nc != "" && r.next == nc[1..] != "" else r.next == "" && r.take <= 3 && r.take <= |a| + 1
  }

  ghost predicate Good(s: Syntax)
  {
    && (forall e :: IsOption(e) && e != "--" ==> s.start(e) != "")
    && forall a, nc :: a != [] && nc != "" ==> Sane(a, nc, s.decode(a, nc))
  }

  function NoStart(e: string): string { "-" }

  function NoDecode(a: seq<string>, nc: string): Decoded { Decoded('?' as int, None, "", 1) }

  type Reader = s: Syntax | Good(s) ghost witness Syntax(NoStart, NoDecode)

  function StartOf(cfg: Config, e: string): string { if IsOption(e) && e != "--" then Start(cfg, e) else NoStart(e) }

  function DecodeOf(cfg: Config, a: seq<string>, nc: string): Decoded
  {
    if a != [] && IsOption(a[0]) && nc != "" then Decode(cfg, cfg.optstring, a, nc) else NoDecode(a, nc)
  }

  /** The reader of a program's options. */
  function ReaderOf(cfg: Config): (r: Reader)
    ensures forall e :: r.start(e) == StartOf(cfg, e)
    ensures forall a, nc :: r.decode(a, nc) == DecodeOf(cfg, a, nc)
  {
    Syntax(e => StartOf(cfg, e), (a, nc) => DecodeOf(cfg, a, nc))
  }

  // -------------------------------------------------- the reference reading

  /** How many elements the option element a[0] and its argument take, from nc on. */
  function WidthFrom(syn: Reader, a: seq<string>, nc: string): (k: nat)
    requires |a| > 0 && IsOption(a[0]) && nc != ""
    ensures 1 <= k <= 3 && k <= |a| + 1
    decreases |nc|
  {
    var r := syn.decode(a, nc);
    if r.take > 0 then r.take else WidthFrom(syn, a, r.next)
  }

  function Width(syn: Reader, a: seq<string>): (k: nat)
    requires |a| > 0 && IsOption(a[0]) && a[0] != "--"
    ensures 1 <= k <= 3 && k <= |a| + 1
  {
    WidthFrom(syn, a, syn.start(a[0]))
  }

  /** The first k elements, and the others, as far as there are any. */
  function First(a: seq<string>, k: nat): seq<string> { if k <= |a| then a[..k] else a }

  function Rest(a: seq<string>, k: nat): (r: seq<string>)
    ensures k > 0 && a != [] ==> |r| < |a|
  {
    if k <= |a| then a[k..] else []
  }

  /** The options with their arguments, and `--`, in order. */
  function Options(syn: Reader, a: seq<string>): seq<string>
    decreases |a|
  {
    if a == [] then []
    else if a[0] == "--" then [a[0]]
    else if !IsOption(a[0]) then Options(syn, a[1..])
    else var k := Width(syn, a); First(a, k) + Options(syn, Rest(a, k))
  }

  /** The other arguments, and everything after `--`, in order. */
  function Others(syn: Reader, a: seq<string>): seq<string>
    decreases |a|
  {
    if a == [] then []
    else if a[0] == "--" then a[1..]
    else if !IsOption(a[0]) then [a[0]] + Others(syn, a[1..])
    else Others(syn, Rest(a, Width(syn, a)))
  }

  /** An option character or name as reported to the caller. */
  datatype Report = Report(ret: int, arg: Option<string>)

  function ReportsFrom(syn: Reader, a: seq<string>, nc: string): seq<Report>
    requires |a| > 0 && IsOption(a[0]) && nc != ""
    decreases |nc|
  {
    var r := syn.decode(a, nc);
    [Report(r.ret, r.arg)] + if r.take > 0 then [] else ReportsFrom(syn, a, r.next)
  }

  /** What the calls report, read off the original vector. */
  function Reports(syn: Reader, a: seq<string>): seq<Report>
    decreases |a|
  {
    if a == [] || a[0] == "--" then []
    else if !IsOption(a[0]) then Reports(syn, a[1..])
    else ReportsFrom(syn, a, syn.start(a[0])) + Reports(syn, Rest(a, Width(syn, a)))
  }

  /** Reading the vector meets an ambiguous `-W` name with no element behind it. */
  predicate Overruns(syn: Reader, a: seq<string>)
    decreases |a|
  {
    if a == [] || a[0] == "--" then false
    else if !IsOption(a[0]) then Overruns(syn, a[1..])
    else Width(syn, a) > |a| || Overruns(syn, Rest(a, Width(syn, a)))
  }

  lemma {:induction false} SplitPermutes(a: seq<string>, k: nat)
    ensures multiset(First(a, k)) + multiset(Rest(a, k)) == multiset(a)
  {
    assert a == First(a, k) + Rest(a, k);
  }

  /** Nothing is lost or invented. */
  lemma {:induction false} PartsPermute(syn: Reader, a: seq<string>)
    ensures multiset(Options(syn, a)) + multiset(Others(syn, a)) == multiset(a)
    decreases |a|
  {
    if a != [] && a[0] != "--" {
      if !IsOption(a[0]) {
        PartsPermute(syn, a[1..]);
        assert a == [a[0]] + a[1..];
      } else {
        var k := Width(syn, a);
        PartsPermute(syn, Rest(a, k));
        SplitPermutes(a, k);
      }
    } else if a != [] {
      assert a == [a[0]] + a[1..];
    }
  }

  // ------------------------------------------------------------ two oddities

  /** The last element is a `-W` name that abbreviates several long options. */
  predicate AmbiguousLast(l: seq<LongOpt>, os: string, a: seq<string>, nc: string)
    requires nc != ""
  {
    && nc[0] == 'W' && IndexOf(os, 'W') < |os| && CharAt(os, IndexOf(os, 'W') + 1) == ';'
    && (if nc == "W" then |a| == 2 && Lookup(l, NameOf(a[1])).Ambiguous?
        else |a| == 1 && Lookup(l, NameOf(nc[1..])).Ambiguous?)
  }

  /** The element e, with nc left of it, is dealt with as a long option, found or not. */
  predicate ReadAsLong(cfg: Config, os: string, e: string, nc: string)
    requires IsOption(e) && nc != ""
  {
    && TriesLong(cfg, os, e)
    && (!Lookup(cfg.long.value, NameOf(nc)).NoMatch? || !cfg.longOnly || e[1] == '-' || IndexOf(os, nc[0]) == |os|)
  }

  /** Decoding goes past the end of the vector on nothing else. */
  lemma {:induction false} OverrunExact(cfg: Config, os: string, a: seq<string>, nc: string)
    requires |a| > 0 && IsOption(a[0]) && nc != ""
    ensures Decode(cfg, os, a, nc).take > |a| <==>
              AmbiguousLast(LongOpts(cfg), os, a, nc) && !ReadAsLong(cfg, os, a[0], nc)
  {
  }

  /** A program with the long options `--ab` and `--ac`. */
  const AMBIGUOUS: Config := Config("W;", Some([LongOpt("ab", 0, false, 1), LongOpt("ac", 0, false, 2)]), false)

  lemma {:induction false} AmbiguousOverruns()
    ensures Overruns(ReaderOf(AMBIGUOUS), ["-Wa"])
  {
  }

  /** Nothing reported looks like the end to the caller. */
  predicate NoEnd(reports: seq<Report>) { forall i :: 0 <= i < |reports| ==> reports[i].ret != -1 }

  predicate SaysEnd(l: seq<LongOpt>, i: nat) { i < |l| && !l[i].flag && l[i].val == -1 }

  /** Decoding an option returns -1, which to the caller is the end, only for a long option
      with that value. */
  lemma {:induction false} EndReported(cfg: Config, os: string, a: seq<string>, nc: string)
    requires |a| > 0 && IsOption(a[0]) && nc != "" && Decode(cfg, os, a, nc).ret == -1
    ensures exists i :: SaysEnd(LongOpts(cfg), i)
  {
    var l, m := LongOpts(cfg), Lookup(LongOpts(cfg), NameOf(nc));
    if TriesLong(cfg, os, a[0]) && m.Found? {
      assert SaysEnd(l, m.index);
    } else {
      var w := Lookup(l, NameOf(if nc[1..] != "" then nc[1..] else a[1]));
      assert SaysEnd(l, w.index);
    }
  }

  lemma {:induction false} NoEndFrom(cfg: Config, a: seq<string>, nc: string)
    requires |a| > 0 && IsOption(a[0]) && nc != "" && !exists i :: SaysEnd(LongOpts(cfg), i)
    ensures NoEnd(ReportsFrom(ReaderOf(cfg), a, nc))
    decreases |nc|
  {
    var r := Decode(cfg, cfg.optstring, a, nc);
    if r.ret == -1 {
      EndReported(cfg, cfg.optstring, a, nc);
    }
    if r.take == 0 {
      NoEndFrom(cfg, a, r.next);
    }
  }

  /** Without such an option no report of a run does. */
  lemma {:induction false} NoEarlyEnd(cfg: Config, a: seq<string>)
    requires !exists i :: SaysEnd(LongOpts(cfg), i)
    ensures NoEnd(Reports(ReaderOf(cfg), a))
    decreases |a|
  {
    if a != [] && a[0] != "--" {
      if IsOption(a[0]) {
        NoEndFrom(cfg, a, Start(cfg, a[0]));
        NoEarlyEnd(cfg, Rest(a, Width(ReaderOf(cfg), a)));
      } else {
        NoEarlyEnd(cfg, a[1..]);
      }
    }
  }

  /** A program with a long option of value -1. */
  const ENDING: Config := Config("", Some([LongOpt("x", 0, false, -1)]), false)

  lemma {:induction false} EndsEarly(rest: seq<string>)
    ensures var r := Reports(ReaderOf(ENDING), ["--x"] + rest); r != [] && r[0].ret == -1
  {
  }
}
