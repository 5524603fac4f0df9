/** The command line of the encoder: matching one argument against an option, parsing one stream's options while
    compacting the argument vector in place, and the loop over all streams separated by "--". */
module StreamArgs {
  import opened Wrappers

  // ----- One option

  datatype ArgDef = ArgDef(shortName: Option<string>, longName: Option<string>, hasVal: bool)

  /** The result of matching: no match, a fatal error, or a value and the number of arguments used. */
  datatype Match = NoMatch | Fatal | Matched(val: Option<string>, step: nat)

  predicate ShortMatches(def: ArgDef, a: string) {
    def.shortName.Some? && |a| == |def.shortName.value| + 1 && a[0] == '-' && a[1..] == def.shortName.value
  }

  predicate LongMatches(def: ArgDef, a: string) {
    def.longName.Some? && var n := |def.longName.value|;
    |a| >= n + 2 && a[0] == '-' && a[1] == '-' && a[2..n + 2] == def.longName.value && (|a| == n + 2 || a[n + 2] == '=')
  }

  /** Matching the first of some arguments. */
  function MatchOf(def: ArgDef, args: seq<string>): (m: Match)
    requires args != []
    ensures m.Matched? ==> 1 <= m.step <= |args|
  {
    var a := args[0];
    if ShortMatches(def, a) then
      if !def.hasVal then Matched(None, 1) else if |args| > 1 then Matched(Some(args[1]), 2) else Fatal
    else if LongMatches(def, a) then
      var n := |def.longName.value|;
      var val := if |a| > n + 2 then Some(a[n + 3..]) else None;
      if val.Some? == def.hasVal then Matched(val, 1) else Fatal
    else NoMatch
  }

  /** The options of a program: those tried in turn, and the codec's controls, which are all tried. Parsing the
      value of an option can be fatal too. */
  datatype Table = Table(defs: seq<ArgDef>, ctrls: seq<ArgDef>, parses: (nat, Option<string>) -> bool)

  /** An option given, by its number, with its value. */
  datatype Setting = Setting(option: nat, val: Option<string>)

  datatype Consumed = Nothing | Error | Used(settings: seq<Setting>, step: nat)

  function FromDefs(t: Table, args: seq<string>, k: nat): (c: Consumed)
    requires args != [] && k <= |t.defs|
    ensures c.Used? ==> 1 <= c.step <= |args|
    decreases |t.defs| - k
  {
    if k == |t.defs| then Nothing
    else
      match MatchOf(t.defs[k], args)
      case NoMatch => FromDefs(t, args, k + 1)
      case Fatal => Error
      case Matched(v, step) => if t.parses(k, v) then Used([Setting(k, v)], step) else Error
  }

  function FromCtrls(t: Table, args: seq<string>, k: nat, sofar: Consumed): (c: Consumed)
    requires args != [] && k <= |t.ctrls| && !sofar.Error? && (sofar.Used? ==> 1 <= sofar.step <= |args|)
    ensures c.Used? ==> 1 <= c.step <= |args|
    decreases |t.ctrls| - k
  {
    if k == |t.ctrls| then sofar
    else
      match MatchOf(t.ctrls[k], args)
      case NoMatch => FromCtrls(t, args, k + 1, sofar)
      case Fatal => Error
      case Matched(v, step) =>
        var id := |t.defs| + k;
        if !t.parses(id, v) then Error
        else FromCtrls(t, args, k + 1, Used((if sofar.Used? then sofar.settings else []) + [Setting(id, v)], step))
  }

  /** What happens to the first of some arguments. */
  function Consume(t: Table, args: seq<string>): (c: Consumed)
    requires args != []
    ensures c.Used? ==> 1 <= c.step <= |args|
  {
    match FromDefs(t, args, 0)
    case Nothing => FromCtrls(t, args, 0, Nothing)
    case c => c
  }

  // ----- One stream

  const SEPARATOR := "--"

  /** The outcome for one stream: its settings, the arguments left over, whether a separator ended it. */
  datatype Parsed = Died | Parsed(settings: seq<Setting>, left: seq<string>, more: bool)

  function Kept(a: string, p: Parsed): Parsed {
    match p
    case Died => Died
    case Parsed(s, left, more) => Parsed(s, [a] + left, more)
  }

  function Given(s: seq<Setting>, p: Parsed): Parsed {
    match p
    case Died => Died
    case Parsed(s1, left, more) => Parsed(s + s1, left, more)
  }

  /** Parsing of one stream: up to the first separator options are taken out, everything else stays. */
  function ParseStream(t: Table, args: seq<string>): (p: Parsed)
    ensures p.Parsed? ==> |p.left| <= |args| && (p.more ==> |p.left| < |args|)
    decreases |args|
  {
    if args == [] then Parsed([], [], false)
    else if args[0] == SEPARATOR then Parsed([], args[1..], true)
    else
      match Consume(t, args)
      case Error => Died
      case Nothing => Kept(args[0], ParseStream(t, args[1..]))
      case Used(s, step) => Given(s, ParseStream(t, args[step..]))
  }

  // ----- The argument vector: pointers to strings, ended by a null pointer

  type Vector = seq<Option<string>>

  ghost predicate Terminated(v: Vector, n: nat) {
    n < |v| && v[n] == None && forall i :: 0 <= i < n ==> v[i].Some?
  }

  /** The strings from an index up to the terminator at n. */
  ghost function Strings(v: Vector, i: nat, n: nat): (r: seq<string>)
    requires i <= n && Terminated(v, n)
    ensures |r| == n - i && forall k :: 0 <= k < |r| ==> r[k] == v[i + k].value
  {
    seq(n - i, k requires 0 <= k < n - i => v[i + k].value)
  }

  method ArgMatch(def: ArgDef, argv: array<Option<string>>, at: nat, ghost n: nat) returns (m: Match)
    requires at < n && Terminated(argv[..], n)
    ensures m == MatchOf(def, Strings(argv[..], at, n))
  {
    ghost var args := Strings(argv[..], at, n);
    var a := argv[at].value;
    assert a == args[0] && argv[at + 1] == if |args| > 1 then Some(args[1]) else None;
    if a == "" || a[0] != '-' { return NoMatch; }
    var named, val, step := false, None, 1;
    if def.shortName.Some? && |a| == |def.shortName.value| + 1 && a[1..] == def.shortName.value {
      named := true;
      val := if def.hasVal then argv[at + 1] else None;
      step := if def.hasVal then 2 else 1;
    } else if def.longName.Some? {
      var len := |def.longName.value|;
      if |a| >= len + 2 && a[1] == '-' && a[2..len + 2] == def.longName.value && (|a| == len + 2 || a[len + 2] == '=') {
        named := true;
        val := if |a| > len + 2 then Some(a[len + 3..]) else None;
        step := 1;
      }
    }
    if named && val.None? && def.hasVal { return Fatal; }
    if named && val.Some? && !def.hasVal { return Fatal; }
    if named { return Matched(val, step); }
    return NoMatch;
  }

  method ConsumeAt(t: Table, argv: array<Option<string>>, at: nat, ghost n: nat) returns (c: Consumed)
    requires at < n && Terminated(argv[..], n)
    ensures c == Consume(t, Strings(argv[..], at, n))
  {
    hide MatchOf;
    ghost var args := Strings(argv[..], at, n);
    var k := 0;
    while k < |t.defs|
      invariant k <= |t.defs| && FromDefs(t, args, 0) == FromDefs(t, args, k)
    {
      var m := ArgMatch(t.defs[k], argv, at, n);
      match m {
        case NoMatch => k := k + 1;
        case Fatal => return Error;
        case Matched(v, step) =>
          if !t.parses(k, v) { return Error; }
          return Used([Setting(k, v)], step);
      }
    }
    c := Nothing;
    k := 0;
    while k < |t.ctrls|
      invariant k <= |t.ctrls| && !c.Error? && (c.Used? ==> 1 <= c.step <= |args|)
      invariant Consume(t, args) == FromCtrls(t, args, k, c)
    {
      var m := ArgMatch(t.ctrls[k], argv, at, n);
      match m {
        case NoMatch =>
        case Fatal => return Error;
        case Matched(v, step) =>
          if !t.parses(|t.defs| + k, v) { return Error; }
          c := Used((if c.Used? then c.settings else []) + [Setting(|t.defs| + k, v)], step);
      }
      k := k + 1;
    }
  }

  /** The outcome when some arguments have been kept and some settings made before the rest. */
  function Resume(t: Table, kept: seq<string>, settings: seq<Setting>, more: bool, rest: seq<string>): Parsed {
    if more then Parsed(settings, kept + rest, true)
    else
      match ParseStream(t, rest)
      case Died => Died
      case Parsed(s, left, m) => Parsed(settings + s, kept + left, m)
  }

  lemma {:induction false} ResumeKeeps(
      t: Table, kept: seq<string>, settings: seq<Setting>, more: bool, rest: seq<string>)
    requires rest != [] && (more || (rest[0] != SEPARATOR && Consume(t, rest).Nothing?))
    ensures Resume(t, kept, settings, more, rest) == Resume(t, kept + [rest[0]], settings, more, rest[1..])
  {
    hide Consume;
    if more {
      assert kept + rest == kept + [rest[0]] + rest[1..];
    } else if ParseStream(t, rest[1..]).Parsed? {
      var left := ParseStream(t, rest[1..]).left;
      assert kept + ([rest[0]] + left) == kept + [rest[0]] + left;
    }
  }

  lemma {:induction false} ResumeUses(t: Table, kept: seq<string>, settings: seq<Setting>, rest: seq<string>)
    requires rest != [] && rest[0] != SEPARATOR && Consume(t, rest).Used?
    ensures var c := Consume(t, rest);
      Resume(t, kept, settings, false, rest) == Resume(t, kept, settings + c.settings, false, rest[c.step..])
  {
    hide Consume;
    var c := Consume(t, rest);
    if ParseStream(t, rest[c.step..]).Parsed? {
      var s := ParseStream(t, rest[c.step..]).settings;
      assert settings + (c.settings + s) == settings + c.settings + s;
    }
  }

  lemma {:induction false} ResumeSeparator(t: Table, kept: seq<string>, settings: seq<Setting>, rest: seq<string>)
    requires rest != [] && rest[0] == SEPARATOR
    ensures Resume(t, kept, settings, false, rest) == Resume(t, kept, settings, true, rest[1..])
  {
    assert settings + [] == settings;
  }

  lemma {:induction false} ResumeEnds(t: Table, kept: seq<string>, settings: seq<Setting>, more: bool)
    ensures Resume(t, kept, settings, more, []) == Parsed(settings, kept, more)
  {
    assert settings + [] == settings && kept + [] == kept;
  }

  /** A vector being compacted: the arguments kept in front, the current argument after them, and from argi on
      the vector as it was. */
  ghost predicate Compacting(v: Vector, was: Vector, kept: seq<string>, argi: nat, n: nat) {
    && Terminated(was, n) && |v| == |was| && |kept| <= argi <= n
    && (forall i :: 0 <= i < |kept| ==> v[i] == Some(kept[i]))
    && v[|kept|] == was[argi] && (forall i :: argi <= i <= n ==> v[i] == was[i])
    && (argi < n ==> Terminated(v, n))
  }

  lemma {:induction false} CompactStep(
      v: Vector, was: Vector, kept: seq<string>, argi: nat, n: nat, keep: bool, step: nat)
    requires Compacting(v, was, kept, argi, n) && argi < n && 1 <= step && argi + step <= n
    ensures var k := if keep then kept + [was[argi].value] else kept;
      v[argi + step] == was[argi + step]
      && Compacting(v[|k| := was[argi + step]], was, k, argi + step, n)
  {
  }

  lemma {:induction false} CompactRest(v: Vector, was: Vector, kept: seq<string>, argi: nat, n: nat)
    requires Compacting(v, was, kept, argi, n) && argi < n
    ensures Terminated(v, n) && Strings(v, argi, n) == Strings(was, 0, n)[argi..]
        && v[|kept|] == Some(Strings(was, 0, n)[argi])
  {
  }

  lemma {:induction false} CompactEnd(v: Vector, was: Vector, kept: seq<string>, argi: nat, n: nat)
    requires Compacting(v, was, kept, argi, n)
    ensures v[|kept|].Some? <==> argi < n
    ensures argi == n ==> |kept| <= n && Terminated(v, |kept|) && Strings(v, 0, |kept|) == kept
    ensures argi == n ==> Strings(was, 0, n)[argi..] == []
  {
  }

  lemma {:induction false} CompactStart(was: Vector, n: nat)
    requires Terminated(was, n)
    ensures Compacting(was, was, [], 0, n)
  {
  }

  lemma {:induction false} CompactBounds(v: Vector, was: Vector, kept: seq<string>, argi: nat, n: nat)
    requires Compacting(v, was, kept, argi, n)
    ensures |kept| <= argi <= n < |v|
  {
  }

  /** Parses one stream's options and closes the gaps in the vector; died stands for the end of the program. */
  method ParseStreamParams(t: Table, argv: array<Option<string>>, ghost n: nat)
    returns (died: bool, settings: seq<Setting>, more: bool, ghost left: nat)
    requires Terminated(argv[..], n)
    modifies argv
    ensures match ParseStream(t, old(Strings(argv[..], 0, n)))
      case Died => died
      case Parsed(s, rest, m) => (
        && !died && settings == s && more == m && left <= n && Terminated(argv[..], left)
            && Strings(argv[..], 0, left) == rest)
  {
    hide Consume, ParseStream, Resume, Compacting, Strings, Terminated;
    ghost var args, whole, was := Strings(argv[..], 0, n), ParseStream(t, Strings(argv[..], 0, n)), argv[..];
    ghost var kept: seq<string> := [];
    ResumeStarts(t, args);
    CompactStart(was, n);
    CompactBounds(was, was, kept, 0, n);
    var argi, argj := 0, 0;
    died, settings, more, left := false, [], false, 0;
    argv[argj] := argv[argi];
    assert argv[..] == was;
    while argv[argj].Some?
      invariant argj == |kept| && argj <= argi <= n < argv.Length
      invariant Compacting(argv[..], was, kept, argi, n)
      invariant !died && whole == Resume(t, kept, settings, more, args[argi..])
      decreases n - argi
    {
      CompactEnd(argv[..], was, kept, argi, n);
      CompactRest(argv[..], was, kept, argi, n);
      ghost var rest, before := args[argi..], argv[..];
      var step, keep := 1, false;
      if more {
        ResumeKeeps(t, kept, settings, more, rest);
        keep := true;
      } else if argv[argj].value == SEPARATOR {
        ResumeSeparator(t, kept, settings, rest);
        more := true;
      } else {
        var c := ConsumeAt(t, argv, argi, n);
        match c {
          case Error =>
            ResumeDies(t, kept, settings, rest);
            return true, settings, more, 0;
          case Used(s, k) =>
            ResumeUses(t, kept, settings, rest);
            settings, step := settings + s, k;
          case Nothing =>
            ResumeKeeps(t, kept, settings, more, rest);
            keep := true;
        }
      }
      CompactStep(before, was, kept, argi, n, keep, step);
      assert rest[step..] == args[argi + step..];
      if keep {
        kept := kept + [rest[0]];
        argj := argj + 1;
      }
      argi := argi + step;
      argv[argj] := argv[argi];
      assert argv[..] == before[argj := was[argi]];
    }
    CompactEnd(argv[..], was, kept, argi, n);
    ResumeEnds(t, kept, settings, more);
    left := argj;
  }

  lemma {:induction false} ResumeStarts(t: Table, args: seq<string>)
    ensures ParseStream(t, args) == Resume(t, [], [], false, args[0..])
  {
    assert args[0..] == args;
    if ParseStream(t, args).Parsed? {
      var p := ParseStream(t, args);
      assert [] + p.settings == p.settings && [] + p.left == p.left;
    }
  }

  lemma {:induction false} ResumeDies(t: Table, kept: seq<string>, settings: seq<Setting>, rest: seq<string>)
    requires rest != [] && rest[0] != SEPARATOR && Consume(t, rest).Error?
    ensures Resume(t, kept, settings, false, rest) == Died
  {
  }

  // ----- All streams

  datatype AllParsed = AllDied | AllParsed(streams: seq<seq<Setting>>, left: seq<string>)

  function AddStream(s: seq<Setting>, r: AllParsed): AllParsed {
    match r
    case AllDied => AllDied
    case AllParsed(streams, left) => AllParsed([s] + streams, left)
  }

  /** One pass over the vector for every stream, each on what the one before left. */
  function ParseAll(t: Table, args: seq<string>): AllParsed
    decreases |args|
  {
    match ParseStream(t, args)
    case Died => AllDied
    case Parsed(s, left, more) => if more then AddStream(s, ParseAll(t, left)) else AllParsed([s], left)
  }

  /** The loop over the streams ends, since every separator found makes the vector shorter. */
  method ParseStreams(t: Table, argv: array<Option<string>>, ghost n: nat)
    returns (died: bool, streams: seq<seq<Setting>>, ghost left: nat)
    requires Terminated(argv[..], n)
    modifies argv
    ensures match ParseAll(t, old(Strings(argv[..], 0, n)))
      case AllDied => died
      case AllParsed(all, rest) => (
        && !died && streams == all && left <= n && Terminated(argv[..], left) && Strings(argv[..], 0, left) == rest)
  {
    hide ParseStream;
    ghost var whole := ParseAll(t, Strings(argv[..], 0, n));
    streams, left, died := [], n, false;
    var more := true;
    while more
      invariant left <= n && Terminated(argv[..], left) && !died
      invariant more ==> whole == After(streams, ParseAll(t, Strings(argv[..], 0, left)))
      invariant !more ==> whole == AllParsed(streams, Strings(argv[..], 0, left))
      decreases more, left
    {
      ghost var args := Strings(argv[..], 0, left);
      var settings;
      died, settings, more, left := ParseStreamParams(t, argv, left);
      if died { return; }
      assert more ==> left < |args| by { Shorter(t, args); }
      AfterOneMore(streams, settings, if more then ParseAll(t, Strings(argv[..], 0, left))
          else AllParsed([], Strings(argv[..], 0, left)));
      streams := streams + [settings];
    }
  }

  lemma {:induction false} Shorter(t: Table, args: seq<string>)
    ensures var p := ParseStream(t, args); p.Parsed? && p.more ==> |p.left| < |args|
  {
  }

  function After(s: seq<seq<Setting>>, r: AllParsed): AllParsed {
    match r
    case AllDied => AllDied
    case AllParsed(streams, left) => AllParsed(s + streams, left)
  }

  lemma {:induction false} AfterOneMore(s: seq<seq<Setting>>, x: seq<Setting>, r: AllParsed)
    ensures After(s, AddStream(x, r)) == After(s + [x], r)
    ensures After(s, AllParsed([x], [])).streams == s + [x]
  {
    if r.AllParsed? {
      assert s + ([x] + r.streams) == s + [x] + r.streams;
    }
  }

  // ----- What the passes over the vector amount to

  predicate Matches(def: ArgDef, a: string) { ShortMatches(def, a) || LongMatches(def, a) }

  /** An argument that is no option of the program. */
  ghost predicate Foreign(t: Table, a: string) {
    && (forall k :: 0 <= k < |t.defs| ==> !Matches(t.defs[k], a))
    && (forall k :: 0 <= k < |t.ctrls| ==> !Matches(t.ctrls[k], a))
  }

  lemma {:induction false} NoDefMatches(t: Table, args: seq<string>, k: nat)
    requires args != [] && k <= |t.defs|
    ensures FromDefs(t, args, k).Nothing? <==> forall i :: k <= i < |t.defs| ==> !Matches(t.defs[i], args[0])
    decreases |t.defs| - k
  {
    if k < |t.defs| {
      NoDefMatches(t, args, k + 1);
    }
  }

  lemma {:induction false} NoCtrlMatches(t: Table, args: seq<string>, k: nat, sofar: Consumed)
    requires args != [] && k <= |t.ctrls| && !sofar.Error? && (sofar.Used? ==> 1 <= sofar.step <= |args|)
    ensures FromCtrls(t, args, k, sofar).Nothing?
      <==> sofar.Nothing? && forall i :: k <= i < |t.ctrls| ==> !Matches(t.ctrls[i], args[0])
    decreases |t.ctrls| - k
  {
    if k < |t.ctrls| {
      match MatchOf(t.ctrls[k], args) {
        case NoMatch => NoCtrlMatches(t, args, k + 1, sofar);
        case Fatal =>
        case Matched(v, step) =>
          if t.parses(|t.defs| + k, v) {
            NoCtrlMatches(t, args, k + 1,
                Used((if sofar.Used? then sofar.settings else []) + [Setting(|t.defs| + k, v)], step));
          }
      }
    }
  }

  /** Whether an argument is an option does not depend on those after it. */
  lemma {:induction false} ForeignIsLeft(t: Table, args: seq<string>)
    requires args != []
    ensures Consume(t, args).Nothing? <==> Foreign(t, args[0])
  {
    hide MatchOf, Matches;
    NoDefMatches(t, args, 0);
    NoCtrlMatches(t, args, 0, Nothing);
  }

  ghost predicate AllForeign(t: Table, args: seq<string>) {
    forall i :: 0 <= i < |args| ==> args[i] != SEPARATOR && Foreign(t, args[i])
  }

  function KeepAll(kept: seq<string>, r: AllParsed): AllParsed {
    match r
    case AllDied => AllDied
    case AllParsed(streams, left) => AllParsed(streams, kept + left)
  }

  /** The whole command line in one pass from left to right: a separator starts the next stream, an option goes to
      the current stream, anything else is left over. */
  function OnePass(t: Table, args: seq<string>, current: seq<Setting>): AllParsed
    decreases |args|
  {
    if args == [] then AllParsed([current], [])
    else if args[0] == SEPARATOR then AddStream(current, OnePass(t, args[1..], []))
    else
      match Consume(t, args)
      case Error => AllDied
      case Nothing => KeepAll([args[0]], OnePass(t, args[1..], current))
      case Used(s, step) => OnePass(t, args[step..], current + s)
  }

  /** Arguments that are no options stay in front of whatever a stream leaves. */
  lemma {:induction false} ForeignStays(t: Table, kept: seq<string>, args: seq<string>)
    requires AllForeign(t, kept)
    ensures ParseStream(t, kept + args) == match ParseStream(t, args)
      case Died => Died
      case Parsed(s, left, more) => Parsed(s, kept + left, more)
    decreases |kept|
  {
    hide Consume, Foreign;
    if kept == [] {
      assert kept + args == args;
      if ParseStream(t, args).Parsed? {
        assert kept + ParseStream(t, args).left == ParseStream(t, args).left;
      }
    } else {
      var all := kept + args;
      assert all[0] == kept[0] && all[1..] == kept[1..] + args;
      ForeignIsLeft(t, all);
      ForeignStays(t, kept[1..], args);
      if ParseStream(t, args).Parsed? {
        var left := ParseStream(t, args).left;
        assert [kept[0]] + (kept[1..] + left) == kept + left;
      }
    }
  }

  /** One stream's pass is the one-pass form up to the first separator: it leaves what is no option before the
      separator, and everything after it. */
  lemma {:induction false} FirstSegment(
      t: Table, args: seq<string>, current: seq<Setting>) returns (kept: seq<string>, rest: seq<string>)
    ensures AllForeign(t, kept)
    ensures match ParseStream(t, args)
      case Died => OnePass(t, args, current) == AllDied
      case Parsed(s, left, false) => OnePass(t, args, current) == AllParsed([current + s], left) && left == kept
      case Parsed(s, left, true) => (
        && left == kept + rest && |rest| < |args|
        && OnePass(t, args, current) == KeepAll(kept, AddStream(current + s, OnePass(t, rest, []))))
    decreases |args|
  {
    hide Consume, Foreign;
    if args == [] {
      kept, rest := [], [];
      assert current + [] == current;
    } else if args[0] == SEPARATOR {
      kept, rest := [], args[1..];
      assert current + [] == current && kept + rest == rest;
      KeepNone(AddStream(current, OnePass(t, rest, [])));
    } else {
      match Consume(t, args) {
        case Error => kept, rest := [], [];
        case Nothing =>
          ForeignIsLeft(t, args);
          var k;
          k, rest := FirstSegment(t, args[1..], current);
          kept := [args[0]] + k;
          FirstKept(t, args[0], k, rest, OnePass(t, rest, []));
        case Used(s, step) =>
          kept, rest := FirstSegment(t, args[step..], current + s);
          var p := ParseStream(t, args[step..]);
          if p.Parsed? {
            assert current + s + p.settings == current + (s + p.settings);
          }
      }
    }
  }

  lemma {:induction false} KeepNone(r: AllParsed)
    ensures KeepAll([], r) == r
  {
    if r.AllParsed? { assert [] + r.left == r.left; }
  }

  lemma {:induction false} FirstKept(t: Table, a: string, k: seq<string>, rest: seq<string>, r: AllParsed)
    ensures [a] + (k + rest) == [a] + k + rest
    ensures forall s :: KeepAll([a], KeepAll(k, AddStream(s, r))) == KeepAll([a] + k, AddStream(s, r))
  {
    if r.AllParsed? { assert [a] + (k + r.left) == [a] + k + r.left; }
  }

  lemma {:induction false} PassesAgree(t: Table, kept: seq<string>, args: seq<string>)
    requires AllForeign(t, kept)
    ensures ParseAll(t, kept + args) == KeepAll(kept, OnePass(t, args, []))
    decreases |args|
  {
    hide ParseStream, OnePass, Foreign;
    ForeignStays(t, kept, args);
    var k, rest := FirstSegment(t, args, []);
    var p := ParseStream(t, args);
    if p.Parsed? {
      assert [] + p.settings == p.settings;
      if p.more {
        PassesAgree(t, kept + k, rest);
        assert kept + (k + rest) == kept + k + rest;
        var r := OnePass(t, rest, []);
        if r.AllParsed? { assert kept + (k + r.left) == kept + k + r.left; }
      }
    }
  }

  /** The loop over the streams, with one pass over the shrinking vector for each, does the same as a single pass
      from left to right: the same settings for every stream, and the same arguments left in their order. */
  lemma {:induction false} StreamsInOnePass(t: Table, args: seq<string>)
    ensures ParseAll(t, args) == OnePass(t, args, [])
  {
    hide ParseAll, OnePass;
    PassesAgree(t, [], args);
    assert [] + args == args;
    KeepNone(OnePass(t, args, []));
  }

  /** What is left in the end holds neither an option nor a separator. */
  lemma {:induction false} LeftoversForeign(t: Table, args: seq<string>, current: seq<Setting>)
    ensures var r := OnePass(t, args, current); r.AllParsed? ==> AllForeign(t, r.left) && |r.streams| > 0
    decreases |args|
  {
    hide Consume, Foreign;
    if args != [] {
      if args[0] == SEPARATOR {
        LeftoversForeign(t, args[1..], []);
      } else {
        match Consume(t, args) {
          case Error =>
          case Nothing => ForeignIsLeft(t, args); LeftoversForeign(t, args[1..], current);
          case Used(s, step) => LeftoversForeign(t, args[step..], current + s);
        }
      }
    }
  }

  // ----- How options are written

  ghost predicate ShortNamed(def: ArgDef, a: string) { def.shortName.Some? && a == "-" + def.shortName.value }

  /** An argument names an option: a dash and the short name, or two dashes and the long name, either alone or with
      an equals sign and a value. */
  ghost predicate Names(def: ArgDef, a: string) {
    || ShortNamed(def, a)
    || (def.longName.Some? && a == "--" + def.longName.value)
    || (def.longName.Some? && exists v :: a == "--" + def.longName.value + "=" + v)
  }

  /** The first n arguments give the option the value, or none to an option without one. */
  ghost predicate Gives(def: ArgDef, args: seq<string>, val: Option<string>, n: nat)
    requires args != []
  {
    if ShortNamed(def, args[0]) then
      if def.hasVal then n == 2 && |args| > 1 && val == Some(args[1]) else n == 1 && val == None
    else
      && def.longName.Some? && n == 1
      && if def.hasVal then val.Some? && args[0] == "--" + def.longName.value + "=" + val.value
         else val == None && args[0] == "--" + def.longName.value
  }

  lemma {:induction false} ShortIsNamed(def: ArgDef, a: string)
    ensures ShortMatches(def, a) <==> ShortNamed(def, a)
  {
  }

  lemma {:induction false} LongIsNamed(def: ArgDef, a: string) returns (v: string)
    requires def.longName.Some?
    ensures var n := |def.longName.value|; var head := "--" + def.longName.value;
      && (LongMatches(def, a) <==> a == head || exists v :: a == head + "=" + v)
      && (a == head ==> |a| == n + 2)
      && (LongMatches(def, a) && |a| > n + 2 ==> v == a[n + 3..] && a == head + "=" + v)
      && (forall u :: a == head + "=" + u ==> |a| > n + 2 && u == a[n + 3..])
  {
    var n, head := |def.longName.value|, "--" + def.longName.value;
    v := if |a| > n + 2 then a[n + 3..] else "";
    if LongMatches(def, a) {
      assert a[..n + 2] == head;
      if |a| > n + 2 {
        assert a == a[..n + 2] + [a[n + 2]] + a[n + 3..];
      } else {
        assert a == a[..n + 2];
      }
    }
    forall u | a == head + "=" + u ensures LongMatches(def, a) && |a| > n + 2 && u == a[n + 3..] {
      assert a[2..n + 2] == def.longName.value && a[n + 2] == '=';
    }
    if a == head {
      assert a[2..n + 2] == def.longName.value;
    }
  }

  /** Matching finds out whether the option is named and which value it is given; it is fatal when it is named but
      given none, or given one that it does not take. */
  lemma {:induction false} MatchIsGiven(def: ArgDef, args: seq<string>)
    requires args != []
    ensures match MatchOf(def, args)
      case NoMatch => !Names(def, args[0])
      case Fatal => Names(def, args[0]) && forall val, n :: !Gives(def, args, val, n)
      case Matched(val, n) => (
        && Names(def, args[0]) && Gives(def, args, val, n)
        && forall u, m :: Gives(def, args, u, m) ==> u == val && m == n)
  {
    var a := args[0];
    ShortIsNamed(def, a);
    if def.longName.Some? {
      var v := LongIsNamed(def, a);
    }
    hide ShortMatches, LongMatches;
  }

  /** Option k is the first of those tried in turn that an argument names. */
  ghost predicate FirstNamed(t: Table, a: string, k: nat) {
    k < |t.defs| && Names(t.defs[k], a) && forall i :: 0 <= i < k ==> !Names(t.defs[i], a)
  }

  ghost predicate NoneNamed(t: Table, a: string) { forall i :: 0 <= i < |t.defs| ==> !Names(t.defs[i], a) }

  lemma {:induction false} SkipsUnnamed(t: Table, args: seq<string>, i: nat, k: nat)
    requires args != [] && i <= k <= |t.defs| && forall j :: i <= j < k ==> !Names(t.defs[j], args[0])
    ensures FromDefs(t, args, i) == FromDefs(t, args, k)
    decreases k - i
  {
    hide MatchOf, Names;
    if i < k {
      MatchIsGiven(t.defs[i], args);
      SkipsUnnamed(t, args, i + 1, k);
    }
  }

  /** The first option named decides: it is set to the value given, if that is acceptable, and otherwise the program
      ends. */
  lemma {:induction false} OptionIsSet(t: Table, args: seq<string>, k: nat)
    requires args != [] && FirstNamed(t, args[0], k)
    ensures match Consume(t, args)
      case Nothing => false
      case Error => forall val, n :: Gives(t.defs[k], args, val, n) ==> !t.parses(k, val)
      case Used(s, n) => |s| == 1 && s[0].option == k && Gives(t.defs[k], args, s[0].val, n) && t.parses(k, s[0].val)
  {
    hide MatchOf, Names, Gives;
    SkipsUnnamed(t, args, 0, k);
    MatchIsGiven(t.defs[k], args);
  }

  /** The settings for the controls from k on: one for each that is named, in their order, with the value given; n is
      the number of arguments that the last of them takes. */
  ghost predicate ControlsGive(t: Table, args: seq<string>, k: nat, s: seq<Setting>, n: nat)
    requires args != [] && k <= |t.ctrls|
    decreases |t.ctrls| - k
  {
    if k == |t.ctrls| then s == []
    else if Names(t.ctrls[k], args[0]) then
      && s != [] && s[0].option == |t.defs| + k && t.parses(s[0].option, s[0].val)
      && (exists m :: Gives(t.ctrls[k], args, s[0].val, m) && (|s| == 1 ==> m == n))
      && ControlsGive(t, args, k + 1, s[1..], n)
    else ControlsGive(t, args, k + 1, s, n)
  }

  lemma {:induction false} ControlsSet(t: Table, args: seq<string>, k: nat, sofar: Consumed)
      returns (s: seq<Setting>, n: nat)
    requires args != [] && k <= |t.ctrls| && !sofar.Error? && (sofar.Used? ==> 1 <= sofar.step <= |args|)
    ensures var c := FromCtrls(t, args, k, sofar); !c.Error? ==>
      && ControlsGive(t, args, k, s, n)
      && c == if s == [] then sofar else Used((if sofar.Used? then sofar.settings else []) + s, n)
    decreases |t.ctrls| - k
  {
    hide MatchOf, Names, Gives;
    s, n := [], 0;
    if k < |t.ctrls| {
      MatchIsGiven(t.ctrls[k], args);
      match MatchOf(t.ctrls[k], args) {
        case NoMatch => s, n := ControlsSet(t, args, k + 1, sofar);
        case Fatal =>
        case Matched(v, step) =>
          var x := Setting(|t.defs| + k, v);
          if t.parses(x.option, v) {
            var before := if sofar.Used? then sofar.settings else [];
            var rest, m := ControlsSet(t, args, k + 1, Used(before + [x], step));
            s, n := [x] + rest, if rest == [] then step else m;
            assert s[1..] == rest && before + [x] + rest == before + s;
            if rest == [] && FromCtrls(t, args, k, sofar).Used? {
              NoControls(t, args, k + 1, m, n);
            }
          }
      }
    }
  }

  lemma {:induction false} NoControls(t: Table, args: seq<string>, k: nat, m: nat, n: nat)
    requires args != [] && k <= |t.ctrls| && ControlsGive(t, args, k, [], m)
    ensures ControlsGive(t, args, k, [], n)
    decreases |t.ctrls| - k
  {
    hide Names;
    if k < |t.ctrls| {
      NoControls(t, args, k + 1, m, n);
    }
  }

  /** When no such option is named, every control that is named is set to the value given. */
  lemma {:induction false} AllControlsSet(t: Table, args: seq<string>)
    requires args != [] && NoneNamed(t, args[0])
    ensures var c := Consume(t, args); c.Used? ==> c.settings != [] && ControlsGive(t, args, 0, c.settings, c.step)
  {
    hide FromCtrls, FromDefs, Names, ControlsGive;
    SkipsUnnamed(t, args, 0, |t.defs|);
    assert FromDefs(t, args, |t.defs|) == Nothing by { EndOfDefs(t, args); }
    var s, n := ControlsSet(t, args, 0, Nothing);
    assert [] + s == s;
  }

  lemma {:induction false} EndOfDefs(t: Table, args: seq<string>)
    requires args != []
    ensures FromDefs(t, args, |t.defs|) == Nothing
  {
  }

  /** Conversely, settings that are given are made, whatever follows. */
  lemma {:induction false} ControlsTaken(t: Table, args: seq<string>, k: nat, s: seq<Setting>, n: nat, sofar: Consumed)
    requires args != [] && k <= |t.ctrls| && !sofar.Error? && (sofar.Used? ==> 1 <= sofar.step <= |args|)
    requires ControlsGive(t, args, k, s, n)
    ensures FromCtrls(t, args, k, sofar)
      == if s == [] then sofar else Used((if sofar.Used? then sofar.settings else []) + s, n)
    decreases |t.ctrls| - k
  {
    hide MatchOf, Names, Gives;
    if k < |t.ctrls| {
      MatchIsGiven(t.ctrls[k], args);
      if Names(t.ctrls[k], args[0]) {
        var m :| Gives(t.ctrls[k], args, s[0].val, m) && (|s| == 1 ==> m == n);
        assert MatchOf(t.ctrls[k], args) == Matched(s[0].val, m);
        var before := if sofar.Used? then sofar.settings else [];
        ControlsTaken(t, args, k + 1, s[1..], n, Used(before + [s[0]], m));
        assert before + [s[0]] + s[1..] == before + s && (|s| == 1 ==> s == [s[0]]);
      } else {
        ControlsTaken(t, args, k + 1, s, n, sofar);
      }
    }
  }

  lemma {:induction false} GivesWithMore(
      def: ArgDef, words: seq<string>, rest: seq<string>, val: Option<string>, n: nat)
    requires words != [] && Gives(def, words, val, n)
    ensures Gives(def, words + rest, val, n)
  {
  }

  lemma {:induction false} ControlsGiveWithMore(
      t: Table, words: seq<string>, rest: seq<string>, k: nat, s: seq<Setting>, n: nat)
    requires words != [] && k <= |t.ctrls| && ControlsGive(t, words, k, s, n)
    ensures ControlsGive(t, words + rest, k, s, n)
    decreases |t.ctrls| - k
  {
    hide Names, Gives;
    if k < |t.ctrls| {
      assert (words + rest)[0] == words[0];
      if Names(t.ctrls[k], words[0]) {
        var m :| Gives(t.ctrls[k], words, s[0].val, m) && (|s| == 1 ==> m == n);
        GivesWithMore(t.ctrls[k], words, rest, s[0].val, m);
        ControlsGiveWithMore(t, words, rest, k + 1, s[1..], n);
      } else {
        ControlsGiveWithMore(t, words, rest, k + 1, s, n);
      }
    }
  }

  lemma {:induction false} OneSetting(t: Table, args: seq<string>, k: nat, val: Option<string>, n: nat)
    requires args != [] && FirstNamed(t, args[0], k) && Gives(t.defs[k], args, val, n) && t.parses(k, val)
    ensures Consume(t, args) == Used([Setting(k, val)], n)
  {
    hide MatchOf, Names, Gives, FromDefs;
    SkipsUnnamed(t, args, 0, k);
    MatchIsGiven(t.defs[k], args);
    DefMatched(t, args, k, val, n);
  }

  lemma {:induction false} DefMatched(t: Table, args: seq<string>, k: nat, val: Option<string>, n: nat)
    requires args != [] && k < |t.defs| && MatchOf(t.defs[k], args) == Matched(val, n) && t.parses(k, val)
    ensures FromDefs(t, args, k) == Used([Setting(k, val)], n)
  {
    hide MatchOf;
  }

  /** So a value follows an equals sign or comes as the next argument, whole, and an option without one takes none. */
  lemma {:induction false} FormsOfOption(t: Table, k: nat, v: string, rest: seq<string>)
    requires k < |t.defs| && t.defs[k].longName.Some? && t.defs[k].shortName.Some?
    ensures var def := t.defs[k];
      var (short, long) := ("-" + def.shortName.value, "--" + def.longName.value);
      && (def.hasVal && FirstNamed(t, long + "=" + v, k) && short != long + "=" + v && t.parses(k, Some(v)) ==>
        Consume(t, [long + "=" + v] + rest) == Used([Setting(k, Some(v))], 1))
      && (def.hasVal && FirstNamed(t, short, k) && t.parses(k, Some(v)) ==>
        Consume(t, [short, v] + rest) == Used([Setting(k, Some(v))], 2))
      && (!def.hasVal && FirstNamed(t, long, k) && t.parses(k, None) ==>
        Consume(t, [long] + rest) == Used([Setting(k, None)], 1))
      && (!def.hasVal && FirstNamed(t, short, k) && t.parses(k, None) ==>
        Consume(t, [short] + rest) == Used([Setting(k, None)], 1))
  {
    hide Consume, FirstNamed;
    var def := t.defs[k];
    var short, long := "-" + def.shortName.value, "--" + def.longName.value;
    if def.hasVal {
      if FirstNamed(t, long + "=" + v, k) && short != long + "=" + v && t.parses(k, Some(v)) {
        OneSetting(t, [long + "=" + v] + rest, k, Some(v), 1);
      }
      if FirstNamed(t, short, k) && t.parses(k, Some(v)) {
        OneSetting(t, [short, v] + rest, k, Some(v), 2);
      }
    } else {
      if FirstNamed(t, long, k) && t.parses(k, None) {
        OneSetting(t, [long] + rest, k, None, 1);
      }
      if FirstNamed(t, short, k) && t.parses(k, None) {
        OneSetting(t, [short] + rest, k, None, 1);
      }
    }
  }

  // ----- Reading back a command line

  /** The words of one option, or of all controls of one name, and the settings they stand for. */
  ghost predicate Spells(t: Table, words: seq<string>, s: seq<Setting>) {
    && words != [] && words[0] != SEPARATOR && s != []
    && if NoneNamed(t, words[0]) then ControlsGive(t, words, 0, s, |words|)
       else
         && |s| == 1 && FirstNamed(t, words[0], s[0].option) && t.parses(s[0].option, s[0].val)
         && Gives(t.defs[s[0].option], words, s[0].val, |words|)
  }

  lemma {:induction false} SpelledIsUsed(t: Table, words: seq<string>, s: seq<Setting>, rest: seq<string>)
    requires Spells(t, words, s)
    ensures Consume(t, words + rest) == Used(s, |words|)
  {
    hide FromCtrls, FromDefs, MatchOf, Names, Gives, ControlsGive;
    var args := words + rest;
    assert args[0] == words[0];
    if NoneNamed(t, words[0]) {
      SkipsUnnamed(t, args, 0, |t.defs|);
      EndOfDefs(t, args);
      ControlsGiveWithMore(t, words, rest, 0, s, |words|);
      ControlsTaken(t, args, 0, s, |words|, Nothing);
      assert [] + s == s;
    } else {
      var k := s[0].option;
      GivesWithMore(t.defs[k], words, rest, s[0].val, |words|);
      OneSetting(t, args, k, s[0].val, |words|);
      assert s == [s[0]];
    }
  }

  /** A piece of one stream's part of the command line: an option with its settings, or something else. */
  datatype Item = Choice(words: seq<string>, settings: seq<Setting>) | Other(word: string)

  ghost predicate Meant(t: Table, items: seq<Item>) {
    forall i :: 0 <= i < |items| ==>
      match items[i]
      case Choice(words, s) => Spells(t, words, s)
      case Other(a) => a != SEPARATOR && Foreign(t, a)
  }

  function WordsOf(items: seq<Item>): seq<string> {
    if items == [] then []
    else (if items[0].Choice? then items[0].words else [items[0].word]) + WordsOf(items[1..])
  }

  function SettingsOf(items: seq<Item>): seq<Setting> {
    if items == [] then [] else (if items[0].Choice? then items[0].settings else []) + SettingsOf(items[1..])
  }

  function OthersOf(items: seq<Item>): seq<string> {
    if items == [] then [] else (if items[0].Choice? then [] else [items[0].word]) + OthersOf(items[1..])
  }

  lemma {:induction false} SpelledStarts(t: Table, words: seq<string>, s: seq<Setting>)
    requires Spells(t, words, s)
    ensures words != [] && words[0] != SEPARATOR
  {
  }

  lemma {:induction false} PassesChoice(
      t: Table, words: seq<string>, s: seq<Setting>, more: seq<string>, current: seq<Setting>)
    requires Spells(t, words, s)
    ensures OnePass(t, words + more, current) == OnePass(t, more, current + s)
  {
    hide Consume, Spells;
    SpelledIsUsed(t, words, s, more);
    SpelledStarts(t, words, s);
    assert (words + more)[0] == words[0] && (words + more)[|words|..] == more;
  }

  lemma {:induction false} PassesOther(t: Table, a: string, more: seq<string>, current: seq<Setting>)
    requires a != SEPARATOR && Foreign(t, a)
    ensures OnePass(t, [a] + more, current) == KeepAll([a], OnePass(t, more, current))
  {
    hide Consume, Foreign;
    ForeignIsLeft(t, [a] + more);
    assert ([a] + more)[1..] == more;
  }

  lemma {:induction false} KeepTwice(a: seq<string>, b: seq<string>, r: AllParsed)
    ensures KeepAll(a, KeepAll(b, r)) == KeepAll(a + b, r)
  {
    if r.AllParsed? { assert a + (b + r.left) == a + b + r.left; }
  }

  lemma {:induction false} StreamReadBack(t: Table, items: seq<Item>, rest: seq<string>, current: seq<Setting>)
    requires Meant(t, items)
    ensures OnePass(t, WordsOf(items) + rest, current)
      == KeepAll(OthersOf(items), OnePass(t, rest, current + SettingsOf(items)))
    decreases |items|
  {
    hide OnePass, KeepAll, Foreign, Spells;
    if items == [] {
      assert WordsOf(items) + rest == rest && current + SettingsOf(items) == current;
      KeepNone(OnePass(t, rest, current));
    } else {
      var more := WordsOf(items[1..]) + rest;
      match items[0] {
        case Choice(words, s) =>
          assert WordsOf(items) + rest == words + more;
          PassesChoice(t, words, s, more, current);
          StreamReadBack(t, items[1..], rest, current + s);
          assert current + s + SettingsOf(items[1..]) == current + SettingsOf(items);
          assert OthersOf(items) == OthersOf(items[1..]);
        case Other(a) =>
          assert WordsOf(items) + rest == [a] + more;
          PassesOther(t, a, more, current);
          StreamReadBack(t, items[1..], rest, current);
          assert SettingsOf(items) == SettingsOf(items[1..]);
          KeepTwice([a], OthersOf(items[1..]), OnePass(t, rest, current + SettingsOf(items)));
      }
    }
  }

  /** The command line for several streams, with separators between them. */
  function LineOf(streams: seq<seq<Item>>): seq<string> {
    if streams == [] then []
    else if |streams| == 1 then WordsOf(streams[0])
    else WordsOf(streams[0]) + [SEPARATOR] + LineOf(streams[1..])
  }

  function AllOthers(streams: seq<seq<Item>>): seq<string> {
    if streams == [] then [] else OthersOf(streams[0]) + AllOthers(streams[1..])
  }

  function AllSettings(streams: seq<seq<Item>>): (r: seq<seq<Setting>>)
    ensures |r| == |streams|
  {
    if streams == [] then [] else [SettingsOf(streams[0])] + AllSettings(streams[1..])
  }

  /** Options written for several streams come back: every stream gets its settings in their order, and everything
      else is left over in its order. */
  lemma {:induction false} LineReadBack(t: Table, streams: seq<seq<Item>>)
    requires streams != [] && forall i :: 0 <= i < |streams| ==> Meant(t, streams[i])
    ensures ParseAll(t, LineOf(streams)) == AllParsed(AllSettings(streams), AllOthers(streams))
  {
    hide ParseAll;
    StreamsInOnePass(t, LineOf(streams));
    LineInOnePass(t, streams);
  }

  lemma {:induction false} LineInOnePass(t: Table, streams: seq<seq<Item>>)
    requires streams != [] && forall i :: 0 <= i < |streams| ==> Meant(t, streams[i])
    ensures OnePass(t, LineOf(streams), []) == AllParsed(AllSettings(streams), AllOthers(streams))
    decreases |streams|
  {
    hide Meant, WordsOf, SettingsOf, OthersOf, Consume;
    var first := streams[0];
    if |streams| == 1 {
      StreamReadBack(t, first, [], []);
      assert WordsOf(first) + [] == WordsOf(first) && [] + SettingsOf(first) == SettingsOf(first);
      assert streams[1..] == [];
    } else {
      var later := LineOf(streams[1..]);
      var rest := [SEPARATOR] + later;
      StreamReadBack(t, first, rest, []);
      assert WordsOf(first) + rest == LineOf(streams) && rest[1..] == later;
      assert [] + SettingsOf(first) == SettingsOf(first);
      LineInOnePass(t, streams[1..]);
    }
  }
}
