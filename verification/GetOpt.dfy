/** The port's `getopt_long`: a tokenizer whose cursor lives between calls, against the rendering it must undo. */
module GetOpt {
  import opened Bytes

  /** A character of a C string, and its contents without the NUL. */
  type Symbol = b: int | 1 <= b < 256 witness 1
  type Word = seq<Symbol>

  const DASH: Symbol := 45
  const COLON_SIGN: Symbol := 58
  const EQUALS: Symbol := 61
  const QUESTION := 63
  const END := -1
  const TERMINATOR: Word := [DASH, DASH]

  datatype Arity = NoArgument | RequiredArgument | OptionalArgument

  /** An entry of the table of long options; `flag` is the cell it stores its value in, if any. */
  datatype LongOption = LongOption(name: Word, arity: Arity, flag: Option<nat>, val: int)

  datatype Config = Config(optstring: Word, longopts: seq<LongOption>)

  /** The globals, the static cursor, and what the pointers passed in were used to store. */
  datatype Cursor = Cursor(optind: nat, optarg: Option<Word>, optopt: int, nextShort: Option<Word>,
                         longIndex: Option<nat>, flags: map<nat, int>)

  datatype Outcome = Outcome(result: int, state: Cursor)

  // ---------------------------------------------------------------- one call, as a function

  /** The first place of `c` in `s`, or the length. */
  function IndexOf(s: Word, c: Symbol): (i: nat)
    ensures i <= |s| && (i < |s| ==> s[i] == c) && forall j :: 0 <= j < i ==> s[j] != c
  {
    if s == [] || s[0] == c then 0 else 1 + IndexOf(s[1..], c)
  }

  function ShortArity(optstring: Word, c: Symbol): Arity {
    var p := IndexOf(optstring, c);
    if p + 1 < |optstring| && optstring[p + 1] == COLON_SIGN then
      if p + 2 < |optstring| && optstring[p + 2] == COLON_SIGN then OptionalArgument else RequiredArgument
    else NoArgument
  }

  /** The first entry called `name`, or the length. */
  function FindLong(longopts: seq<LongOption>, name: Word): (i: nat)
    ensures i <= |longopts| && (i < |longopts| ==> longopts[i].name == name)
    ensures forall j :: 0 <= j < i ==> longopts[j].name != name
  {
    if longopts == [] || longopts[0].name == name then 0 else 1 + FindLong(longopts[1..], name)
  }

  function LongName(arg: Word): Word
    requires |arg| >= 2
  {
    arg[2..2 + IndexOf(arg[2..], EQUALS)]
  }

  function LongValue(arg: Word): Option<Word>
    requires |arg| >= 2
  {
    var e := 2 + IndexOf(arg[2..], EQUALS);
    if e < |arg| then Some(arg[e + 1..]) else None
  }

  function Accept(o: LongOption, s: Cursor): Outcome {
    if o.flag.Some? then Outcome(0, s.(flags := s.flags[o.flag.value := o.val])) else Outcome(o.val, s)
  }

  function LongStep(cfg: Config, argv: seq<Word>, s: Cursor, arg: Word): Outcome
    requires |arg| >= 2
  {
    var i, value := FindLong(cfg.longopts, LongName(arg)), LongValue(arg);
    if i == |cfg.longopts| then Outcome(QUESTION, s.(optind := s.optind + 1))
    else
      var o, t := cfg.longopts[i], s.(longIndex := Some(i));
      match o.arity
      case RequiredArgument =>
        if value.Some? then Accept(o, t.(optarg := value, optind := t.optind + 1))
        else if t.optind + 1 < |argv| then
          Accept(o, t.(optarg := Some(argv[t.optind + 1]), optind := t.optind + 2))
        else Outcome(QUESTION, t.(optopt := o.val))
      case OptionalArgument => Accept(o, t.(optarg := value, optind := t.optind + 1))
      case NoArgument => Accept(o, t.(optarg := None, optind := t.optind + 1))
  }

  /** The next option letter of a cluster. */
  function ShortStep(cfg: Config, argv: seq<Word>, s: Cursor, cluster: Word): Outcome
    requires cluster != []
  {
    var opt, rest := cluster[0], cluster[1..];
    if IndexOf(cfg.optstring, opt) == |cfg.optstring| then
      Outcome(QUESTION, s.(optopt := opt, nextShort := Some(rest),
                           optind := if rest == [] then s.optind + 1 else s.optind))
    else
      match ShortArity(cfg.optstring, opt)
      case NoArgument =>
        if rest == [] then Outcome(opt, s.(optind := s.optind + 1, nextShort := None))
        else Outcome(opt, s.(nextShort := Some(rest)))
      case RequiredArgument =>
        if rest != [] then Outcome(opt, s.(optarg := Some(rest), optind := s.optind + 1, nextShort := None))
        else if s.optind + 1 < |argv| then
          Outcome(opt, s.(optarg := Some(argv[s.optind + 1]), optind := s.optind + 2, nextShort := None))
        else Outcome(QUESTION, s.(optopt := opt, optind := s.optind + 1, nextShort := None))
      case OptionalArgument =>
        Outcome(opt, s.(optarg := if rest != [] then Some(rest) else None, optind := s.optind + 1, nextShort := None))
  }

  predicate Pending(s: Cursor) { s.nextShort.Some? && s.nextShort.value != [] }

  /** Is the word at the cursor one that ends the options? */
  predicate IsOperand(w: Word) { |w| < 2 || w[0] != DASH }

  function Restarted(s: Cursor): Cursor {
    var t := s.(optarg := None);
    if t.optind == 0 then t.(optind := 1, nextShort := None) else t
  }

  function Step(cfg: Config, argv: seq<Word>, s: Cursor): Outcome {
    var t := Restarted(s);
    if Pending(t) then ShortStep(cfg, argv, t, t.nextShort.value)
    else if t.optind >= |argv| || IsOperand(argv[t.optind]) then Outcome(END, t)
    else if argv[t.optind] == TERMINATOR then Outcome(END, t.(optind := t.optind + 1))
    else if argv[t.optind][1] == DASH then LongStep(cfg, argv, t, argv[t.optind])
    else ShortStep(cfg, argv, t, argv[t.optind][1..])
  }

  // ------------------------------------------------------------------- the stateful form

  class Parser {
    const cfg: Config
    const argv: seq<Word>
    var optind: nat
    var optarg: Option<Word>
    var optopt: int
    var nextShort: Option<Word>
    var longIndex: Option<nat>
    var flags: map<nat, int>

    function State(): Cursor
      reads this
    {
      Cursor(optind, optarg, optopt, nextShort, longIndex, flags)
    }

    constructor (cfg: Config, argv: seq<Word>)
      ensures this.cfg == cfg && this.argv == argv
      ensures State() == Cursor(1, None, 0, None, None, map[])
    {
      this.cfg, this.argv := cfg, argv;
      optind, optarg, optopt, nextShort, longIndex, flags := 1, None, 0, None, None, map[];
    }

    /** `strchr`. */
    method Find(s: Word, c: Symbol) returns (i: nat)
      ensures i == IndexOf(s, c)
    {
      i := 0;
      assert s[0..] == s;
      while i < |s| && s[i] != c
        invariant 0 <= i <= |s| && IndexOf(s, c) == i + IndexOf(s[i..], c)
      {
        assert s[i..][1..] == s[i + 1..];
        i := i + 1;
      }
    }

    method OptRequiresArg(c: Symbol) returns (needsArg: bool, isOptional: bool)
      ensures needsArg <==> ShortArity(cfg.optstring, c) != NoArgument
      ensures isOptional <==> ShortArity(cfg.optstring, c) == OptionalArgument
    {
      var p := Find(cfg.optstring, c);
      needsArg := p + 1 < |cfg.optstring| && cfg.optstring[p + 1] == COLON_SIGN;
      isOptional := needsArg && p + 2 < |cfg.optstring| && cfg.optstring[p + 2] == COLON_SIGN;
    }

    /** The search loop of `handle_long`: the first entry whose whole name matches. */
    method FindOption(name: Word) returns (i: nat)
      ensures i == FindLong(cfg.longopts, name)
    {
      i := 0;
      assert cfg.longopts[0..] == cfg.longopts;
      while i < |cfg.longopts| && cfg.longopts[i].name != name
        invariant 0 <= i <= |cfg.longopts|
        invariant FindLong(cfg.longopts, name) == i + FindLong(cfg.longopts[i..], name)
      {
        assert cfg.longopts[i..][1..] == cfg.longopts[i + 1..];
        i := i + 1;
      }
    }

    method HandleLong(arg: Word) returns (r: int)
      requires |arg| >= 2
      modifies this
      ensures Outcome(r, State()) == LongStep(cfg, argv, old(State()), arg)
    {
      hide IndexOf, FindLong;
      var name := arg[2..];
      var e := Find(name, EQUALS);
      var value := if e < |name| then Some(name[e + 1..]) else None;
      assert value == LongValue(arg);
      assert name[..e] == LongName(arg);
      var i := FindOption(name[..e]);
      if i == |cfg.longopts| {
        optind := optind + 1;
        return QUESTION;
      }
      var o := cfg.longopts[i];
      longIndex := Some(i);
      if o.arity == RequiredArgument {
        if value.Some? {
          optarg := value;
        } else if optind + 1 < |argv| {
          optind := optind + 1;
          optarg := Some(argv[optind]);
        } else {
          optopt := o.val;
          return QUESTION;
        }
      } else if o.arity == OptionalArgument {
        optarg := value;
      } else {
        optarg := None;
      }
      optind := optind + 1;
      if o.flag.Some? {
        flags := flags[o.flag.value := o.val];
        return 0;
      }
      return o.val;
    }

    /** The part of `getopt_long` that takes a letter from the cursor. */
    method TakeShort() returns (r: int)
      requires nextShort.Some? && nextShort.value != []
      modifies this
      ensures Outcome(r, State()) == ShortStep(cfg, argv, old(State()), old(nextShort.value))
    {
      var opt := nextShort.value[0];
      var rest := nextShort.value[1..];
      nextShort := Some(rest);
      var needsArg, isOptional := OptRequiresArg(opt);
      var p := Find(cfg.optstring, opt);
      if p == |cfg.optstring| {
        optopt := opt;
        if rest == [] {
          optind := optind + 1;
        }
        return QUESTION;
      }
      if needsArg {
        if rest != [] {
          optarg := Some(rest);
          optind := optind + 1;
          nextShort := None;
        } else if !isOptional && optind + 1 < |argv| {
          optind := optind + 1;
          optarg := Some(argv[optind]);
          optind := optind + 1;
          nextShort := None;
        } else {
          if !isOptional {
            optopt := opt;
            optind := optind + 1;
            nextShort := None;
            return QUESTION;
          }
          optarg := None;
          optind := optind + 1;
          nextShort := None;
        }
      } else if rest == [] {
        optind := optind + 1;
        nextShort := None;
      }
      return opt;
    }

    method GetoptLong() returns (r: int)
      modifies this
      ensures Outcome(r, State()) == Step(cfg, argv, old(State()))
    {
      hide LongStep, ShortStep;
      optarg := None;
      if optind == 0 {
        optind := 1;
        nextShort := None;
      }
      if nextShort.None? || nextShort.value == [] {
        if optind >= |argv| || |argv[optind]| == 0 || argv[optind][0] != DASH || |argv[optind]| == 1 {
          return END;
        }
        if argv[optind] == TERMINATOR {
          optind := optind + 1;
          return END;
        }
        if argv[optind][1] == DASH {
          r := HandleLong(argv[optind]);
          return;
        }
        SeedIrrelevant(cfg, argv, State(), argv[optind][1..]);
        nextShort := Some(argv[optind][1..]);
      }
      r := TakeShort();
    }
  }

  /** Taking a letter does not depend on what the cursor was before. */
  lemma SeedIrrelevant(cfg: Config, argv: seq<Word>, s: Cursor, cluster: Word)
    requires cluster != []
    ensures ShortStep(cfg, argv, s.(nextShort := Some(cluster)), cluster) == ShortStep(cfg, argv, s, cluster)
  {
  }

  // ------------------------------------------------------------------ a run of calls

  /** What a caller sees of one call. */
  datatype Event = Event(result: int, arg: Option<Word>)

  datatype Run = Run(events: seq<Event>, state: Cursor)

  /** `n` calls in a row. */
  function Calls(cfg: Config, argv: seq<Word>, s: Cursor, n: nat): Run
    decreases n
  {
    if n == 0 then Run([], s)
    else
      var o := Step(cfg, argv, s);
      var later := Calls(cfg, argv, o.state, n - 1);
      Run([Event(o.result, o.state.optarg)] + later.events, later.state)
  }

  lemma {:induction false} CallsSplit(cfg: Config, argv: seq<Word>, s: Cursor, m: nat, n: nat)
    ensures var first := Calls(cfg, argv, s, m);
            var second := Calls(cfg, argv, first.state, n);
            Calls(cfg, argv, s, m + n) == Run(first.events + second.events, second.state)
    decreases m
  {
    hide Step;
    if m > 0 {
      CallsSplit(cfg, argv, Step(cfg, argv, s).state, m - 1, n);
    }
  }

  lemma FirstCall(cfg: Config, argv: seq<Word>, s: Cursor, n: nat)
    ensures var o := Step(cfg, argv, s);
            var later := Calls(cfg, argv, o.state, n);
            Calls(cfg, argv, s, 1 + n) == Run([Event(o.result, o.state.optarg)] + later.events, later.state)
  {
    hide Step;
  }

  lemma OneCall(cfg: Config, argv: seq<Word>, s: Cursor)
    ensures var o := Step(cfg, argv, s);
            Calls(cfg, argv, s, 1) == Run([Event(o.result, o.state.optarg)], o.state)
  {
  }

  // -------------------------------------------------------------------- the rendering

  /** How a cluster of letters ends: with a flag, with an option and its argument in the same word or in the next
      one, or with an option whose optional argument is not given. */
  datatype Tail = NoTail | Joined(opt: Symbol, arg: Word) | Apart(opt: Symbol, arg: Word) | Bare(opt: Symbol)

  datatype Form = Plain | Assigned(arg: Word) | Following(arg: Word)

  /** One group of options as a user may write it. */
  datatype Item = Shorts(letters: Word, tail: Tail) | Long(index: nat, form: Form)

  function TailText(t: Tail): Word {
    match t
    case NoTail => []
    case Joined(opt, arg) => [opt] + arg
    case Apart(opt, _) => [opt]
    case Bare(opt) => [opt]
  }

  function ItemWords(cfg: Config, item: Item): (ws: seq<Word>)
    requires item.Long? ==> item.index < |cfg.longopts|
  {
    match item
    case Shorts(letters, tail) =>
      [[DASH] + letters + TailText(tail)] + if tail.Apart? then [tail.arg] else []
    case Long(index, form) =>
      var word := TERMINATOR + cfg.longopts[index].name;
      match form
      case Plain => [word]
      case Assigned(arg) => [word + [EQUALS] + arg]
      case Following(arg) => [word, arg]
  }

  predicate Known(cfg: Config, c: Symbol, arity: Arity) {
    IndexOf(cfg.optstring, c) < |cfg.optstring| && ShortArity(cfg.optstring, c) == arity
  }

  ghost predicate TailOk(cfg: Config, t: Tail) {
    match t
    case NoTail => true
    case Joined(opt, arg) => (Known(cfg, opt, RequiredArgument) || Known(cfg, opt, OptionalArgument)) && arg != []
    case Apart(opt, _) => Known(cfg, opt, RequiredArgument)
    case Bare(opt) => Known(cfg, opt, OptionalArgument)
  }

  ghost predicate LettersOk(cfg: Config, letters: Word) {
    forall k :: 0 <= k < |letters| ==> Known(cfg, letters[k], NoArgument)
  }

  /** An item that uses the options as they are declared. */
  ghost predicate ItemOk(cfg: Config, item: Item) {
    match item
    case Shorts(letters, tail) =>
      && LettersOk(cfg, letters) && TailOk(cfg, tail)
      && letters + TailText(tail) != [] && (letters + TailText(tail))[0] != DASH
    case Long(index, form) =>
      && index < |cfg.longopts| && cfg.longopts[index].name != [] && EQUALS !in cfg.longopts[index].name
      && FindLong(cfg.longopts, cfg.longopts[index].name) == index
      && match form
         case Plain => cfg.longopts[index].arity != RequiredArgument
         case Assigned(_) => cfg.longopts[index].arity != NoArgument
         case Following(_) => cfg.longopts[index].arity == RequiredArgument
  }

  function LetterEvents(letters: Word): (es: seq<Event>)
    ensures |es| == |letters|
  {
    seq(|letters|, k requires 0 <= k < |letters| => Event(letters[k], None))
  }

  function TailEvents(t: Tail): seq<Event> {
    match t
    case NoTail => []
    case Joined(opt, arg) => [Event(opt, Some(arg))]
    case Apart(opt, arg) => [Event(opt, Some(arg))]
    case Bare(opt) => [Event(opt, None)]
  }

  function LongResult(o: LongOption): int {
    if o.flag.Some? then 0 else o.val
  }

  function LongFlags(o: LongOption, flags: map<nat, int>): map<nat, int> {
    if o.flag.Some? then flags[o.flag.value := o.val] else flags
  }

  /** What the calls must return for an item. */
  function ItemEvents(cfg: Config, item: Item): seq<Event>
    requires item.Long? ==> item.index < |cfg.longopts|
  {
    match item
    case Shorts(letters, tail) => LetterEvents(letters) + TailEvents(tail)
    case Long(index, form) =>
      [Event(LongResult(cfg.longopts[index]), if form.Plain? then None else Some(form.arg))]
  }

  function ItemFlags(cfg: Config, item: Item, flags: map<nat, int>): map<nat, int>
    requires item.Long? ==> item.index < |cfg.longopts|
  {
    if item.Long? then LongFlags(cfg.longopts[item.index], flags) else flags
  }

  /** The words `ws` are next on the command line. */
  ghost predicate Next(argv: seq<Word>, at: nat, ws: seq<Word>) {
    at + |ws| <= |argv| && argv[at..at + |ws|] == ws
  }

  /** Between words, at word `at`. */
  ghost predicate AtWord(s: Cursor, at: nat) {
    at > 0 && s.optind == at && !Pending(s)
  }

  /** `run` yields `events` and leaves the cursor at word `at`. */
  ghost predicate Yields(run: Run, events: seq<Event>, at: nat, optopt: int, flags: map<nat, int>) {
    run.events == events && AtWord(run.state, at) && run.state.optopt == optopt && run.state.flags == flags
  }

  // ---------------------------------------------------------------------- round trip

  /** The end of a cluster. */
  lemma TailRun(cfg: Config, argv: seq<Word>, s: Cursor, tail: Tail)
    requires TailOk(cfg, tail) && tail != NoTail && s.optind > 0 && s.nextShort == Some(TailText(tail))
    requires tail.Apart? ==> s.optind + 1 < |argv| && argv[s.optind + 1] == tail.arg
    ensures Yields(Calls(cfg, argv, s, 1), TailEvents(tail),
                   s.optind + if tail.Apart? then 2 else 1, s.optopt, s.flags)
  {
  }

  /** A flag in a cluster. */
  lemma LetterStep(cfg: Config, argv: seq<Word>, s: Cursor, c: Symbol, rest: Word)
    requires Known(cfg, c, NoArgument) && s.optind > 0 && s.nextShort == Some([c] + rest)
    ensures Step(cfg, argv, s)
         == Outcome(c, s.(optarg := None, optind := if rest == [] then s.optind + 1 else s.optind,
                          nextShort := if rest == [] then None else Some(rest)))
  {
  }

  lemma LetterEventsStep(c: Symbol, letters: Word)
    ensures LetterEvents([c] + letters) == [Event(c, None)] + LetterEvents(letters)
  {
  }

  /** A cluster, from its first letter on. */
  lemma {:induction false} ShortsRun(cfg: Config, argv: seq<Word>, s: Cursor, letters: Word, tail: Tail)
    requires LettersOk(cfg, letters) && TailOk(cfg, tail) && letters + TailText(tail) != []
    requires s.optind > 0 && s.nextShort == Some(letters + TailText(tail))
    requires tail.Apart? ==> s.optind + 1 < |argv| && argv[s.optind + 1] == tail.arg
    ensures Yields(Calls(cfg, argv, s, |letters| + |TailEvents(tail)|), LetterEvents(letters) + TailEvents(tail),
                   s.optind + if tail.Apart? then 2 else 1, s.optopt, s.flags)
    decreases |letters|
  {
    hide Known, Step, Calls, LetterEvents, TailOk, TailEvents, TailText;
    TailParts(tail);
    if letters == [] {
      assert letters + TailText(tail) == TailText(tail);
      TailRun(cfg, argv, s, tail);
      assert LetterEvents(letters) + TailEvents(tail) == TailEvents(tail);
    } else {
      var c, others := letters[0], letters[1..];
      var rest := others + TailText(tail);
      assert letters == [c] + others && letters + TailText(tail) == [c] + rest;
      LetterStep(cfg, argv, s, c, rest);
      LetterEventsStep(c, others);
      assert LetterEvents(letters) + TailEvents(tail)
          == [Event(c, None)] + (LetterEvents(others) + TailEvents(tail));
      FirstCall(cfg, argv, s, |others| + |TailEvents(tail)|);
      if rest == [] {
        NoCall(cfg, argv, Step(cfg, argv, s).state);
      } else {
        ShortsRun(cfg, argv, Step(cfg, argv, s).state, others, tail);
      }
    }
  }

  lemma TailParts(tail: Tail)
    ensures |TailEvents(tail)| == if tail == NoTail then 0 else 1
    ensures TailText(tail) == [] <==> tail == NoTail
  {
  }

  lemma NoCall(cfg: Config, argv: seq<Word>, s: Cursor)
    ensures Calls(cfg, argv, s, 0) == Run([], s)
  {
  }

  lemma NameEnds(name: Word, rest: Word)
    requires EQUALS !in name && (rest == [] || rest[0] == EQUALS)
    ensures IndexOf(name + rest, EQUALS) == |name|
  {
    var word := name + rest;
    assert forall j :: 0 <= j < |name| ==> word[j] == name[j];
    assert rest != [] ==> word[|name|] == rest[0];
  }

  lemma LongWord(name: Word, rest: Word)
    requires EQUALS !in name && (rest == [] || rest[0] == EQUALS)
    ensures LongName(TERMINATOR + name + rest) == name
    ensures LongValue(TERMINATOR + name + rest) == if rest == [] then None else Some(rest[1..])
  {
    hide IndexOf;
    var arg := TERMINATOR + name + rest;
    NameEnds(name, rest);
    assert arg[2..] == name + rest;
    assert arg[2..2 + |name|] == name;
    if rest != [] {
      assert arg[2 + |name| + 1..] == rest[1..];
    }
  }

  lemma LongRun(cfg: Config, argv: seq<Word>, s: Cursor, item: Item)
    requires item.Long? && ItemOk(cfg, item) && AtWord(s, s.optind) && Next(argv, s.optind, ItemWords(cfg, item))
    ensures Yields(Calls(cfg, argv, s, 1), ItemEvents(cfg, item), s.optind + |ItemWords(cfg, item)|, s.optopt,
                   ItemFlags(cfg, item, s.flags))
    ensures Calls(cfg, argv, s, 1).state.longIndex == Some(item.index)
  {
    hide IndexOf, ShortArity, FindLong, ShortStep, LongName, LongValue;
    var name := cfg.longopts[item.index].name;
    var rest := if item.form.Assigned? then [EQUALS] + item.form.arg else [];
    var word := TERMINATOR + name + rest;
    LongWord(name, rest);
    var ws := ItemWords(cfg, item);
    assert argv[s.optind] == argv[s.optind..s.optind + |ws|][0] == word;
    assert |word| > 2 && word[0] == DASH && word[1] == DASH;
    if item.form.Following? {
      assert argv[s.optind + 1] == argv[s.optind..s.optind + |ws|][1];
    }
    if item.form.Assigned? {
      assert rest[1..] == item.form.arg;
    }
    OneCall(cfg, argv, s);
  }

  /** A call that opens a cluster is a call with the cursor set to the cluster. */
  lemma OpensCluster(cfg: Config, argv: seq<Word>, s: Cursor, cluster: Word, n: nat)
    requires AtWord(s, s.optind) && s.optind < |argv| && argv[s.optind] == [DASH] + cluster
    requires cluster != [] && cluster[0] != DASH && n > 0
    ensures Calls(cfg, argv, s, n) == Calls(cfg, argv, s.(nextShort := Some(cluster)), n)
  {
    hide ShortStep, LongStep;
    var w := argv[s.optind];
    assert w[1..] == cluster && w[0] == DASH && w[1] == cluster[0];
    SeedIrrelevant(cfg, argv, Restarted(s), cluster);
    assert Restarted(s).(nextShort := Some(cluster)) == Restarted(s.(nextShort := Some(cluster)));
    assert Step(cfg, argv, s) == Step(cfg, argv, s.(nextShort := Some(cluster)));
  }

  /** One item: its words are consumed and its options returned. */
  lemma ItemRun(cfg: Config, argv: seq<Word>, s: Cursor, item: Item)
    requires ItemOk(cfg, item) && AtWord(s, s.optind) && Next(argv, s.optind, ItemWords(cfg, item))
    ensures Yields(Calls(cfg, argv, s, |ItemEvents(cfg, item)|), ItemEvents(cfg, item),
                   s.optind + |ItemWords(cfg, item)|, s.optopt, ItemFlags(cfg, item, s.flags))
  {
    hide IndexOf, ShortArity, Step, Calls;
    if item.Long? {
      LongRun(cfg, argv, s, item);
    } else {
      var cluster := item.letters + TailText(item.tail);
      var ws := ItemWords(cfg, item);
      assert argv[s.optind] == argv[s.optind..s.optind + |ws|][0];
      assert argv[s.optind] == [DASH] + cluster;
      if item.tail.Apart? {
        assert argv[s.optind + 1] == argv[s.optind..s.optind + |ws|][1];
      }
      OpensCluster(cfg, argv, s, cluster, |ItemEvents(cfg, item)|);
      ShortsRun(cfg, argv, s.(nextShort := Some(cluster)), item.letters, item.tail);
    }
  }

  ghost predicate AllOk(cfg: Config, items: seq<Item>) {
    forall k :: 0 <= k < |items| ==> ItemOk(cfg, items[k])
  }

  ghost function AllWords(cfg: Config, items: seq<Item>): seq<Word>
    requires AllOk(cfg, items)
  {
    if items == [] then [] else ItemWords(cfg, items[0]) + AllWords(cfg, items[1..])
  }

  ghost function AllEvents(cfg: Config, items: seq<Item>): seq<Event>
    requires AllOk(cfg, items)
  {
    if items == [] then [] else ItemEvents(cfg, items[0]) + AllEvents(cfg, items[1..])
  }

  ghost function AllFlags(cfg: Config, items: seq<Item>, flags: map<nat, int>): map<nat, int>
    requires AllOk(cfg, items)
  {
    if items == [] then flags else AllFlags(cfg, items[1..], ItemFlags(cfg, items[0], flags))
  }

  lemma NextSplit(argv: seq<Word>, at: nat, a: seq<Word>, b: seq<Word>)
    requires Next(argv, at, a + b)
    ensures Next(argv, at, a) && Next(argv, at + |a|, b)
  {
    assert argv[at..at + |a|] == argv[at..at + |a + b|][..|a|] == a;
    assert argv[at + |a|..at + |a| + |b|] == argv[at..at + |a + b|][|a|..] == b;
  }

  /** Repeated calls undo the rendering: the options come back in order with their arguments, every word is
      consumed once, and no error is recorded. */
  lemma {:induction false} RoundTrip(cfg: Config, argv: seq<Word>, s: Cursor, items: seq<Item>)
    requires AllOk(cfg, items) && AtWord(s, s.optind) && Next(argv, s.optind, AllWords(cfg, items))
    ensures Yields(Calls(cfg, argv, s, |AllEvents(cfg, items)|), AllEvents(cfg, items),
                   s.optind + |AllWords(cfg, items)|, s.optopt, AllFlags(cfg, items, s.flags))
    decreases |items|
  {
    hide LettersOk, TailOk, ItemWords, ItemEvents, ItemFlags, Step;
    if items != [] {
      var item, others := items[0], items[1..];
      NextSplit(argv, s.optind, ItemWords(cfg, item), AllWords(cfg, others));
      ItemRun(cfg, argv, s, item);
      var m, n := |ItemEvents(cfg, item)|, |AllEvents(cfg, others)|;
      var t := Calls(cfg, argv, s, m).state;
      RoundTrip(cfg, argv, t, others);
      CallsSplit(cfg, argv, s, m, n);
    }
  }

  /** Then the options end: at the end of the line, at the first operand, which is left for the caller, or after
      `--`, which is not. */
  lemma StopsAt(cfg: Config, argv: seq<Word>, s: Cursor)
    requires AtWord(s, s.optind)
    ensures var o := Step(cfg, argv, s);
            var stops := s.optind >= |argv| || IsOperand(argv[s.optind]);
            && (stops ==> o == Outcome(-1, s.(optarg := None)))
            && (!stops && argv[s.optind] == TERMINATOR ==> o == Outcome(-1, s.(optarg := None, optind := s.optind + 1)))
  {
  }

  // ------------------------------------------------------------- the answer to each call

  /** The declaration of a letter is what stands behind its first place in the string of letters. */
  lemma DeclaredArity(before: Word, c: Symbol, after: Word)
    requires c !in before
    ensures IndexOf(before + [c] + after, c) == |before|
    ensures ShortArity(before + [c] + after, c)
         == if |after| >= 2 && after[0] == ':' as int && after[1] == ':' as int then OptionalArgument
            else if |after| >= 1 && after[0] == ':' as int then RequiredArgument
            else NoArgument
  {
    var s := before + [c] + after;
    assert s[|before|] == c && forall j :: 0 <= j < |before| ==> s[j] == before[j];
    assert forall j :: 0 <= j < |after| ==> s[|before| + 1 + j] == after[j];
  }

  /** The options end exactly at the end of the line, at a word that is no option, or at `--`, and only between words; no
      other call says so if no option is declared with the value that says so. */
  lemma EndIff(cfg: Config, argv: seq<Word>, s: Cursor)
    requires s.optind > 0 && forall o :: o in cfg.longopts && o.flag.None? ==> o.val != -1
    ensures Step(cfg, argv, s).result == -1 <==>
              && !Pending(s)
              && (s.optind >= |argv|
                  || var w := argv[s.optind]; |w| < 2 || w[0] != '-' as int || w == ['-' as int, '-' as int])
  {
    hide IndexOf, FindLong, ShortArity, LongName, LongValue;
  }

  /** A caller that sets `optind` to zero starts over behind the program's name, also in the middle of a word. */
  lemma StartsOver(cfg: Config, argv: seq<Word>, s: Cursor)
    requires s.optind == 0
    ensures Step(cfg, argv, s) == Step(cfg, argv, s.(optind := 1, nextShort := None))
  {
    hide LongStep, ShortStep;
  }

  /** The call reads letters of `cluster`: what is left of a word, or a new word behind its dash. */
  ghost predicate Reads(argv: seq<Word>, s: Cursor, cluster: Word) {
    && s.optind > 0 && cluster != []
    && if Pending(s) then s.nextShort.value == cluster
       else s.optind < |argv| && argv[s.optind] == ['-' as int] + cluster && cluster[0] != '-' as int
  }

  lemma ReadsCluster(cfg: Config, argv: seq<Word>, s: Cursor, cluster: Word)
    requires Reads(argv, s, cluster)
    ensures Step(cfg, argv, s) == ShortStep(cfg, argv, Restarted(s), cluster)
  {
    hide ShortStep, LongStep;
    if !Pending(s) {
      assert argv[s.optind][1..] == cluster && argv[s.optind][1] == cluster[0];
    }
  }

  /** A letter that is not declared is refused and named, and the letters behind it are next. */
  lemma UnknownLetter(cfg: Config, argv: seq<Word>, s: Cursor, c: Symbol, rest: Word)
    requires Reads(argv, s, [c] + rest) && c !in cfg.optstring
    ensures Step(cfg, argv, s)
         == Outcome('?' as int, s.(optarg := None, optopt := c, nextShort := Some(rest),
                                   optind := if rest == [] then s.optind + 1 else s.optind))
  {
    ReadsCluster(cfg, argv, s, [c] + rest);
    assert ([c] + rest)[1..] == rest;
  }

  /** So is one that lacks the argument it requires: it is the last letter of the last word. */
  lemma LetterLacksArgument(cfg: Config, argv: seq<Word>, s: Cursor, c: Symbol)
    requires Reads(argv, s, [c]) && Known(cfg, c, RequiredArgument) && s.optind + 1 >= |argv|
    ensures Step(cfg, argv, s)
         == Outcome('?' as int, s.(optarg := None, optopt := c, nextShort := None, optind := s.optind + 1))
  {
    ReadsCluster(cfg, argv, s, [c]);
  }

  /** A name that is not declared is refused with its word, value and all; `optopt` stays. */
  lemma UnknownName(cfg: Config, argv: seq<Word>, s: Cursor, name: Word, value: Option<Word>)
    requires s.optind > 0 && !Pending(s) && s.optind < |argv| && (name != [] || value.Some?)
    requires '=' as int !in name && forall o :: o in cfg.longopts ==> o.name != name
    requires argv[s.optind] == ['-' as int, '-' as int] + name
                               + if value.Some? then ['=' as int] + value.value else []
    ensures Step(cfg, argv, s) == Outcome('?' as int, s.(optarg := None, optind := s.optind + 1))
  {
    hide IndexOf, LongName, LongValue, ShortStep;
    LongWord(name, if value.Some? then [EQUALS] + value.value else []);
    var word := argv[s.optind];
    assert |word| > 2 && word[0] == DASH && word[1] == DASH;
    assert FindLong(cfg.longopts, name) == |cfg.longopts|;
  }

  /** A name that lacks the argument it requires is refused with the option's value, and stays where it is. */
  lemma NameLacksArgument(cfg: Config, argv: seq<Word>, s: Cursor, index: nat)
    requires s.optind > 0 && !Pending(s) && s.optind + 1 == |argv| && index < |cfg.longopts|
    requires cfg.longopts[index].arity == RequiredArgument && '=' as int !in cfg.longopts[index].name
    requires cfg.longopts[index].name != [] && forall j :: 0 <= j < index ==> cfg.longopts[j].name != cfg.longopts[index].name
    requires argv[s.optind] == ['-' as int, '-' as int] + cfg.longopts[index].name
    ensures Step(cfg, argv, s)
         == Outcome('?' as int, s.(optarg := None, optopt := cfg.longopts[index].val, longIndex := Some(index)))
  {
    hide IndexOf, LongName, LongValue, ShortStep;
    var name := cfg.longopts[index].name;
    LongWord(name, []);
    var word := argv[s.optind];
    assert TERMINATOR + name + [] == word;
    assert |word| > 2 && word[0] == DASH && word[1] == DASH;
    assert FindLong(cfg.longopts, name) == index;
  }

  const START := Cursor(1, None, 0, None, None, map[])

  /** A whole command line: the program's name, the rendered options, and the rest. The caller gets the options
      and then the end, with the cursor at the first operand. */
  lemma CommandLine(cfg: Config, program: Word, items: seq<Item>, rest: seq<Word>)
    requires AllOk(cfg, items)
    requires rest == [] || IsOperand(rest[0]) || rest[0] == TERMINATOR
    ensures var argv := [program] + AllWords(cfg, items) + rest;
            var events := AllEvents(cfg, items);
            var run := Calls(cfg, argv, START, |events| + 1);
            && run.events == events + [Event(END, None)]
            && run.state.optind <= |argv|
            && argv[run.state.optind..] == (if rest != [] && rest[0] == TERMINATOR then rest[1..] else rest)
            && run.state.optopt == 0 && run.state.flags == AllFlags(cfg, items, map[])
  {
    hide AllOk, AllWords, AllEvents, AllFlags, LongStep, ShortStep;
    var words := AllWords(cfg, items);
    var argv := [program] + words + rest;
    var n := |AllEvents(cfg, items)|;
    assert argv[1..1 + |words|] == words;
    RoundTrip(cfg, argv, START, items);
    var t := Calls(cfg, argv, START, n).state;
    CallsSplit(cfg, argv, START, n, 1);
    OneCall(cfg, argv, t);
    assert argv[1 + |words|..] == rest;
    if rest != [] {
      assert argv[1 + |words|] == rest[0];
      assert argv[1 + |words| + 1..] == rest[1..];
    }
  }

  // ------------------------------------------------------------------------ progress

  /** A cluster under way is the end of the word at the cursor. */
  ghost predicate Consistent(argv: seq<Word>, s: Cursor) {
    Pending(s) ==>
      && s.optind < |argv| && |s.nextShort.value| < |argv[s.optind]|
      && argv[s.optind][|argv[s.optind]| - |s.nextShort.value|..] == s.nextShort.value
  }

  /** The characters still to be read of the word at the cursor. */
  ghost function Unread(argv: seq<Word>, s: Cursor): nat {
    if Pending(s) then |s.nextShort.value|
    else if s.optind < |argv| then |argv[s.optind]| else 0
  }

  ghost predicate Advances(argv: seq<Word>, s: Cursor, t: Cursor) {
    t.optind > s.optind || (t.optind == s.optind && Unread(argv, t) < Unread(argv, s))
  }

  /** The last word is a long option without the argument it requires. */
  ghost predicate Starved(cfg: Config, argv: seq<Word>, s: Cursor) {
    && !Pending(s) && s.optind + 1 == |argv|
    && var w := argv[s.optind];
       && |w| > 2 && w[0] == DASH && w[1] == DASH && LongValue(w) == None
       && var i := FindLong(cfg.longopts, LongName(w));
          i < |cfg.longopts| && cfg.longopts[i].arity == RequiredArgument
  }

  /** Every call that does not report the end moves on, except exactly one kind: the last word is a long option
      that lacks its required argument. */
  lemma Progress(cfg: Config, argv: seq<Word>, s: Cursor)
    requires s.optind > 0 && Consistent(argv, s) && Step(cfg, argv, s).result != END
    ensures Consistent(argv, Step(cfg, argv, s).state)
    ensures Advances(argv, s, Step(cfg, argv, s).state) <==> !Starved(cfg, argv, s)
  {
    hide IndexOf, FindLong, ShortArity, LongName, LongValue, LongStep, ShortStep;
    var t := Restarted(s);
    if Pending(s) {
      ShortMoves(cfg, argv, t, s.nextShort.value);
    } else if argv[s.optind][1] == DASH {
      LongMoves(cfg, argv, t, argv[s.optind]);
    } else {
      ShortMoves(cfg, argv, t, argv[s.optind][1..]);
    }
  }

  lemma ShortMoves(cfg: Config, argv: seq<Word>, s: Cursor, cluster: Word)
    requires s.optind < |argv| && cluster != [] && |cluster| < |argv[s.optind]|
    requires argv[s.optind][|argv[s.optind]| - |cluster|..] == cluster
    ensures var t := ShortStep(cfg, argv, s, cluster).state;
            && Consistent(argv, t)
            && (t.optind > s.optind || (t.optind == s.optind && Unread(argv, t) < |cluster|))
  {
  }

  lemma LongMoves(cfg: Config, argv: seq<Word>, s: Cursor, arg: Word)
    requires s.optind < |argv| && |arg| > 2 && !Pending(s)
    ensures var t := LongStep(cfg, argv, s, arg).state;
            var i := FindLong(cfg.longopts, LongName(arg));
            && !Pending(t) && t.optind >= s.optind
            && (t.optind == s.optind <==>
                && i < |cfg.longopts| && cfg.longopts[i].arity == RequiredArgument
                && LongValue(arg) == None && s.optind + 1 == |argv|)
  {
    hide IndexOf, FindLong, LongName, LongValue;
  }

  /** There the calls never end: each reports the same error and leaves the cursor where it was. */
  lemma {:induction false} StarvedForever(cfg: Config, argv: seq<Word>, s: Cursor, n: nat)
    requires s.optind > 0 && Starved(cfg, argv, s)
    ensures var run := Calls(cfg, argv, s, n);
            && Starved(cfg, argv, run.state) && run.state.optind == s.optind
            && |run.events| == n && forall k :: 0 <= k < n ==> run.events[k] == Event(QUESTION, None)
    decreases n
  {
    hide IndexOf, FindLong, LongName, LongValue, ShortStep;
    if n > 0 {
      StarvedForever(cfg, argv, Step(cfg, argv, s).state, n - 1);
    }
  }

  /** A value given to a long option that takes none is dropped without an error. */
  lemma UnwantedValueDropped(cfg: Config, argv: seq<Word>, s: Cursor, index: nat, arg: Word)
    requires AtWord(s, s.optind) && s.optind < |argv| && index < |cfg.longopts|
    requires ItemOk(cfg, Long(index, Plain)) && cfg.longopts[index].arity == NoArgument
    requires argv[s.optind] == TERMINATOR + cfg.longopts[index].name + ([EQUALS] + arg)
    ensures Yields(Calls(cfg, argv, s, 1), ItemEvents(cfg, Long(index, Plain)), s.optind + 1, s.optopt,
                   ItemFlags(cfg, Long(index, Plain), s.flags))
  {
    hide IndexOf, ShortArity, FindLong, ShortStep, LongName, LongValue;
    var word := argv[s.optind];
    LongWord(cfg.longopts[index].name, [EQUALS] + arg);
    assert |word| > 2 && word[0] == DASH && word[1] == DASH;
    OneCall(cfg, argv, s);
  }
}
