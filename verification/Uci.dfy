/** The UCI store as the agent drives it: sections with scalar and list options, the uci
    commands the agent issues, and plans made of such commands.

    One config file ("network" or "firewall") is a map from section name to section.
  */
module Uci {
  import opened Text

  datatype Value = Scalar(text: string) | ListOf(items: seq<string>)

  datatype Section = Section(typ: string, options: map<string, Value>)

  type Config = map<string, Section>

  datatype Path = SectionPath(section: string) | OptionPath(section: string, option: string)

  datatype Command =
    | Create(section: string, typ: string)
    | Set(section: string, option: string, value: string)
    | AddList(section: string, option: string, value: string)
    | DelList(section: string, option: string, value: string)
    | Delete(path: Path)

  // `uci get` succeeds exactly on a path that is there.
  predicate Present(path: Path, cfg: Config) {
    match path
    case SectionPath(s) => s in cfg
    case OptionPath(s, o) => s in cfg && o in cfg[s].options
  }

  // Whether uci itself accepts the command.
  predicate Accepts(c: Command, cfg: Config) {
    match c
    case Create(_, _) => true
    case Set(s, _, _) => s in cfg
    case AddList(s, _, _) => s in cfg
    case DelList(s, _, _) => s in cfg
    case Delete(path) => Present(path, cfg)
  }

  function Added(options: map<string, Value>, o: string, v: string): Value {
    if o !in options then ListOf([v])
    else
      match options[o]
      case Scalar(t) => ListOf([t, v])
      case ListOf(items) => ListOf(items + [v])
  }

  function Without(items: seq<string>, v: string): seq<string> {
    if items == [] then []
    else (if items[0] == v then [] else [items[0]]) + Without(items[1..], v)
  }

  function Removed(options: map<string, Value>, o: string, v: string): map<string, Value> {
    if o in options && options[o].ListOf? then options[o := ListOf(Without(options[o].items, v))] else options
  }

  // A command that uci refuses changes nothing.
  function Effect(c: Command, cfg: Config): Config {
    if !Accepts(c, cfg) then cfg
    else
      match c
      case Create(s, t) => cfg[s := if s in cfg then cfg[s].(typ := t) else Section(t, map[])]
      case Set(s, o, v) => cfg[s := cfg[s].(options := cfg[s].options[o := Scalar(v)])]
      case AddList(s, o, v) => cfg[s := cfg[s].(options := cfg[s].options[o := Added(cfg[s].options, o, v)])]
      case DelList(s, o, v) => cfg[s := cfg[s].(options := Removed(cfg[s].options, o, v))]
      case Delete(SectionPath(s)) => cfg - {s}
      case Delete(OptionPath(s, o)) => cfg[s := cfg[s].(options := cfg[s].options - {o})]
  }

  // ----- plans -----

  // One step of a plan: a command, or a deletion guarded by `uci get`.
  datatype Step = Do(command: Command) | DeleteIfPresent(path: Path)

  predicate StepAccepted(step: Step, cfg: Config) { step.Do? ==> Accepts(step.command, cfg) }

  function StepEffect(step: Step, cfg: Config): Config {
    match step
    case Do(c) => Effect(c, cfg)
    case DeleteIfPresent(path) => Effect(Delete(path), cfg)
  }

  function PathSection(p: Path): string { p.section }

  function StepSection(step: Step): string {
    match step
    case Do(Delete(path)) => PathSection(path)
    case Do(c) => c.section
    case DeleteIfPresent(path) => PathSection(path)
  }

  function Run(plan: seq<Step>, cfg: Config): Config {
    if plan == [] then cfg else Run(plan[1..], StepEffect(plan[0], cfg))
  }

  predicate Accepted(plan: seq<Step>, cfg: Config) {
    plan == [] || (StepAccepted(plan[0], cfg) && Accepted(plan[1..], StepEffect(plan[0], cfg)))
  }

  lemma {:induction false} RunConcat(a: seq<Step>, b: seq<Step>, cfg: Config)
    ensures Run(a + b, cfg) == Run(b, Run(a, cfg))
    ensures Accepted(a + b, cfg) <==> Accepted(a, cfg) && Accepted(b, Run(a, cfg))
  {
    if a == [] {
      assert a + b == b;
    } else {
      assert (a + b)[1..] == a[1..] + b;
      RunConcat(a[1..], b, StepEffect(a[0], cfg));
    }
  }

  lemma RunOne(step: Step, cfg: Config)
    ensures Run([step], cfg) == StepEffect(step, cfg)
    ensures Accepted([step], cfg) <==> StepAccepted(step, cfg)
  {
    assert [step][1..] == [];
  }

  predicate SameAt(a: Config, b: Config, s: string) {
    (s in a <==> s in b) && (s in a ==> a[s] == b[s])
  }

  // A plan leaves alone every section that none of its steps names.
  lemma {:induction false} RunElsewhere(plan: seq<Step>, cfg: Config, s: string)
    requires forall i :: 0 <= i < |plan| ==> StepSection(plan[i]) != s
    ensures SameAt(Run(plan, cfg), cfg, s)
  {
    if plan != [] {
      assert SameAt(StepEffect(plan[0], cfg), cfg, s);
      RunElsewhere(plan[1..], StepEffect(plan[0], cfg), s);
    }
  }

  // ----- section programs -----

  // The commands that fill one section, as writes to its options.
  datatype Write = SetTo(option: string, value: string) | Append(option: string, value: string)

  datatype Program = Program(section: string, typ: string, writes: seq<Write>)

  function Written(w: Write, options: map<string, Value>): map<string, Value> {
    match w
    case SetTo(o, v) => options[o := Scalar(v)]
    case Append(o, v) => options[o := Added(options, o, v)]
  }

  function Fold(writes: seq<Write>, options: map<string, Value>): map<string, Value> {
    if writes == [] then options else Fold(writes[1..], Written(writes[0], options))
  }

  // The section a program makes from nothing.
  function Made(p: Program): Section { Section(p.typ, Fold(p.writes, map[])) }

  function WriteCommand(section: string, w: Write): Command {
    match w
    case SetTo(o, v) => Set(section, o, v)
    case Append(o, v) => AddList(section, o, v)
  }

  function WriteCommands(section: string, writes: seq<Write>): seq<Command> {
    seq(|writes|, i requires 0 <= i < |writes| => WriteCommand(section, writes[i]))
  }

  function ProgramCommands(p: Program): seq<Command> { [Create(p.section, p.typ)] + WriteCommands(p.section, p.writes) }

  function Batch(ps: seq<Program>): seq<Command> {
    if ps == [] then [] else ProgramCommands(ps[0]) + Batch(ps[1..])
  }

  function Steps(commands: seq<Command>): seq<Step> {
    seq(|commands|, i requires 0 <= i < |commands| => Do(commands[i]))
  }

  predicate Distinct(ps: seq<Program>) {
    forall i, j :: 0 <= i < j < |ps| ==> ps[i].section != ps[j].section
  }

  lemma {:induction false} BatchConcat(a: seq<Program>, b: seq<Program>)
    ensures Batch(a + b) == Batch(a) + Batch(b)
  {
    if a == [] {
      assert a + b == b;
    } else {
      assert (a + b)[1..] == a[1..] + b;
      BatchConcat(a[1..], b);
    }
  }

  lemma StepsConcat(a: seq<Command>, b: seq<Command>)
    ensures Steps(a + b) == Steps(a) + Steps(b)
  {
  }

  lemma {:induction false} FoldConcat(a: seq<Write>, b: seq<Write>, m: map<string, Value>)
    ensures Fold(a + b, m) == Fold(b, Fold(a, m))
  {
    if a == [] {
      assert a + b == b;
    } else {
      assert (a + b)[1..] == a[1..] + b;
      FoldConcat(a[1..], b, Written(a[0], m));
    }
  }

  // Which options a program appends to.
  predicate Appends(writes: seq<Write>, o: string) {
    exists i :: 0 <= i < |writes| && writes[i].Append? && writes[i].option == o
  }

  // Leftover options that the program does not append to end up below what it writes.
  lemma {:induction false} FoldOver(writes: seq<Write>, m: map<string, Value>, f: map<string, Value>)
    requires forall o :: o in m ==> !Appends(writes, o)
    ensures Fold(writes, m + f) == m + Fold(writes, f)
  {
    if writes != [] {
      var w := writes[0];
      assert w.Append? ==> w.option !in m;
      assert Written(w, m + f) == m + Written(w, f);
      assert forall o :: Appends(writes[1..], o) ==> Appends(writes, o);
      FoldOver(writes[1..], m, Written(w, f));
    }
  }

  lemma {:induction false} FoldKeys(writes: seq<Write>, m: map<string, Value>)
    ensures m.Keys <= Fold(writes, m).Keys
    ensures forall i :: 0 <= i < |writes| ==> writes[i].option in Fold(writes, m)
  {
    if writes != [] {
      FoldKeys(writes[1..], Written(writes[0], m));
      assert writes[0].option in Written(writes[0], m);
      assert forall i :: 1 <= i < |writes| ==> writes[i] == writes[1..][i - 1];
    }
  }

  // A section left by an earlier, partly run attempt: nothing in it outlives the program.
  predicate Overwritable(p: Program, cfg: Config) {
    p.section in cfg ==>
      && cfg[p.section].options.Keys <= Made(p).options.Keys
      && forall o :: o in cfg[p.section].options ==> !Appends(p.writes, o)
  }

  lemma {:induction false} RunWrites(section: string, writes: seq<Write>, cfg: Config)
    requires section in cfg
    ensures Run(Steps(WriteCommands(section, writes)), cfg)
         == cfg[section := cfg[section].(options := Fold(writes, cfg[section].options))]
    ensures Accepted(Steps(WriteCommands(section, writes)), cfg)
  {
    var plan := Steps(WriteCommands(section, writes));
    if writes == [] {
      assert cfg == cfg[section := cfg[section].(options := Fold(writes, cfg[section].options))];
    } else {
      var next := StepEffect(plan[0], cfg);
      assert plan[1..] == Steps(WriteCommands(section, writes[1..]));
      RunWrites(section, writes[1..], next);
    }
  }

  lemma RunProgram(p: Program, cfg: Config)
    requires Overwritable(p, cfg)
    ensures Run(Steps(ProgramCommands(p)), cfg) == cfg[p.section := Made(p)]
    ensures Accepted(Steps(ProgramCommands(p)), cfg)
  {
    var create := Create(p.section, p.typ);
    var next := Effect(create, cfg);
    RunWrites(p.section, p.writes, next);
    StepsConcat([create], WriteCommands(p.section, p.writes));
    assert Steps([create]) == [Do(create)];
    RunOne(Do(create), cfg);
    RunConcat(Steps([create]), Steps(WriteCommands(p.section, p.writes)), cfg);
    var m := next[p.section].options;
    assert m + map[] == m;
    FoldOver(p.writes, m, map[]);
    assert m + Made(p).options == Made(p).options;
  }

  // Creating a section and filling it is never refused, whatever the store holds.
  lemma ProgramAccepted(p: Program, cfg: Config)
    ensures Accepted(Steps(ProgramCommands(p)), cfg)
  {
    var create := Create(p.section, p.typ);
    RunWrites(p.section, p.writes, Effect(create, cfg));
    StepsConcat([create], WriteCommands(p.section, p.writes));
    assert Steps([create]) == [Do(create)];
    RunOne(Do(create), cfg);
    RunConcat(Steps([create]), Steps(WriteCommands(p.section, p.writes)), cfg);
  }

  lemma {:induction false} BatchAccepted(ps: seq<Program>, cfg: Config)
    ensures Accepted(Steps(Batch(ps)), cfg)
    decreases |ps|
  {
    if ps != [] {
      ProgramAccepted(ps[0], cfg);
      BatchAccepted(ps[1..], Run(Steps(ProgramCommands(ps[0])), cfg));
      StepsConcat(ProgramCommands(ps[0]), Batch(ps[1..]));
      RunConcat(Steps(ProgramCommands(ps[0])), Steps(Batch(ps[1..])), cfg);
    }
  }

  // Every program of the list has run, and nothing else changed.
  function MadeAll(ps: seq<Program>): Config {
    if ps == [] then map[] else map[ps[0].section := Made(ps[0])] + MadeAll(ps[1..])
  }

  lemma {:induction false} MadeAllKeys(ps: seq<Program>)
    ensures forall s :: s in MadeAll(ps) <==> exists i :: 0 <= i < |ps| && ps[i].section == s
  {
    if ps != [] {
      MadeAllKeys(ps[1..]);
      forall s ensures s in MadeAll(ps) <==> exists i :: 0 <= i < |ps| && ps[i].section == s {
        if exists i :: 0 <= i < |ps[1..]| && ps[1..][i].section == s {
          var i :| 0 <= i < |ps[1..]| && ps[1..][i].section == s;
          assert ps[i + 1].section == s;
        }
        if exists i :: 0 <= i < |ps| && ps[i].section == s {
          var i :| 0 <= i < |ps| && ps[i].section == s;
          assert i > 0 ==> ps[1..][i - 1].section == s;
        }
      }
    }
  }

  lemma {:induction false} MadeAllAt(ps: seq<Program>, i: nat)
    requires Distinct(ps) && i < |ps|
    ensures ps[i].section in MadeAll(ps) && MadeAll(ps)[ps[i].section] == Made(ps[i])
  {
    if i == 0 {
      MadeAllKeys(ps[1..]);
    } else {
      MadeAllAt(ps[1..], i - 1);
    }
  }

  lemma Merge(cfg: Config, s: string, made: Section, rest: Config)
    ensures cfg[s := made] + rest == cfg + (map[s := made] + rest)
  {
  }

  lemma StillOverwritable(ps: seq<Program>, cfg: Config)
    requires ps != [] && Distinct(ps) && forall i :: 0 <= i < |ps| ==> Overwritable(ps[i], cfg)
    ensures Distinct(ps[1..])
    ensures forall i :: 0 <= i < |ps[1..]| ==> Overwritable(ps[1..][i], cfg[ps[0].section := Made(ps[0])])
  {
    forall i | 0 <= i < |ps[1..]| ensures Overwritable(ps[1..][i], cfg[ps[0].section := Made(ps[0])]) {
      assert ps[1..][i] == ps[i + 1] && Overwritable(ps[i + 1], cfg);
    }
  }

  lemma {:induction false} RunBatch(ps: seq<Program>, cfg: Config)
    requires Distinct(ps) && forall i :: 0 <= i < |ps| ==> Overwritable(ps[i], cfg)
    ensures Run(Steps(Batch(ps)), cfg) == cfg + MadeAll(ps)
    ensures Accepted(Steps(Batch(ps)), cfg)
  {
    if ps == [] {
    } else {
      var next := cfg[ps[0].section := Made(ps[0])];
      RunProgram(ps[0], cfg);
      StepsConcat(ProgramCommands(ps[0]), Batch(ps[1..]));
      RunConcat(Steps(ProgramCommands(ps[0])), Steps(Batch(ps[1..])), cfg);
      StillOverwritable(ps, cfg);
      RunBatch(ps[1..], next);
      Merge(cfg, ps[0].section, Made(ps[0]), MadeAll(ps[1..]));
    }
  }
}
