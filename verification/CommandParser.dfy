/** The command line of the client: a list of commands, each followed by the parameters
    that fill it in. */
module CommandParser {
  import opened OpcUaTypes

  datatype Kind = ReadKind | WriteKind | OtherKind

  /** One `-name value` pair: the name trimmed and in upper case, the value trimmed. */
  datatype Parameter = Parameter(name: string, value: string)

  type Value = string

  /** A Read or Write command keeps parallel vectors; any other command is determined by
      the parameters it has accepted. */
  datatype Command = Command(
    name: string,
    kind: Kind,
    session: string,
    nodeIds: seq<NodeId>,
    values: seq<Value>,
    attributeIds: seq<nat>,
    parameters: seq<Parameter>)

  /** The registered commands, the text conversions and the behaviour of the commands
      other than Read and Write. */
  datatype Factory = Factory(
    commands: map<string, Kind>,
    nodeId: string -> Option<NodeId>,
    value: string -> Option<Value>,
    number: string -> Option<nat>,
    accepts: (string, seq<Parameter>, Parameter) -> bool,
    complete: (string, seq<Parameter>) -> bool)

  datatype ParseError =
    | NoParameter
    | FirstParameter
    | MissingValue
    | UnknownCommand(command: string)
    | Incomplete(command: string)
    | BadParameter(parameter: string, command: string)

  datatype Outcome = Parsed(commands: seq<Command>) | Failed(error: ParseError) | HelpShown

  predicate IsSpace(c: char) {
    c == ' ' || '\U{9}' <= c <= '\U{D}'
  }

  function TrimLeft(s: string): string {
    if s != "" && IsSpace(s[0]) then TrimLeft(s[1..]) else s
  }

  function TrimRight(s: string): string {
    if s != "" && IsSpace(s[|s| - 1]) then TrimRight(s[..|s| - 1]) else s
  }

  function Trim(s: string): string {
    TrimRight(TrimLeft(s))
  }

  function Upper(s: string): string {
    seq(|s|, i requires 0 <= i < |s| => if 'a' <= s[i] <= 'z' then s[i] - 'a' + 'A' else s[i])
  }

  function NameOf(arg: string): string {
    Upper(Trim(arg))
  }

  predicate IsHelp(name: string) {
    name == "-HELP" || name == "-H"
  }

  /** What the first argument must be: with no command yet, nothing else can be served. */
  predicate Opens(name: string) {
    name == "-COMMAND" || IsHelp(name)
  }

  const VALUE_ATTRIBUTE: nat := 13

  function Fresh(name: string, kind: Kind, session: string): Command {
    Command(name, kind, session, [], [], [], [])
  }

  function AddParameter(f: Factory, c: Command, p: Parameter): Option<Command> {
    if c.kind == OtherKind then
      if f.accepts(c.name, c.parameters, p) then Some(c.(parameters := c.parameters + [p])) else None
    else if p.name == "-NODEID" then
      match f.nodeId(p.value)
      case None => None
      case Some(id) => Some(c.(nodeIds := c.nodeIds + [id], attributeIds := c.attributeIds + [VALUE_ATTRIBUTE]))
    else if p.name == "-VALUE" && c.kind == WriteKind then
      match f.value(p.value)
      case None => None
      case Some(value) => Some(c.(values := c.values + [value]))
    else if p.name == "-ATTRIBUTEID" then
      match f.number(p.value)
      case None => None
      case Some(number) =>
        if c.attributeIds == [] then None
        else Some(c.(attributeIds := c.attributeIds[|c.attributeIds| - 1 := number]))
    else None
  }

  /** `validateCommand`. */
  predicate Complete(f: Factory, c: Command) {
    match c.kind
    case ReadKind => c.nodeIds != []
    case WriteKind => c.nodeIds != [] && |c.nodeIds| == |c.values|
    case OtherKind => f.complete(c.name, c.parameters)
  }

  /** The parser between two arguments: still going, or stopped with an outcome. */
  datatype Progress = Going(session: string, commands: seq<Command>) | Stopped(outcome: Outcome)

  function Last<T>(s: seq<T>): T
    requires s != []
  {
    s[|s| - 1]
  }

  function Front<T>(s: seq<T>): seq<T>
    requires s != []
  {
    s[..|s| - 1]
  }

  /** One pass of the argument loop. Only `-COMMAND` and help can be served while there is
      no current command. */
  function Step(f: Factory, session: string, commands: seq<Command>, p: Parameter): Progress
    requires commands != [] || Opens(p.name)
  {
    if p.name == "-COMMAND" then
      var name := Upper(p.value);
      if commands != [] && !Complete(f, Last(commands)) then Stopped(Failed(Incomplete(Last(commands).name)))
      else if name !in f.commands then Stopped(Failed(UnknownCommand(name)))
      else Going(session, commands + [Fresh(name, f.commands[name], session)])
    else if IsHelp(p.name) then Stopped(HelpShown)
    else if p.name == "-SESSION" then
      Going(p.value, Front(commands) + [Last(commands).(session := p.value)])
    else
      match AddParameter(f, Last(commands), p)
      case None => Stopped(Failed(BadParameter(p.name, Last(commands).name)))
      case Some(c) => Going(session, Front(commands) + [c])
  }

  function Fold(f: Factory, session: string, ps: seq<Parameter>): (r: Progress)
    requires ps == [] || Opens(ps[0].name)
    ensures r.Going? && ps != [] ==> r.commands != []
    ensures r.Stopped? ==> !r.outcome.Parsed?
  {
    if ps == [] then Going(session, [])
    else
      match Fold(f, session, Front(ps))
      case Going(s, commands) => Step(f, s, commands, Last(ps))
      case Stopped(outcome) => Stopped(outcome)
  }

  /** The first `k` pairs of the arguments. */
  function Pairs(args: seq<string>, k: nat): seq<Parameter>
    requires 2 * k <= |args|
  {
    seq(k, i requires 0 <= i < k => Parameter(NameOf(args[2 * i]), Trim(args[2 * i + 1])))
  }

  /** The outcome for a trailing argument that has no value. */
  function Dangling(f: Factory, commands: seq<Command>, name: string): Outcome {
    if IsHelp(name) then HelpShown
    else if name == "-COMMAND" && commands != [] && !Complete(f, Last(commands)) then
      Failed(Incomplete(Last(commands).name))
    else Failed(MissingValue)
  }

  /** The outcome at the end of the arguments. */
  function Finish(f: Factory, commands: seq<Command>): Outcome {
    if commands != [] && !Complete(f, Last(commands)) then Failed(Incomplete(Last(commands).name))
    else Parsed(commands)
  }

  /** `parse`, for the arguments after the program name. */
  function Parse(f: Factory, session: string, args: seq<string>): Outcome {
    if args == [] then Failed(NoParameter)
    else if !Opens(NameOf(args[0])) then Failed(FirstParameter)
    else
      match Fold(f, session, Pairs(args, |args| / 2))
      case Stopped(outcome) => outcome
      case Going(_, commands) =>
        if |args| % 2 == 1 then Dangling(f, commands, NameOf(args[|args| - 1])) else Finish(f, commands)
  }

  // ---------------------------------------------------------------------------------
  // The argument vector by index, as the loop sees it
  // ---------------------------------------------------------------------------------

  function Arguments(argv: seq<string>): seq<string> {
    if argv == [] then [] else argv[1..]
  }

  function PairAt(argv: seq<string>, idx: nat): Parameter
    requires idx + 1 < |argv|
  {
    Parameter(NameOf(argv[idx]), Trim(argv[idx + 1]))
  }

  /** What is known when the loop has reached `idx`. */
  ghost function FoldTo(f: Factory, session: string, argv: seq<string>, idx: nat): Progress
    requires 1 <= idx <= |argv| && idx % 2 == 1
    requires |argv| > 1 && Opens(NameOf(argv[1]))
  {
    Fold(f, session, Pairs(argv[1..], idx / 2))
  }

  /** The argument at `idx` ends the parsing. */
  ghost predicate StopsWith(
    f: Factory, session: string, commands: seq<Command>, argv: seq<string>, idx: nat, o: Outcome)
    requires idx < |argv|
  {
    if idx + 1 < |argv| then
      && (commands != [] || Opens(NameOf(argv[idx])))
      && Step(f, session, commands, PairAt(argv, idx)) == Stopped(o)
    else Dangling(f, commands, NameOf(argv[idx])) == o
  }

  /** The argument at `idx` and its value are consumed. */
  ghost predicate GoesOnWith(f: Factory, session: string, commands: seq<Command>, argv: seq<string>, idx: nat,
    session': string, commands': seq<Command>)
  {
    && idx + 1 < |argv|
    && (commands != [] || Opens(NameOf(argv[idx])))
    && Step(f, session, commands, PairAt(argv, idx)) == Going(session', commands')
  }

  lemma PairExtendsFold(f: Factory, start: string, session: string, commands: seq<Command>, argv: seq<string>, idx: nat)
    requires 1 <= idx && idx % 2 == 1 && idx + 1 < |argv| && Opens(NameOf(argv[1]))
    requires FoldTo(f, start, argv, idx) == Going(session, commands)
    requires commands != [] || Opens(NameOf(argv[idx]))
    ensures FoldTo(f, start, argv, idx + 2) == Step(f, session, commands, PairAt(argv, idx))
  {
    var args, k := argv[1..], idx / 2;
    var ps := Pairs(args, k + 1);
    assert Front(ps) == Pairs(args, k);
    assert Last(ps) == PairAt(argv, idx);
  }

  lemma {:induction false} StopIsFinal(f: Factory, start: string, ps: seq<Parameter>, k: nat)
    requires 0 < k <= |ps| && Opens(ps[0].name)
    requires Fold(f, start, ps[..k]).Stopped?
    ensures Fold(f, start, ps) == Fold(f, start, ps[..k])
  {
    if k == |ps| {
      assert ps[..k] == ps;
    } else {
      assert Front(ps)[..k] == ps[..k];
      StopIsFinal(f, start, Front(ps), k);
    }
  }

  lemma StopEndsParsing(f: Factory, start: string, session: string, commands: seq<Command>, argv: seq<string>,
    idx: nat, o: Outcome)
    requires 1 <= idx < |argv| && idx % 2 == 1 && Opens(NameOf(argv[1]))
    requires FoldTo(f, start, argv, idx) == Going(session, commands)
    requires StopsWith(f, session, commands, argv, idx, o)
    ensures Parse(f, start, Arguments(argv)) == o
  {
    if idx + 1 < |argv| {
      PairExtendsFold(f, start, session, commands, argv, idx);
      StopInPairs(f, start, argv[1..], (idx + 2) / 2);
    } else {
      DanglingEndsParsing(f, start, session, commands, argv[1..]);
    }
  }

  lemma DanglingEndsParsing(f: Factory, start: string, session: string, commands: seq<Command>, args: seq<string>)
    requires |args| % 2 == 1 && Opens(NameOf(args[0]))
    requires Fold(f, start, Pairs(args, |args| / 2)) == Going(session, commands)
    ensures Parse(f, start, args) == Dangling(f, commands, NameOf(args[|args| - 1]))
  {}

  lemma StopInPairs(f: Factory, start: string, args: seq<string>, k: nat)
    requires 0 < k && 2 * k <= |args| && Opens(NameOf(args[0]))
    requires Fold(f, start, Pairs(args, k)).Stopped?
    ensures Parse(f, start, args) == Fold(f, start, Pairs(args, k)).outcome
  {
    var ps := Pairs(args, |args| / 2);
    assert ps[..k] == Pairs(args, k);
    StopIsFinal(f, start, ps, k);
  }

  lemma EndOfArguments(f: Factory, start: string, session: string, commands: seq<Command>, argv: seq<string>)
    requires |argv| > 1 && |argv| % 2 == 1 && Opens(NameOf(argv[1]))
    requires FoldTo(f, start, argv, |argv|) == Going(session, commands)
    ensures Parse(f, start, Arguments(argv)) == Finish(f, commands)
  {
  }

  // ---------------------------------------------------------------------------------
  // The parser as it runs: the current command is shared with the result vector.
  // ---------------------------------------------------------------------------------

  class CommandObject {
    const kind: Kind
    var name: string
    var session: string
    var nodeIds: seq<NodeId>
    var values: seq<Value>
    var attributeIds: seq<nat>
    var parameters: seq<Parameter>

    ghost function View(): Command
      reads this
    {
      Command(name, kind, session, nodeIds, values, attributeIds, parameters)
    }

    constructor (kind: Kind)
      ensures View() == Fresh("", kind, "Main")
    {
      this.kind, name, session := kind, "", "Main";
      nodeIds, values, attributeIds, parameters := [], [], [], [];
    }

    method AddParameterTo(f: Factory, p: Parameter) returns (ok: bool)
      modifies this
      ensures ok <==> AddParameter(f, old(View()), p).Some?
      ensures View() == if ok then AddParameter(f, old(View()), p).value else old(View())
    {
      if kind == OtherKind {
        ok := f.accepts(name, parameters, p);
        if ok { parameters := parameters + [p]; }
      } else if p.name == "-NODEID" {
        var id := f.nodeId(p.value);
        if id.None? { return false; }
        nodeIds := nodeIds + [id.value];
        attributeIds := attributeIds + [VALUE_ATTRIBUTE];
        ok := true;
      } else if p.name == "-VALUE" && kind == WriteKind {
        var value := f.value(p.value);
        if value.None? { return false; }
        values := values + [value.value];
        ok := true;
      } else if p.name == "-ATTRIBUTEID" {
        var number := f.number(p.value);
        if number.None? || |attributeIds| == 0 { return false; }
        attributeIds := attributeIds[|attributeIds| - 1 := number.value];
        ok := true;
      } else {
        ok := false;
      }
    }

    method Validate(f: Factory) returns (ok: bool)
      ensures ok <==> Complete(f, View())
    {
      match kind
      case ReadKind => ok := |nodeIds| != 0;
      case WriteKind => ok := |nodeIds| != 0 && |nodeIds| == |values|;
      case OtherKind => ok := f.complete(name, parameters);
    }
  }

  /** The objects are distinct and their fields hold these commands. */
  ghost predicate Shows(objects: seq<CommandObject>, commands: seq<Command>)
    reads objects
  {
    && |objects| == |commands|
    && Distinct(objects)
    && forall i :: 0 <= i < |objects| ==> objects[i].View() == commands[i]
  }

  datatype Ending = Accepted | Rejected | ExitAfterHelp

  ghost predicate Reports(ending: Ending, error: Option<ParseError>) {
    ending == ExitAfterHelp || (ending == Rejected && error.Some?)
  }

  ghost function OutcomeOf(ending: Ending, error: Option<ParseError>): Outcome
    requires Reports(ending, error)
  {
    if ending == Rejected then Failed(error.value) else HelpShown
  }

  class Parser {
    const factory: Factory
    var current: CommandObject?
    var session: string
    var error: Option<ParseError>

    constructor (factory: Factory)
      ensures this.factory == factory
      ensures current == null && session == "OpcUaClient" && error == None
    {
      this.factory, current, session, error := factory, null, "OpcUaClient", None;
    }

    /** The current command, if there is one, is the last of the objects. */
    ghost predicate Tracks(objects: seq<CommandObject>, commands: seq<Command>)
      reads this, objects
    {
      && Shows(objects, commands)
      && current == if objects == [] then null else Last(objects)
    }

    method ValidateCurrent() returns (ok: bool)
      modifies this`error
      ensures ok <==> current == null || Complete(factory, current.View())
      ensures error == if ok then old(error) else Some(Incomplete(current.name))
    {
      ok := true;
      if current != null {
        ok := current.Validate(factory);
        if !ok { error := Some(Incomplete(current.name)); }
      }
    }

    method ParseCommand(argv: seq<string>, idx: nat, ghost objects: seq<CommandObject>, ghost commands: seq<Command>)
      returns (ok: bool)
      requires idx < |argv| && NameOf(argv[idx]) == "-COMMAND"
      requires Tracks(objects, commands)
      modifies this`current, this`error
      ensures !ok ==> current == old(current)
      ensures !ok ==> error.Some? && StopsWith(factory, session, commands, argv, idx, Failed(error.value))
      ensures ok ==> current != null && fresh(current)
      ensures ok ==> Tracks(objects + [current], commands + [current.View()])
      ensures ok ==> GoesOnWith(factory, session, commands, argv, idx, session, commands + [current.View()])
    {
      ok := ValidateCurrent();
      if !ok { return; }
      if idx + 1 >= |argv| {
        error := Some(MissingValue);
        return false;
      }
      var name := Upper(Trim(argv[idx + 1]));
      if name !in factory.commands {
        error := Some(UnknownCommand(name));
        return false;
      }
      current := new CommandObject(factory.commands[name]);
      current.session := session;
      current.name := name;
    }

    method ParseSession(argv: seq<string>, idx: nat, ghost objects: seq<CommandObject>, ghost commands: seq<Command>)
      returns (ok: bool)
      requires idx < |argv| && NameOf(argv[idx]) == "-SESSION"
      requires current != null && Tracks(objects, commands)
      modifies this`session, this`error, current
      ensures !ok ==> error.Some? && StopsWith(factory, old(session), commands, argv, idx, Failed(error.value))
      ensures ok ==> Tracks(objects, Front(commands) + [current.View()])
      ensures ok ==> GoesOnWith(factory, old(session), commands, argv, idx, session, Front(commands) + [current.View()])
    {
      if idx + 1 >= |argv| {
        error := Some(MissingValue);
        return false;
      }
      session := Trim(argv[idx + 1]);
      current.session := session;
      ok := true;
    }

    method ParseParameter(argv: seq<string>, idx: nat, ghost objects: seq<CommandObject>, ghost commands: seq<Command>)
      returns (ok: bool)
      requires idx < |argv| && !Opens(NameOf(argv[idx])) && NameOf(argv[idx]) != "-SESSION"
      requires current != null && Tracks(objects, commands)
      modifies this`error, current
      ensures !ok ==> error.Some? && StopsWith(factory, session, commands, argv, idx, Failed(error.value))
      ensures ok ==> Tracks(objects, Front(commands) + [current.View()])
      ensures ok ==> GoesOnWith(factory, session, commands, argv, idx, session, Front(commands) + [current.View()])
    {
      if idx + 1 >= |argv| {
        error := Some(MissingValue);
        return false;
      }
      var p := Parameter(NameOf(argv[idx]), Trim(argv[idx + 1]));
      ok := current.AddParameterTo(factory, p);
      if !ok {
        error := Some(BadParameter(p.name, current.name));
      }
    }

    /** One pass of the loop: the branch the argument selects, and the command pushed on
        the result vector. */
    method ParseOne(argv: seq<string>, idx: nat, objects: seq<CommandObject>, ghost commands: seq<Command>)
      returns (stop: Option<Ending>, objects': seq<CommandObject>, ghost commands': seq<Command>)
      requires idx < |argv| && (commands != [] || Opens(NameOf(argv[idx])))
      requires Tracks(objects, commands)
      modifies this, current
      ensures stop.None? ==> Tracks(objects', commands') && commands' != []
      ensures stop.None? ==> GoesOnWith(factory, old(session), commands, argv, idx, session, commands')
      ensures current == old(current) || fresh(current)
      ensures stop.Some? ==> Reports(stop.value, error)
      ensures stop.Some? ==> StopsWith(factory, old(session), commands, argv, idx, OutcomeOf(stop.value, error))
    {
      var para := NameOf(argv[idx]);
      var ok;
      objects', commands' := objects, commands;
      if para == "-COMMAND" {
        ok := ParseCommand(argv, idx, objects, commands);
        if ok {
          objects' := objects + [current];
          commands' := commands + [current.View()];
        }
      } else if para == "-SESSION" {
        ok := ParseSession(argv, idx, objects, commands);
        commands' := Front(commands) + [current.View()];
      } else if IsHelp(para) {
        return Some(ExitAfterHelp), objects, commands;
      } else {
        ok := ParseParameter(argv, idx, objects, commands);
        commands' := Front(commands) + [current.View()];
      }
      stop := if ok then None else Some(Rejected);
    }

    /** `parse`: every dereference of the current command happens with a command there. */
    method ParseArguments(argv: seq<string>) returns (ending: Ending, objects: seq<CommandObject>)
      requires current == null
      modifies this
      ensures match Parse(factory, old(session), Arguments(argv))
              case Parsed(commands) => ending == Accepted && Shows(objects, commands)
              case Failed(e) => ending == Rejected && error == Some(e)
              case HelpShown => ending == ExitAfterHelp
    {
      objects := [];
      if |argv| < 2 {
        error := Some(NoParameter);
        return Rejected, objects;
      }
      if !Opens(NameOf(argv[1])) {
        error := Some(FirstParameter);
        return Rejected, objects;
      }
      var idx := 1;
      ghost var commands: seq<Command> := [];
      while idx < |argv|
        invariant 1 <= idx <= |argv| && idx % 2 == 1
        invariant FoldTo(factory, old(session), argv, idx) == Going(session, commands)
        invariant Tracks(objects, commands)
        invariant idx > 1 ==> commands != []
        invariant current != null ==> fresh(current)
        decreases |argv| - idx
      {
        ghost var before, was := session, commands;
        var stop;
        stop, objects, commands := ParseOne(argv, idx, objects, commands);
        if stop.Some? {
          StopEndsParsing(factory, old(session), before, was, argv, idx, OutcomeOf(stop.value, error));
          return stop.value, objects;
        }
        PairExtendsFold(factory, old(session), before, was, argv, idx);
        idx := idx + 2;
      }
      var ok := ValidateCurrent();
      EndOfArguments(factory, old(session), session, commands, argv);
      ending := if ok then Accepted else Rejected;
    }
  }
}
