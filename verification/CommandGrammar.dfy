/** What a command line means: it is a list of groups, each a `-Command` pair with the
    parameters up to the next one, and each group stands for one command. */
module CommandGrammar {
  import opened OpcUaTypes
  import opened CommandParser

  predicate IsGroup(g: seq<Parameter>) {
    g != [] && g[0].name == "-COMMAND" && forall i :: 1 <= i < |g| ==> g[i].name != "-COMMAND"
  }

  predicate AllGroups(gs: seq<seq<Parameter>>) {
    forall i :: 0 <= i < |gs| ==> IsGroup(gs[i])
  }

  /** The parameters divided at the `-Command` pairs. */
  function Groups(ps: seq<Parameter>): (gs: seq<seq<Parameter>>)
    requires ps == [] || ps[0].name == "-COMMAND"
    ensures ps != [] ==> gs != []
  {
    if ps == [] then []
    else if Last(ps).name == "-COMMAND" then Groups(Front(ps)) + [[Last(ps)]]
    else
      var gs := Groups(Front(ps));
      Front(gs) + [Last(gs) + [Last(ps)]]
  }

  lemma SingletonGroup(gs: seq<seq<Parameter>>, p: Parameter)
    requires AllGroups(gs) && p.name == "-COMMAND"
    ensures AllGroups(gs + [[p]]) && Flatten(gs + [[p]]) == Flatten(gs) + [p]
  {
    FlattenSnoc(gs, [p]);
  }

  lemma ExtendedGroup(gs: seq<seq<Parameter>>, p: Parameter)
    requires gs != [] && AllGroups(gs) && p.name != "-COMMAND"
    ensures AllGroups(Front(gs) + [Last(gs) + [p]])
    ensures Flatten(Front(gs) + [Last(gs) + [p]]) == Flatten(gs) + [p]
  {
    assert IsGroup(Last(gs) + [p]);
    FlattenLonger(gs, Front(gs) + [Last(gs) + [p]], p);
  }

  lemma {:induction false} GroupsPartition(ps: seq<Parameter>)
    requires ps == [] || ps[0].name == "-COMMAND"
    ensures AllGroups(Groups(ps)) && Flatten(Groups(ps)) == ps
  {
    if ps != [] {
      GroupsPartition(Front(ps));
      assert ps == Front(ps) + [Last(ps)];
      if Last(ps).name == "-COMMAND" {
        SingletonGroup(Groups(Front(ps)), Last(ps));
      } else {
        ExtendedGroup(Groups(Front(ps)), Last(ps));
      }
    }
  }

  lemma GroupsSnoc(ps: seq<Parameter>, p: Parameter)
    requires if ps == [] then p.name == "-COMMAND" else ps[0].name == "-COMMAND"
    ensures var gs := Groups(ps);
            Groups(ps + [p]) ==
            if p.name == "-COMMAND" then gs + [[p]] else Front(gs) + [Last(gs) + [p]]
  {
    assert Front(ps + [p]) == ps;
  }

  /** The parameters of `gs` begin with a command and are divided into `gs` again. */
  ghost predicate Divides(gs: seq<seq<Parameter>>) {
    var ps := Flatten(gs);
    if gs == [] then ps == [] else ps != [] && ps[0].name == "-COMMAND" && Groups(ps) == gs
  }

  lemma DividesWithNewGroup(gs: seq<seq<Parameter>>, p: Parameter)
    requires Divides(gs) && p.name == "-COMMAND"
    ensures Divides(gs + [[p]])
  {
    FlattenSnoc(gs, [p]);
    GroupsSnoc(Flatten(gs), p);
  }

  lemma DividesWithLongerGroup(front: seq<seq<Parameter>>, g: seq<Parameter>, p: Parameter)
    requires Divides(front + [g]) && p.name != "-COMMAND"
    ensures Divides(front + [g + [p]])
  {
    FlattenSnoc(front, g);
    FlattenSnoc(front, g + [p]);
    assert Flatten(front) + (g + [p]) == Flatten(front) + g + [p];
    GroupsSnoc(Flatten(front + [g]), p);
  }

  lemma {:induction false} DividesWithGroup(front: seq<seq<Parameter>>, g: seq<Parameter>)
    requires Divides(front) && IsGroup(g)
    ensures Divides(front + [g])
    decreases |g|
  {
    assert g == Front(g) + [Last(g)];
    if |g| == 1 {
      assert g == [g[0]];
      DividesWithNewGroup(front, g[0]);
    } else {
      DividesWithGroup(front, Front(g));
      DividesWithLongerGroup(front, Front(g), Last(g));
    }
  }

  /** A division into groups is determined by the parameters. */
  lemma {:induction false} GroupsUnique(gs: seq<seq<Parameter>>)
    requires AllGroups(gs)
    ensures Divides(gs)
  {
    if gs != [] {
      assert gs == Front(gs) + [Last(gs)];
      GroupsUnique(Front(gs));
      DividesWithGroup(Front(gs), Last(gs));
    }
  }

  /** The value of the last `-Session` parameter. */
  function LastSession(ps: seq<Parameter>, default: string): string {
    if ps == [] then default
    else if Last(ps).name == "-SESSION" then Last(ps).value
    else LastSession(Front(ps), default)
  }

  /** A command filled in by a group's parameters; its session is decided elsewhere. */
  function Fill(f: Factory, c: Command, items: seq<Parameter>): Option<Command> {
    if items == [] then Some(c)
    else
      match Fill(f, c, Front(items))
      case None => None
      case Some(filled) =>
        if Last(items).name == "-SESSION" then Some(filled)
        else if IsHelp(Last(items).name) then None
        else AddParameter(f, filled, Last(items))
  }

  function Build(f: Factory, g: seq<Parameter>): Option<Command>
    requires g != []
  {
    var name := Upper(g[0].value);
    if name !in f.commands then None else Fill(f, Fresh(name, f.commands[name], ""), g[1..])
  }

  predicate GroupReady(f: Factory, g: seq<Parameter>) {
    g != [] && Build(f, g).Some? && Complete(f, Build(f, g).value)
  }

  predicate Ready(f: Factory, gs: seq<seq<Parameter>>) {
    forall i :: 0 <= i < |gs| ==> GroupReady(f, gs[i])
  }

  /** The last group may still be waiting for parameters. */
  predicate Open(f: Factory, gs: seq<seq<Parameter>>) {
    gs != [] && Ready(f, Front(gs)) && Last(gs) != [] && Build(f, Last(gs)).Some?
  }

  /** One command for each group, under the last session named up to the group's end. */
  function Results(f: Factory, session: string, gs: seq<seq<Parameter>>): seq<Command>
    requires gs == [] || Open(f, gs)
  {
    if gs == [] then []
    else
      Results(f, session, Front(gs)) +
      [Build(f, Last(gs)).value.(session := LastSession(Flatten(gs), session))]
  }

  lemma BuildExtends(f: Factory, g: seq<Parameter>, p: Parameter)
    requires g != []
    ensures Build(f, g + [p]) ==
            match Build(f, g)
            case None => None
            case Some(c) =>
              if p.name == "-SESSION" then Some(c) else if IsHelp(p.name) then None else AddParameter(f, c, p)
  {
    assert (g + [p])[1..] == g[1..] + [p];
    assert Front(g[1..] + [p]) == g[1..];
  }

  lemma BuildSingleton(f: Factory, p: Parameter)
    ensures var name := Upper(p.value);
            Build(f, [p]) == if name in f.commands then Some(Fresh(name, f.commands[name], "")) else None
  {
    assert [p][1..] == [];
  }

  lemma FlattenLonger(gs: seq<seq<Parameter>>, gs': seq<seq<Parameter>>, p: Parameter)
    requires gs' != [] && (
      || (Front(gs') == gs && Last(gs') == [p])
      || (gs != [] && Front(gs') == Front(gs) && Last(gs') == Last(gs) + [p]))
    ensures Flatten(gs') == Flatten(gs) + [p]
  {
    FlattenFrontLast(gs');
    if Front(gs') != gs {
      FlattenFrontLast(gs);
      assert Flatten(Front(gs)) + (Last(gs) + [p]) == Flatten(Front(gs)) + Last(gs) + [p];
    }
  }

  lemma FlattenFrontLast(gs: seq<seq<Parameter>>)
    requires gs != []
    ensures Flatten(gs) == Flatten(Front(gs)) + Last(gs)
  {
    assert gs == Front(gs) + [Last(gs)];
    FlattenSnoc(Front(gs), Last(gs));
  }

  lemma SessionAfter(ps: seq<Parameter>, p: Parameter, default: string)
    ensures LastSession(ps + [p], default) == if p.name == "-SESSION" then p.value else LastSession(ps, default)
  {
    assert Front(ps + [p]) == ps;
  }

  lemma NewGroup(f: Factory, session: string, gs: seq<seq<Parameter>>, p: Parameter, gs': seq<seq<Parameter>>)
    requires gs == [] || Open(f, gs)
    requires p.name == "-COMMAND" && gs' != [] && Front(gs') == gs && Last(gs') == [p]
    ensures var next := Step(f, LastSession(Flatten(gs), session), Results(f, session, gs), p);
            && (next.Going? <==> Open(f, gs'))
            && (Open(f, gs') ==> next == Going(LastSession(Flatten(gs'), session), Results(f, session, gs')))
  {
    BuildSingleton(f, p);
    FlattenLonger(gs, gs', p);
    SessionAfter(Flatten(gs), p, session);
    if gs != [] {
      ReadyIsOpenAndComplete(f, session, gs);
    }
  }

  lemma LongerGroup(f: Factory, session: string, gs: seq<seq<Parameter>>, p: Parameter, gs': seq<seq<Parameter>>)
    requires Open(f, gs) && p.name != "-COMMAND"
    requires gs' != [] && Front(gs') == Front(gs) && Last(gs') == Last(gs) + [p]
    ensures var next := Step(f, LastSession(Flatten(gs), session), Results(f, session, gs), p);
            && (next.Going? <==> Open(f, gs'))
            && (Open(f, gs') ==> next == Going(LastSession(Flatten(gs'), session), Results(f, session, gs')))
  {
    BuildExtends(f, Last(gs), p);
    FlattenLonger(gs, gs', p);
    SessionAfter(Flatten(gs), p, session);
    AddIgnoresSession(f, Build(f, Last(gs)).value, LastSession(Flatten(gs), session), p);
  }

  lemma AddIgnoresSession(f: Factory, c: Command, session: string, p: Parameter)
    ensures AddParameter(f, c.(session := session), p) ==
            match AddParameter(f, c, p)
            case None => None
            case Some(d) => Some(d.(session := session))
  {}

  /** The loop is still going exactly when every group so far stands for a command and all
      but the last are complete; the commands are then the groups' commands. */
  lemma {:induction false} FoldBuildsGroups(f: Factory, session: string, ps: seq<Parameter>)
    requires ps != [] && ps[0].name == "-COMMAND"
    ensures Fold(f, session, ps).Going? <==> Open(f, Groups(ps))
    ensures Open(f, Groups(ps)) ==>
              Fold(f, session, ps) == Going(LastSession(ps, session), Results(f, session, Groups(ps)))
  {
    var gs := Groups(Front(ps));
    GroupsPartition(Front(ps));
    GroupsPartition(ps);
    if |ps| > 1 {
      FoldBuildsGroups(f, session, Front(ps));
    }
    if |ps| == 1 || Open(f, gs) {
      if Last(ps).name == "-COMMAND" {
        NewGroup(f, session, gs, Last(ps), Groups(ps));
      } else {
        LongerGroup(f, session, gs, Last(ps), Groups(ps));
      }
    } else {
      NotOpenStays(f, gs, Last(ps), Groups(ps));
    }
  }

  lemma ReadyIsOpen(f: Factory, gs: seq<seq<Parameter>>)
    requires gs != []
    ensures Ready(f, gs) <==> Ready(f, Front(gs)) && GroupReady(f, Last(gs))
    ensures Ready(f, gs) ==> Open(f, gs)
  {
    var front := Front(gs);
    assert forall i :: 0 <= i < |front| ==> front[i] == gs[i];
  }

  lemma NotOpenStays(f: Factory, gs: seq<seq<Parameter>>, p: Parameter, gs': seq<seq<Parameter>>)
    requires gs != [] && AllGroups(gs) && !Open(f, gs) && gs' != []
    requires Front(gs') == gs || (Front(gs') == Front(gs) && Last(gs') == Last(gs) + [p])
    ensures !Open(f, gs')
  {
    BuildExtends(f, Last(gs), p);
    ReadyIsOpen(f, gs);
  }

  lemma ReadyIsOpenAndComplete(f: Factory, session: string, gs: seq<seq<Parameter>>)
    requires gs != []
    ensures Ready(f, gs) <==> Open(f, gs) && Complete(f, Last(Results(f, session, gs)))
  {
    ReadyIsOpen(f, gs);
    if Open(f, gs) {
      var built := Build(f, Last(gs)).value;
      assert Complete(f, built) <==> Complete(f, Last(Results(f, session, gs)));
    }
  }

  lemma HelpFirst(f: Factory, session: string, args: seq<string>)
    requires args != [] && IsHelp(NameOf(args[0]))
    ensures Parse(f, session, args) == HelpShown
  {
    if |args| > 1 {
      var ps := Pairs(args, 1);
      assert Front(ps) == [];
      assert Fold(f, session, ps) == Step(f, session, [], ps[0]);
      StopInPairs(f, session, args, 1);
    }
  }

  /** A command line parses exactly when it is a non-empty list of pairs beginning with
      `-Command` in which every group stands for a complete command; the result is then
      one command for each group, in order. */
  lemma ParsesIff(f: Factory, session: string, args: seq<string>, commands: seq<Command>)
    ensures Parse(f, session, args) == Parsed(commands) <==>
            && args != [] && |args| % 2 == 0 && NameOf(args[0]) == "-COMMAND"
            && Ready(f, Groups(Pairs(args, |args| / 2)))
            && commands == Results(f, session, Groups(Pairs(args, |args| / 2)))
  {
    if args != [] && |args| % 2 == 0 && NameOf(args[0]) == "-COMMAND" {
      var ps := Pairs(args, |args| / 2);
      FoldBuildsGroups(f, session, ps);
      ReadyIsOpenAndComplete(f, session, Groups(ps));
    } else if args != [] && IsHelp(NameOf(args[0])) {
      HelpFirst(f, session, args);
    }
  }

  lemma {:induction false} ResultAt(f: Factory, session: string, gs: seq<seq<Parameter>>, i: nat)
    requires Ready(f, gs) && i < |gs|
    ensures Open(f, gs) && |Results(f, session, gs)| == |gs|
    ensures Results(f, session, gs)[i] ==
            Build(f, gs[i]).value.(session := LastSession(Flatten(gs[..i + 1]), session))
    decreases |gs|
  {
    ReadyIsOpen(f, gs);
    if i == |gs| - 1 {
      assert gs[..i + 1] == gs;
      if i > 0 {
        ResultAt(f, session, Front(gs), i - 1);
      }
    } else {
      ResultAt(f, session, Front(gs), i);
      assert Front(gs)[..i + 1] == gs[..i + 1];
    }
  }

  // ---------------------------------------------------------------------------------
  // What a Read or Write command holds
  // ---------------------------------------------------------------------------------

  /** The values of the parameters of one name, in order. */
  function Selected(name: string, items: seq<Parameter>): seq<string> {
    if items == [] then []
    else if items[0].name == name then [items[0].value] + Selected(name, items[1..])
    else Selected(name, items[1..])
  }

  ghost predicate Converts<T(!new)>(convert: string -> Option<T>, texts: seq<string>, values: seq<T>) {
    |texts| == |values| && forall i :: 0 <= i < |texts| ==> convert(texts[i]) == Some(values[i])
  }

  function Number(f: Factory, text: string): nat {
    match f.number(text)
    case None => 0
    case Some(n) => n
  }

  /** The attribute chosen for a node: the last `-AttributeId` before the next `-NodeId`. */
  function AttributeAfter(f: Factory, items: seq<Parameter>, chosen: nat): nat {
    if items == [] || items[0].name == "-NODEID" then chosen
    else if items[0].name == "-ATTRIBUTEID" then AttributeAfter(f, items[1..], Number(f, items[0].value))
    else AttributeAfter(f, items[1..], chosen)
  }

  function Attributes(f: Factory, items: seq<Parameter>): seq<nat> {
    if items == [] then []
    else if items[0].name == "-NODEID" then
      [AttributeAfter(f, items[1..], VALUE_ATTRIBUTE)] + Attributes(f, items[1..])
    else Attributes(f, items[1..])
  }

  predicate Names(items: seq<Parameter>, name: string) {
    exists i :: 0 <= i < |items| && items[i].name == name
  }

  /** The parameter at `i` can be taken by a Read or Write command. */
  predicate Fits(f: Factory, kind: Kind, items: seq<Parameter>, i: nat)
    requires i < |items|
  {
    var p := items[i];
    || p.name == "-SESSION"
    || (p.name == "-NODEID" && f.nodeId(p.value).Some?)
    || (p.name == "-VALUE" && kind == WriteKind && f.value(p.value).Some?)
    || (p.name == "-ATTRIBUTEID" && f.number(p.value).Some? && Names(items[..i], "-NODEID"))
  }

  lemma {:induction false} SelectedSnoc(name: string, items: seq<Parameter>, p: Parameter)
    ensures Selected(name, items + [p]) ==
            if p.name == name then Selected(name, items) + [p.value] else Selected(name, items)
  {
    if items != [] {
      SelectedSnoc(name, items[1..], p);
      assert (items + [p])[1..] == items[1..] + [p];
    }
  }

  lemma {:induction false} AttributeAfterSnoc(f: Factory, items: seq<Parameter>, p: Parameter, chosen: nat)
    ensures AttributeAfter(f, items + [p], chosen) ==
            if p.name == "-ATTRIBUTEID" && !Names(items, "-NODEID") then Number(f, p.value)
            else AttributeAfter(f, items, chosen)
  {
    if items == [] {
      assert (items + [p])[1..] == [];
    } else if items[0].name != "-NODEID" {
      var rest := items[1..];
      assert (items + [p])[1..] == rest + [p];
      assert Names(items, "-NODEID") <==> Names(rest, "-NODEID") by {
        assert forall i :: 0 <= i < |rest| ==> rest[i] == items[i + 1];
        assert forall i :: 1 <= i < |items| ==> items[i] == rest[i - 1];
      }
      AttributeAfterSnoc(f, rest, p, if items[0].name == "-ATTRIBUTEID" then Number(f, items[0].value) else chosen);
    }
  }

  function Choose(f: Factory, chosen: seq<nat>, p: Parameter): seq<nat> {
    if p.name == "-NODEID" then chosen + [VALUE_ATTRIBUTE]
    else if p.name == "-ATTRIBUTEID" && chosen != [] then chosen[|chosen| - 1 := Number(f, p.value)]
    else chosen
  }

  lemma {:induction false} AttributesSnoc(f: Factory, items: seq<Parameter>, p: Parameter)
    ensures Attributes(f, items) != [] <==> Names(items, "-NODEID")
    ensures Attributes(f, items + [p]) == Choose(f, Attributes(f, items), p)
  {
    if items == [] {
      assert (items + [p])[1..] == [];
    } else {
      var rest := items[1..];
      assert (items + [p])[1..] == rest + [p];
      assert forall i :: 0 <= i < |rest| ==> rest[i] == items[i + 1];
      assert forall i :: 1 <= i < |items| ==> items[i] == rest[i - 1];
      AttributesSnoc(f, rest, p);
      AttributeAfterSnoc(f, rest, p, VALUE_ATTRIBUTE);
    }
  }

  /** The vectors of a Read or Write command hold the converted values of a group's
      parameters, entry by entry. */
  ghost predicate Holds(f: Factory, c: Command, items: seq<Parameter>) {
    && Converts(f.nodeId, Selected("-NODEID", items), c.nodeIds)
    && Converts(f.value, if c.kind == WriteKind then Selected("-VALUE", items) else [], c.values)
    && c.attributeIds == Attributes(f, items)
    && |c.attributeIds| == |c.nodeIds|
  }

  predicate AllFit(f: Factory, kind: Kind, items: seq<Parameter>) {
    forall i :: 0 <= i < |items| ==> Fits(f, kind, items, i)
  }

  lemma AllFitSnoc(f: Factory, kind: Kind, items: seq<Parameter>)
    requires items != []
    ensures AllFit(f, kind, items) <==> AllFit(f, kind, Front(items)) && Fits(f, kind, items, |items| - 1)
  {
    var front := Front(items);
    forall i | 0 <= i < |front|
      ensures Fits(f, kind, items, i) <==> Fits(f, kind, front, i)
    {
      assert front[..i] == items[..i];
    }
  }

  lemma AddParameterIff(f: Factory, c: Command, items: seq<Parameter>, p: Parameter)
    requires c.kind != OtherKind && c.attributeIds == Attributes(f, items) && p.name != "-SESSION"
    ensures AddParameter(f, c, p).Some? <==> Fits(f, c.kind, items + [p], |items|)
  {
    assert (items + [p])[..|items|] == items;
    AttributesSnoc(f, items, p);
  }

  lemma AddParameterHolds(f: Factory, c: Command, items: seq<Parameter>, p: Parameter)
    requires c.kind != OtherKind && Holds(f, c, items) && p.name != "-SESSION"
    requires AddParameter(f, c, p).Some?
    ensures Holds(f, AddParameter(f, c, p).value, items + [p])
  {
    SelectedSnoc("-NODEID", items, p);
    SelectedSnoc("-VALUE", items, p);
    AttributesSnoc(f, items, p);
    if p.name == "-NODEID" {
      ConvertsOneMore(f.nodeId, Selected("-NODEID", items), c.nodeIds, p.value);
    } else if p.name == "-VALUE" {
      ConvertsOneMore(f.value, Selected("-VALUE", items), c.values, p.value);
    }
  }

  lemma ConvertsOneMore<T(!new)>(convert: string -> Option<T>, texts: seq<string>, values: seq<T>, text: string)
    requires Converts(convert, texts, values) && convert(text).Some?
    ensures Converts(convert, texts + [text], values + [convert(text).value])
  {}

  /** A Read or Write command takes its parameters exactly when each of them fits, and
      then holds them. */
  lemma {:induction false} FillIff(f: Factory, name: string, kind: Kind, items: seq<Parameter>)
    requires kind != OtherKind
    ensures Fill(f, Fresh(name, kind, ""), items).Some? <==> AllFit(f, kind, items)
    ensures AllFit(f, kind, items) ==>
              var c := Fill(f, Fresh(name, kind, ""), items).value;
              c.name == name && c.kind == kind && Holds(f, c, items)
  {
    if items != [] {
      var p := Last(items);
      FillIff(f, name, kind, Front(items));
      AllFitSnoc(f, kind, items);
      assert items == Front(items) + [p];
      if AllFit(f, kind, Front(items)) {
        var c := Fill(f, Fresh(name, kind, ""), Front(items)).value;
        if p.name == "-SESSION" {
          SelectedSnoc("-NODEID", Front(items), p);
          SelectedSnoc("-VALUE", Front(items), p);
          AttributesSnoc(f, Front(items), p);
        } else if !IsHelp(p.name) {
          AddParameterIff(f, c, Front(items), p);
          if AddParameter(f, c, p).Some? {
            AddParameterHolds(f, c, Front(items), p);
          }
        }
      }
    }
  }

  /** The command of a group is complete, runs under the last session named up to the end
      of the group, and has parallel vectors if it reads or writes. */
  ghost predicate Sound(f: Factory, session: string, gs: seq<seq<Parameter>>, i: nat, c: Command) {
    && i < |gs| && IsGroup(gs[i])
    && Complete(f, c)
    && c.session == LastSession(Flatten(gs[..i + 1]), session)
    && (c.kind != OtherKind ==> Holds(f, c, gs[i][1..]))
    && (c.kind != OtherKind ==> |c.attributeIds| == |c.nodeIds| > 0)
    && (c.kind == WriteKind ==> |c.values| == |c.nodeIds|)
  }

  lemma ResultsAreSound(f: Factory, session: string, gs: seq<seq<Parameter>>, i: nat)
    requires Ready(f, gs) && AllGroups(gs) && i < |gs|
    ensures Open(f, gs) && |Results(f, session, gs)| == |gs|
    ensures Sound(f, session, gs, i, Results(f, session, gs)[i])
  {
    ResultAt(f, session, gs, i);
    assert GroupReady(f, gs[i]);
    GroupCommandHolds(f, gs[i]);
  }

  /** Every command of a successful parse is the sound command of its group. */
  lemma ParsedCommandsAreSound(f: Factory, session: string, args: seq<string>, commands: seq<Command>, i: nat)
    requires Parse(f, session, args) == Parsed(commands)
    requires i < |commands|
    ensures args != [] && |args| % 2 == 0 && NameOf(args[0]) == "-COMMAND"
    ensures var gs := Groups(Pairs(args, |args| / 2));
            |commands| == |gs| && Sound(f, session, gs, i, commands[i])
  {
    ParsesIff(f, session, args, commands);
    var gs := Groups(Pairs(args, |args| / 2));
    GroupsPartition(Pairs(args, |args| / 2));
    ResultsAreSound(f, session, gs, if i < |gs| then i else 0);
  }

  lemma GroupCommandHolds(f: Factory, g: seq<Parameter>)
    requires GroupReady(f, g)
    ensures var c := Build(f, g).value; c.kind != OtherKind ==> Holds(f, c, g[1..])
  {
    var name := Upper(g[0].value);
    if f.commands[name] != OtherKind {
      FillIff(f, name, f.commands[name], g[1..]);
    } else {
      OtherStaysOther(f, Fresh(name, OtherKind, ""), g[1..]);
    }
  }

  lemma {:induction false} OtherStaysOther(f: Factory, c: Command, items: seq<Parameter>)
    requires c.kind == OtherKind && Fill(f, c, items).Some?
    ensures Fill(f, c, items).value.kind == OtherKind
  {
    if items != [] {
      OtherStaysOther(f, c, Front(items));
    }
  }
}
