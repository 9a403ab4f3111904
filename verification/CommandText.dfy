/** How the text of a command line matters: letter case of names and blanks around arguments
    do not, parameters decide when a group is complete, and the first pair that does not
    fit decides the error. */
module CommandText {
  import opened OpcUaTypes
  import opened CommandParser
  import opened CommandGrammar

  // ---------------------------------------------------------------------
  // Letter case and blanks
  // ---------------------------------------------------------------------

  predicate SameLetter(c: char, d: char) {
    || c == d
    || ('A' <= c <= 'Z' && d as int == c as int + 32)
    || ('A' <= d <= 'Z' && c as int == d as int + 32)
  }

  predicate SameLetters(s: string, t: string) {
    |s| == |t| && forall i :: 0 <= i < |s| ==> SameLetter(s[i], t[i])
  }

  predicate IsBlank(c: char) {
    c in " \t\n\r\U{B}\U{C}"
  }

  /** `s` is blank outside of the range, which begins and ends with other characters. */
  ghost predicate CoreAt(s: string, from: nat, to: nat) {
    && from <= to <= |s|
    && (forall i :: 0 <= i < from ==> IsBlank(s[i]))
    && (forall i :: to <= i < |s| ==> IsBlank(s[i]))
    && (from < to ==> !IsBlank(s[from]) && !IsBlank(s[to - 1]))
  }

  /** `t` is `s` without the blanks around it. */
  ghost predicate IsCore(s: string, t: string) {
    exists from: nat, to: nat :: CoreAt(s, from, to) && t == s[from..to]
  }

  lemma UpperIgnoresCaseIff(s: string, t: string)
    ensures Upper(s) == Upper(t) <==> SameLetters(s, t)
  {
    if Upper(s) == Upper(t) {
      forall i | 0 <= i < |s| ensures |s| == |t| && SameLetter(s[i], t[i]) {
        assert Upper(s)[i] == Upper(t)[i];
      }
    }
  }

  lemma {:induction false} TrimLeftSplits(s: string) returns (from: nat)
    ensures from <= |s| && TrimLeft(s) == s[from..]
    ensures forall i :: 0 <= i < from ==> IsBlank(s[i])
    ensures from < |s| ==> !IsBlank(s[from])
  {
    from := 0;
    if s != "" && IsSpace(s[0]) {
      from := TrimLeftSplits(s[1..]);
      assert s[1..][from..] == s[from + 1..];
      assert forall i :: 0 <= i < from ==> IsBlank(s[1..][i]);
      from := from + 1;
    }
  }

  lemma {:induction false} TrimRightSplits(s: string) returns (to: nat)
    ensures to <= |s| && TrimRight(s) == s[..to]
    ensures forall i :: to <= i < |s| ==> IsBlank(s[i])
    ensures 0 < to ==> !IsBlank(s[to - 1])
  {
    to := |s|;
    if s != "" && IsSpace(s[|s| - 1]) {
      var front := s[..|s| - 1];
      to := TrimRightSplits(front);
      assert front[..to] == s[..to];
      assert forall i :: to <= i < |front| ==> IsBlank(front[i]);
    }
  }

  lemma TrimIsCore(s: string)
    ensures IsCore(s, Trim(s))
  {
    var from := TrimLeftSplits(s);
    var t := s[from..];
    var to := TrimRightSplits(t);
    assert t[..to] == s[from..from + to];
    forall i | from + to <= i < |s| ensures IsBlank(s[i]) {
      assert IsBlank(t[i - from]);
    }
    assert to > 0 ==> t[to - 1] == s[from + to - 1];
    assert CoreAt(s, from, from + to);
  }

  lemma CoreIsUnique(s: string, from: nat, to: nat, from': nat, to': nat)
    requires CoreAt(s, from, to) && CoreAt(s, from', to')
    ensures s[from..to] == s[from'..to']
  {
    if from < to && from' < to' {
      assert from == from' && to == to';
    }
  }

  /** Trimming takes away the blanks around a text and nothing else. */
  lemma TrimIff(s: string, t: string)
    ensures Trim(s) == t <==> IsCore(s, t)
  {
    TrimIsCore(s);
    if IsCore(s, t) {
      var from: nat, to: nat :| CoreAt(s, from, to) && t == s[from..to];
      var from': nat, to': nat :| CoreAt(s, from', to') && Trim(s) == s[from'..to'];
      CoreIsUnique(s, from, to, from', to');
    }
  }

  /** The two arguments have cores with the same letters. */
  ghost predicate SameName(s: string, t: string) {
    exists x, y :: IsCore(s, x) && IsCore(t, y) && SameLetters(x, y)
  }

  /** The two arguments have the same core. */
  ghost predicate SameValue(s: string, t: string) {
    exists x :: IsCore(s, x) && IsCore(t, x)
  }

  lemma SameNameIff(s: string, t: string)
    ensures SameName(s, t) <==> NameOf(s) == NameOf(t)
  {
    TrimIsCore(s);
    TrimIsCore(t);
    UpperIgnoresCaseIff(Trim(s), Trim(t));
    if SameName(s, t) {
      var x, y :| IsCore(s, x) && IsCore(t, y) && SameLetters(x, y);
      TrimIff(s, x);
      TrimIff(t, y);
    }
  }

  lemma SameValueIff(s: string, t: string)
    ensures SameValue(s, t) <==> Trim(s) == Trim(t)
  {
    TrimIsCore(s);
    TrimIsCore(t);
    if SameValue(s, t) {
      var x :| IsCore(s, x) && IsCore(t, x);
      TrimIff(s, x);
      TrimIff(t, x);
    }
  }

  /** Names agree up to letter case and outer blanks, values up to outer blanks, and the
      command named by `-Command` also up to letter case. */
  ghost predicate SameText(args: seq<string>, args': seq<string>) {
    |args| == |args'| && forall i :: 0 <= i < |args| ==> SameAt(args, args', i)
  }

  ghost predicate SameAt(args: seq<string>, args': seq<string>, i: nat)
    requires i < |args| == |args'|
  {
    if i % 2 == 0 then SameName(args[i], args'[i])
    else SameValue(args[i], args'[i]) || (SameName(args[i - 1], "-Command") && SameName(args[i], args'[i]))
  }

  ghost predicate SameParameter(p: Parameter, p': Parameter) {
    p.name == p'.name && (p.value == p'.value || (p.name == "-COMMAND" && Upper(p.value) == Upper(p'.value)))
  }

  lemma {:induction false} FoldIgnoresCase(f: Factory, session: string, ps: seq<Parameter>, ps': seq<Parameter>)
    requires |ps| == |ps'| && (ps == [] || Opens(ps[0].name))
    requires forall i :: 0 <= i < |ps| ==> SameParameter(ps[i], ps'[i])
    ensures ps' == [] || Opens(ps'[0].name)
    ensures Fold(f, session, ps) == Fold(f, session, ps')
  {
    if ps != [] {
      assert SameParameter(ps[0], ps'[0]);
      FoldIgnoresCase(f, session, Front(ps), Front(ps'));
      assert SameParameter(Last(ps), Last(ps'));
    }
  }

  lemma CommandNameIff(s: string)
    ensures SameName(s, "-Command") <==> NameOf(s) == "-COMMAND"
  {
    SameNameIff(s, "-Command");
    var t := "-Command";
    assert !IsSpace(t[0]) && !IsSpace(t[|t| - 1]);
    assert Trim(t) == t;
    assert Upper(t) == "-COMMAND";
  }

  lemma PairIgnoresCase(args: seq<string>, args': seq<string>, i: nat)
    requires SameText(args, args') && 2 * i + 1 < |args|
    ensures SameParameter(
              Parameter(NameOf(args[2 * i]), Trim(args[2 * i + 1])),
              Parameter(NameOf(args'[2 * i]), Trim(args'[2 * i + 1])))
  {
    var k := 2 * i + 1;
    assert k % 2 == 1 && (k - 1) % 2 == 0;
    assert SameAt(args, args', k - 1) && SameAt(args, args', k);
    SameNameIff(args[k - 1], args'[k - 1]);
    SameValueIff(args[k], args'[k]);
    SameNameIff(args[k], args'[k]);
    CommandNameIff(args[k - 1]);
  }

  lemma NameIgnoresCase(args: seq<string>, args': seq<string>, i: nat)
    requires SameText(args, args') && i < |args| && i % 2 == 0
    ensures NameOf(args[i]) == NameOf(args'[i])
  {
    assert SameAt(args, args', i);
    SameNameIff(args[i], args'[i]);
  }

  lemma PairsIgnoreCase(f: Factory, session: string, args: seq<string>, args': seq<string>, n: nat)
    requires SameText(args, args') && args != [] && 2 * n <= |args| && Opens(NameOf(args[0]))
    ensures Opens(NameOf(args'[0])) && Fold(f, session, Pairs(args, n)) == Fold(f, session, Pairs(args', n))
  {
    NameIgnoresCase(args, args', 0);
    var ps, ps' := Pairs(args, n), Pairs(args', n);
    forall i | 0 <= i < n ensures SameParameter(ps[i], ps'[i]) {
      PairIgnoresCase(args, args', i);
    }
    FoldIgnoresCase(f, session, ps, ps');
  }

  lemma SameFoldSameParse(f: Factory, session: string, args: seq<string>, args': seq<string>)
    requires |args| == |args'| > 0 && Opens(NameOf(args[0])) && Opens(NameOf(args'[0]))
    requires Fold(f, session, Pairs(args, |args| / 2)) == Fold(f, session, Pairs(args', |args| / 2))
    requires |args| % 2 == 1 ==> NameOf(args[|args| - 1]) == NameOf(args'[|args| - 1])
    ensures Parse(f, session, args) == Parse(f, session, args')
  {}

  /** Letter case of names and commands and the blanks around arguments do not matter. */
  lemma ParseIgnoresCaseAndBlanks(f: Factory, session: string, args: seq<string>, args': seq<string>)
    requires SameText(args, args')
    ensures Parse(f, session, args) == Parse(f, session, args')
  {
    if args != [] {
      NameIgnoresCase(args, args', 0);
      if Opens(NameOf(args[0])) {
        if |args| % 2 == 1 {
          NameIgnoresCase(args, args', |args| - 1);
        }
        PairsIgnoreCase(f, session, args, args', |args| / 2);
        SameFoldSameParse(f, session, args, args');
      }
    }
  }

  // ---------------------------------------------------------------------
  // The attribute of a node
  // ---------------------------------------------------------------------

  /** An attribute id at `l` for the node at `p`: no other node is named in between. */
  ghost predicate Given(items: seq<Parameter>, p: nat, l: nat) {
    p < l < |items| && items[l].name == "-ATTRIBUTEID" && NoNode(items, p + 1, l)
  }

  ghost predicate NoNode(items: seq<Parameter>, from: nat, to: nat)
    requires to <= |items|
  {
    forall i :: from <= i < to ==> items[i].name != "-NODEID"
  }

  /** `a` is the last attribute id given for the node at `p`, or that of the value attribute
      without any. */
  ghost predicate IsAttribute(f: Factory, items: seq<Parameter>, p: nat, a: nat) {
    || (a == 13 && forall l: nat :: !Given(items, p, l))
    || exists l: nat ::
         Given(items, p, l) && a == Number(f, items[l].value) && forall k: nat :: k > l ==> !Given(items, p, k)
  }

  lemma GivenSnoc(items: seq<Parameter>, q: Parameter, p: nat, l: nat)
    requires p < |items|
    ensures Given(items + [q], p, l) <==>
            if l == |items| then q.name == "-ATTRIBUTEID" && NoNode(items, p + 1, |items|) else Given(items, p, l)
  {
    var longer := items + [q];
    if l <= |items| {
      assert NoNode(longer, p + 1, l) <==> NoNode(items, p + 1, l) by {
        assert forall i :: 0 <= i < |items| ==> longer[i] == items[i];
      }
    }
  }

  lemma AttributeSnoc(f: Factory, items: seq<Parameter>, q: Parameter, p: nat, a: nat)
    requires p < |items| && IsAttribute(f, items, p, a)
    ensures var given := q.name == "-ATTRIBUTEID" && NoNode(items, p + 1, |items|);
            IsAttribute(f, items + [q], p, if given then Number(f, q.value) else a)
  {
    forall l: nat ensures Given(items + [q], p, l) <==>
            if l == |items| then q.name == "-ATTRIBUTEID" && NoNode(items, p + 1, |items|) else Given(items, p, l)
    {
      GivenSnoc(items, q, p, l);
    }
    if Given(items + [q], p, |items|) {
    } else if !(a == 13 && forall l: nat :: !Given(items, p, l)) {
      var l: nat :|
        Given(items, p, l) && a == Number(f, items[l].value) && forall k: nat :: k > l ==> !Given(items, p, k);
      assert Given(items + [q], p, l);
    }
  }

  lemma {:induction false} OneAttributePerNode(f: Factory, items: seq<Parameter>)
    ensures |Attributes(f, items)| == |Selected("-NODEID", items)|
  {
    if items != [] {
      OneAttributePerNode(f, items[1..]);
    }
  }

  /** The node named at `p` has the last attribute id given before the next node, and the
      value attribute, 13, if none is given. */
  lemma {:induction false} NodeHasItsAttribute(f: Factory, items: seq<Parameter>, p: nat) returns (k: nat)
    requires p < |items| && items[p].name == "-NODEID"
    ensures k == |Selected("-NODEID", items[..p])| < |Attributes(f, items)|
    ensures IsAttribute(f, items, p, Attributes(f, items)[k])
    ensures k == |Attributes(f, items)| - 1 <==> NoNode(items, p + 1, |items|)
    decreases |items|
  {
    var front, q := Front(items), Last(items);
    assert items == front + [q];
    AttributesSnoc(f, front, q);
    if p == |front| {
      assert items[..p] == front;
      OneAttributePerNode(f, front);
      k := |Selected("-NODEID", front)|;
    } else {
      assert front[..p] == items[..p];
      k := NodeHasItsAttribute(f, front, p);
      AttributeSnoc(f, front, q, p, Attributes(f, front)[k]);
    }
  }

  // ---------------------------------------------------------------------
  // Complete groups
  // ---------------------------------------------------------------------

  /** A group with a known command is ready if and only if its parameters fit and, for a Read
      command, name a node, for a Write command, name nodes and as many values. */
  lemma GroupReadyIff(f: Factory, g: seq<Parameter>)
    requires g != [] && Upper(g[0].value) in f.commands && f.commands[Upper(g[0].value)] != OtherKind
    ensures var kind, items := f.commands[Upper(g[0].value)], g[1..];
            GroupReady(f, g) <==>
              && AllFit(f, kind, items) && Names(items, "-NODEID")
              && (kind == WriteKind ==> |Selected("-VALUE", items)| == |Selected("-NODEID", items)|)
  {
    var kind, items := f.commands[Upper(g[0].value)], g[1..];
    FillIff(f, Upper(g[0].value), kind, items);
    NamesIff(items, "-NODEID");
  }

  lemma {:induction false} NamesIff(items: seq<Parameter>, name: string)
    ensures Names(items, name) <==> Selected(name, items) != []
  {
    if items != [] {
      var rest := items[1..];
      NamesIff(rest, name);
      assert forall i :: 0 <= i < |rest| ==> rest[i] == items[i + 1];
      assert forall i :: 1 <= i < |items| ==> items[i] == rest[i - 1];
    }
  }

  // ---------------------------------------------------------------------
  // Errors
  // ---------------------------------------------------------------------

  lemma {:induction false} FillKeepsName(f: Factory, c: Command, items: seq<Parameter>)
    requires Fill(f, c, items).Some?
    ensures Fill(f, c, items).value.name == c.name
  {
    if items != [] {
      FillKeepsName(f, c, Front(items));
    }
  }

  /** The command named last. */
  function CommandOf(gs: seq<seq<Parameter>>): string
    requires gs != [] && Last(gs) != []
  {
    Upper(Last(gs)[0].value)
  }

  lemma LastResultName(f: Factory, session: string, gs: seq<seq<Parameter>>)
    requires Open(f, gs)
    ensures Last(Results(f, session, gs)).name == CommandOf(gs)
  {
    var g := Last(gs);
    FillKeepsName(f, Fresh(CommandOf(gs), f.commands[CommandOf(gs)], ""), g[1..]);
  }

  /** What the pair after the groups `gs` is told when it cannot be taken. */
  function Complaint(f: Factory, gs: seq<seq<Parameter>>, p: Parameter): Outcome
    requires gs != [] && Last(gs) != []
  {
    if p.name == "-HELP" || p.name == "-H" then HelpShown
    else if p.name != "-COMMAND" then Failed(BadParameter(p.name, CommandOf(gs)))
    else if !GroupReady(f, Last(gs)) then Failed(Incomplete(CommandOf(gs)))
    else Failed(UnknownCommand(Upper(p.value)))
  }

  lemma StepComplains(f: Factory, session: string, ps: seq<Parameter>)
    requires |ps| > 1 && ps[0].name == "-COMMAND"
    requires Open(f, Groups(Front(ps))) && !Open(f, Groups(ps))
    ensures Fold(f, session, ps) == Stopped(Complaint(f, Groups(Front(ps)), Last(ps)))
  {
    var front := Front(ps);
    var gs := Groups(front);
    FoldBuildsGroups(f, session, front);
    FoldBuildsGroups(f, session, ps);
    LastResultName(f, session, gs);
    ReadyIsOpen(f, gs);
    ReadyIsOpenAndComplete(f, session, gs);
  }

  /** The first pair that does not fit the command line before it decides the outcome: help,
      a parameter the command does not take, a command that comes too early, or one that
      is not known. */
  lemma FirstBadPairDecides(f: Factory, session: string, args: seq<string>, k: nat)
    requires 0 < k && 2 * k + 2 <= |args| && NameOf(args[0]) == "-COMMAND"
    requires Open(f, Groups(Pairs(args, k))) && !Open(f, Groups(Pairs(args, k + 1)))
    ensures Parse(f, session, args) == Complaint(f, Groups(Pairs(args, k)), Pairs(args, k + 1)[k])
  {
    var ps := Pairs(args, k + 1);
    assert Front(ps) == Pairs(args, k);
    StepComplains(f, session, ps);
    StopInPairs(f, session, args, k + 1);
  }

  /** The first argument must be a command or a call for help, and the first command known. */
  lemma FirstPairDecides(f: Factory, session: string, args: seq<string>)
    ensures Parse(f, session, args) == Failed(NoParameter) <==> args == []
    ensures args != [] ==>
              (Parse(f, session, args) == Failed(FirstParameter) <==> NameOf(args[0]) !in {"-COMMAND", "-HELP", "-H"})
    ensures args != [] && NameOf(args[0]) in {"-HELP", "-H"} ==> Parse(f, session, args) == HelpShown
    ensures |args| > 1 && NameOf(args[0]) == "-COMMAND" && NameOf(args[1]) !in f.commands ==>
              Parse(f, session, args) == Failed(UnknownCommand(NameOf(args[1])))
  {
    if args != [] && IsHelp(NameOf(args[0])) {
      HelpFirst(f, session, args);
    } else if |args| > 1 && NameOf(args[0]) == "-COMMAND" {
      NoEarlyError(f, session, Pairs(args, |args| / 2));
      if NameOf(args[1]) !in f.commands {
        var ps := Pairs(args, 1);
        assert Front(ps) == [];
        assert Fold(f, session, ps) == Step(f, session, [], ps[0]);
        StopInPairs(f, session, args, 1);
      }
    }
  }

  lemma {:induction false} NoEarlyError(f: Factory, session: string, ps: seq<Parameter>)
    requires ps == [] || Opens(ps[0].name)
    ensures var r := Fold(f, session, ps);
            r.Stopped? ==> r.outcome != Failed(NoParameter) && r.outcome != Failed(FirstParameter)
  {
    if ps != [] {
      NoEarlyError(f, session, Front(ps));
    }
  }

  /** If every pair fits, the end decides: a pair without a value, or a last command that is
      not complete, is an error. */
  lemma EndDecides(f: Factory, session: string, args: seq<string>)
    requires |args| > 1 && NameOf(args[0]) == "-COMMAND" && Open(f, Groups(Pairs(args, |args| / 2)))
    ensures var gs, last := Groups(Pairs(args, |args| / 2)), NameOf(args[|args| - 1]);
            Parse(f, session, args) ==
            if |args| % 2 == 1 && last in {"-HELP", "-H"} then HelpShown
            else if !GroupReady(f, Last(gs)) && (|args| % 2 == 0 || last == "-COMMAND") then
              Failed(Incomplete(CommandOf(gs)))
            else if |args| % 2 == 1 then Failed(MissingValue)
            else Parsed(Results(f, session, gs))
  {
    var ps := Pairs(args, |args| / 2);
    FoldBuildsGroups(f, session, ps);
    LastResultName(f, session, Groups(ps));
    ReadyIsOpen(f, Groups(ps));
    ReadyIsOpenAndComplete(f, session, Groups(ps));
  }
}
