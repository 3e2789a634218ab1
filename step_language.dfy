/**
 * The expected-step language of `tests/lib/algorithms/algorithm.py`: the
 * `Step` lines (`as root`, `s 1000 <-`, `match 400`, `unmatch`,
 * `f red-uncle LL`, `f red-root`) and the action lines (`+ 1000`, `/ 400`,
 * `- 1000`), how they are parsed and validated, and how one expected step
 * is matched against one tuple taken from the recorder's queue.
 *
 * The partner of parsing is `FormatStep` / `FormatAction`, which write an
 * entity back as a line; the partner of matching is `Expected`, the tuple a
 * step stands for, and `Describe`, the steps that describe one engine call.
 */
module StepLanguage {
  import opened Wrappers
  import opened PyText
  import opened RedBlackSpec
  import opened StepRecording

  /** Why a description is refused: `int()` raising `ValueError`, or a failed `assert`. */
  datatype ParseError = ValueError(text: string) | AssertionFailed

  /** A validated expected step, one per `Step.Behavior` with the fields `_validate_*` sets. */
  datatype Step =
    | SetAs(nodeType: string)
    | Search(key: int, direction: Direction)
    | MatchKey(key: int)
    | Unmatch
    | FixupRoot
    | FixupUncle(uncle: string, directions: string)

  predicate IsSides(d: string) { d == "RR" || d == "RL" || d == "LL" || d == "LR" }

  /** The field values validation lets through. */
  predicate StepOk(s: Step)
  {
    match s
    case SetAs(t) => t == "root" || t == "leaf"
    case FixupUncle(u, d) => (u == "red-uncle" || u == "black-uncle") && IsSides(d)
    case _ => true
  }

  /** `Step.Behavior.name` */
  function Name(s: Step): string
  {
    match s
    case SetAs(_) => "set_as"
    case Search(_, _) => "search"
    case MatchKey(_) => "match"
    case Unmatch => "unmatch"
    case FixupRoot => "fixup"
    case FixupUncle(_, _) => "fixup"
  }

  /** The words `parse_from_desc` accepts for a behaviour. */
  function Aliases(name: string): seq<string>
  {
    if name == "set_as" then ["as"]
    else if name == "search" then ["search", "s"]
    else if name == "match" then ["match", "m"]
    else if name == "unmatch" then ["unmatch", "um"]
    else if name == "fixup" then ["fixup", "f"]
    else []
  }

  function IntOf(text: string): (r: Result<int, ParseError>)
    ensures r.Failure? ==> r.error == ValueError(text)
  {
    match ParseInt(text)
    case Some(k) => Success(k)
    case None => Failure(ValueError(text))
  }

  // ---------------------------------------------------------------------
  // Validation of a step's data

  function ValidateSetAs(data: string): Result<Step, ParseError>
  {
    if data == "root" || data == "leaf" then Success(SetAs(data)) else Failure(AssertionFailed)
  }

  /** The last two characters are the arrow; the rest, stripped, is a non-empty key. */
  function ValidateSearch(data: string): Result<Step, ParseError>
  {
    var arrow := Suffix(data, -2);
    if arrow != "->" && arrow != "<-" then Failure(AssertionFailed)
    else
      var key := Strip(Prefix(data, -2));
      if key == "" then Failure(AssertionFailed)
      else match IntOf(key)
        case Failure(e) => Failure(e)
        case Success(k) => Success(Search(k, if arrow == "->" then Right else Left))
  }

  function ValidateMatch(data: string): Result<Step, ParseError>
  {
    if data == "" then Failure(AssertionFailed)
    else match IntOf(data)
      case Failure(e) => Failure(e)
      case Success(k) => Success(MatchKey(k))
  }

  function ValidateUnmatch(data: string): Result<Step, ParseError>
  {
    if data == "" then Success(Unmatch) else Failure(AssertionFailed)
  }

  /** The fix-up kind up to the first space, then an attribute: none for `red-root`, a side pair for an uncle. */
  function ValidateFixup(data: string): Result<Step, ParseError>
  {
    var i := Find(data, ' ');
    var kind := if i == -1 then data else data[..i];
    var attribute := if i == -1 then "" else Strip(data[i..]);
    if kind == "red-root" then
      if attribute == "" then Success(FixupRoot) else Failure(AssertionFailed)
    else if kind == "red-uncle" || kind == "black-uncle" then
      if IsSides(attribute) then Success(FixupUncle(kind, attribute)) else Failure(AssertionFailed)
    else Failure(AssertionFailed)
  }

  /** Which `Step.Behavior` a step word names, through its aliases. */
  datatype Word = AsWord | SearchWord | MatchWord | UnmatchWord | FixupWord | UnknownWord

  function WordOf(behavior: string): Word
  {
    if behavior == "as" then AsWord
    else if behavior == "search" || behavior == "s" then SearchWord
    else if behavior == "match" || behavior == "m" then MatchWord
    else if behavior == "unmatch" || behavior == "um" then UnmatchWord
    else if behavior == "fixup" || behavior == "f" then FixupWord
    else UnknownWord
  }

  /** The validation of the behaviour a word names; an unknown word fails the lookup. */
  function Validate(w: Word, data: string): Result<Step, ParseError>
  {
    match w
    case AsWord => ValidateSetAs(data)
    case SearchWord => ValidateSearch(data)
    case MatchWord => ValidateMatch(data)
    case UnmatchWord => ValidateUnmatch(data)
    case FixupWord => ValidateFixup(data)
    case UnknownWord => Failure(AssertionFailed)
  }

  /** `Step.parse_from_desc(behavior, data)` followed by the constructor's validation. */
  function ParseStep(behavior: string, data: string): Result<Step, ParseError>
  {
    Validate(WordOf(behavior), data)
  }

  /** One step line: split at the first space with the rest stripped; a line without a space has empty data. */
  function ParseStepLine(line: string): Result<Step, ParseError>
  {
    var i := Find(line, ' ');
    if i == -1 then ParseStep(line, "") else ParseStep(line[..i], Strip(line[i..]))
  }

  /** A parsed step passed validation, and its word is one of its behaviour's aliases. */
  lemma ParseStepOk(behavior: string, data: string)
    ensures var r := ParseStep(behavior, data);
      r.Success? ==> StepOk(r.value) && behavior in Aliases(Name(r.value))
  {
    var w := WordOf(behavior);
    ValidateOk(w, data);
    WordAliases(behavior);
  }

  /** The behaviour a word names. */
  function WordName(w: Word): string
  {
    match w
    case AsWord => "set_as"
    case SearchWord => "search"
    case MatchWord => "match"
    case UnmatchWord => "unmatch"
    case FixupWord => "fixup"
    case UnknownWord => ""
  }

  lemma WordAliases(behavior: string)
    ensures WordOf(behavior) != UnknownWord ==> behavior in Aliases(WordName(WordOf(behavior)))
  {
  }

  lemma ValidateOk(w: Word, data: string)
    ensures var r := Validate(w, data); r.Success? ==> StepOk(r.value) && Name(r.value) == WordName(w)
  {
    match w
    case AsWord =>
    case SearchWord => SearchOk(data);
    case MatchWord => MatchOk(data);
    case UnmatchWord =>
    case FixupWord => FixupOk(data);
    case UnknownWord =>
  }

  lemma SearchOk(data: string)
    ensures var r := ValidateSearch(data); r.Success? ==> r.value.Search?
  {
  }

  lemma MatchOk(data: string)
    ensures var r := ValidateMatch(data); r.Success? ==> r.value.MatchKey?
  {
  }

  lemma FixupOk(data: string)
    ensures var r := ValidateFixup(data); r.Success? ==> (r.value.FixupRoot? || r.value.FixupUncle?) && StepOk(r.value)
  {
  }

  /** The step lines of one action, in order; the first refused line stops the parse. */
  function ParseSteps(lines: seq<string>): Result<seq<Step>, ParseError>
  {
    if lines == [] then Success([])
    else match ParseSteps(lines[..|lines| - 1])
      case Failure(e) => Failure(e)
      case Success(acc) =>
        match ParseStepLine(lines[|lines| - 1])
        case Failure(e) => Failure(e)
        case Success(s) => Success(acc + [s])
  }

  // ---------------------------------------------------------------------
  // Actions

  datatype Behavior = SearchKey | InsertKey | DeleteKey

  /** An action with the steps registered on it. */
  datatype Action = Action(behavior: Behavior, key: int, steps: seq<Step>)

  /** `Action.parse_from_desc`: the word or symbol of the behaviour. */
  function ParseActionDesc(desc: string): Result<Behavior, ParseError>
  {
    if desc == "search" || desc == "/" then Success(SearchKey)
    else if desc == "insert" || desc == "+" then Success(InsertKey)
    else if desc == "delete" || desc == "-" then Success(DeleteKey)
    else Failure(AssertionFailed)
  }

  /**
   * An action line: the text before the first space names the behaviour and
   * the rest, stripped, is the key.  The key is converted first, and a line
   * without a space splits as Python's `-1` bound does: all but the last
   * character, and the last character.
   */
  function ParseActionLine(line: string): Result<Action, ParseError>
  {
    var i := Find(line, ' ');
    ParseActionParts(Prefix(line, i), Strip(Suffix(line, i)))
  }

  /** `Action.parse_from_desc(desc, int(keyText))`, the conversion first. */
  function ParseActionParts(desc: string, keyText: string): Result<Action, ParseError>
  {
    match IntOf(keyText)
    case Failure(e) => Failure(e)
    case Success(k) =>
      match ParseActionDesc(desc)
      case Failure(e) => Failure(e)
      case Success(b) => Success(Action(b, k, []))
  }

  /** One `{action: steps}` item of the behaviour list. */
  function ParseBehavior(item: (string, seq<string>)): Result<Action, ParseError>
  {
    match ParseActionLine(item.0)
    case Failure(e) => Failure(e)
    case Success(a) =>
      match ParseSteps(item.1)
      case Failure(e) => Failure(e)
      case Success(ss) => Success(a.(steps := ss))
  }

  /** The whole behaviour list, in order; the first refused line stops the parse. */
  function ParseBehaviors(items: seq<(string, seq<string>)>): Result<seq<Action>, ParseError>
  {
    if items == [] then Success([])
    else match ParseBehaviors(items[..|items| - 1])
      case Failure(e) => Failure(e)
      case Success(acc) =>
        match ParseBehavior(items[|items| - 1])
        case Failure(e) => Failure(e)
        case Success(a) => Success(acc + [a])
  }

  // ---------------------------------------------------------------------
  // Writing steps and actions back as lines

  function Arrow(d: Direction): string { if d == Left then "<-" else "->" }

  function FormatStep(s: Step): string
  {
    match s
    case SetAs(t) => "as " + t
    case Search(k, d) => "s " + IntText(k) + " " + Arrow(d)
    case MatchKey(k) => "match " + IntText(k)
    case Unmatch => "unmatch"
    case FixupRoot => "f red-root"
    case FixupUncle(u, d) => "f " + u + " " + d
  }

  function Symbol(b: Behavior): string
  {
    match b
    case SearchKey => "/"
    case InsertKey => "+"
    case DeleteKey => "-"
  }

  function FormatAction(a: Action): (string, seq<string>)
  {
    (Symbol(a.behavior) + [' '] + IntText(a.key), FormatSteps(a.steps))
  }

  function FormatSteps(ss: seq<Step>): (r: seq<string>)
    ensures |r| == |ss| && forall i :: 0 <= i < |ss| ==> r[i] == FormatStep(ss[i])
  {
    if ss == [] then [] else FormatSteps(ss[..|ss| - 1]) + [FormatStep(ss[|ss| - 1])]
  }

  /** A line cut at its first space, the word before it holding none. */
  lemma SplitAt(w: string, rest: string)
    requires ' ' !in w
    ensures var line := w + [' '] + rest;
      Find(line, ' ') == |w| && line[..|w|] == w && line[|w|..] == [' '] + rest
  {
    var line := w + [' '] + rest;
    var r := Find(line, ' ');
    assert line[|w|] == ' ';
    assert forall i :: 0 <= i < |w| ==> line[i] == w[i];
  }

  /** A step line is its first word and, after one space, its data. */
  lemma LineSplit(w: string, rest: string)
    requires ' ' !in w && Trimmed(Spaces, rest)
    ensures ParseStepLine(w + [' '] + rest) == ParseStep(w, rest)
  {
    SplitAt(w, rest);
    StripLead(rest);
  }

  lemma ParseAs(data: string)
    ensures ParseStep("as", data) == ValidateSetAs(data)
  {
    assert WordOf("as") == AsWord;
  }

  lemma ParseS(data: string)
    ensures ParseStep("s", data) == ValidateSearch(data)
  {
    assert WordOf("s") == SearchWord;
  }

  lemma ParseMatch(data: string)
    ensures ParseStep("match", data) == ValidateMatch(data)
  {
    assert WordOf("match") == MatchWord;
  }

  lemma ParseF(data: string)
    ensures ParseStep("f", data) == ValidateFixup(data)
  {
    assert WordOf("f") == FixupWord;
  }

  lemma SearchData(k: int, d: Direction)
    ensures ValidateSearch(IntText(k) + [' '] + Arrow(d)) == Success(Search(k, d))
  {
    var key := IntText(k);
    var rest := key + [' '] + Arrow(d);
    assert Suffix(rest, -2) == Arrow(d);
    assert Prefix(rest, -2) == key + [' '];
    StripTrail(key);
    IntOfText(k);
  }

  lemma FixupData(u: string, d: string)
    requires (u == "red-uncle" || u == "black-uncle") && IsSides(d)
    ensures ValidateFixup(u + [' '] + d) == Success(FixupUncle(u, d))
  {
    SplitAt(u, d);
    StripLead(d);
  }

  lemma FixupRootData()
    ensures ValidateFixup("red-root") == Success(FixupRoot)
  {
    assert ' ' !in "red-root";
  }

  lemma SetAsLine(t: string)
    requires t == "root" || t == "leaf"
    ensures ParseStepLine(FormatStep(SetAs(t))) == Success(SetAs(t))
  {
    assert FormatStep(SetAs(t)) == "as" + [' '] + t;
    LineSplit("as", t);
    ParseAs(t);
  }

  lemma SearchLine(k: int, d: Direction)
    ensures ParseStepLine(FormatStep(Search(k, d))) == Success(Search(k, d))
  {
    var rest := IntText(k) + [' '] + Arrow(d);
    assert FormatStep(Search(k, d)) == "s" + [' '] + rest;
    LineSplit("s", rest);
    ParseS(rest);
    SearchData(k, d);
  }

  lemma MatchLine(k: int)
    ensures ParseStepLine(FormatStep(MatchKey(k))) == Success(MatchKey(k))
  {
    assert FormatStep(MatchKey(k)) == "match" + [' '] + IntText(k);
    IntTextNoSpace(k);
    LineSplit("match", IntText(k));
    ParseMatch(IntText(k));
    IntOfText(k);
  }

  lemma FixupRootLine()
    ensures ParseStepLine(FormatStep(FixupRoot)) == Success(FixupRoot)
  {
    assert FormatStep(FixupRoot) == "f" + [' '] + "red-root";
    LineSplit("f", "red-root");
    ParseF("red-root");
    FixupRootData();
  }

  lemma FixupLine(u: string, d: string)
    requires (u == "red-uncle" || u == "black-uncle") && IsSides(d)
    ensures ParseStepLine(FormatStep(FixupUncle(u, d))) == Success(FixupUncle(u, d))
  {
    var data := u + [' '] + d;
    assert FormatStep(FixupUncle(u, d)) == "f" + [' '] + data;
    LineSplit("f", data);
    ParseF(data);
    FixupData(u, d);
  }

  /** Parsing the line written for a validated step gives the step back. */
  lemma StepRoundTrip(s: Step)
    requires StepOk(s)
    ensures ParseStepLine(FormatStep(s)) == Success(s)
  {
    match s
    case SetAs(t) => SetAsLine(t);
    case Search(k, d) => SearchLine(k, d);
    case MatchKey(k) => MatchLine(k);
    case Unmatch => assert ' ' !in FormatStep(s);
    case FixupRoot => FixupRootLine();
    case FixupUncle(u, d) => FixupLine(u, d);
  }

  /** One more line parsed at the end. */
  lemma ParseStepsSnoc(lines: seq<string>, l: string)
    ensures ParseSteps(lines + [l]) ==
      match ParseSteps(lines)
      case Failure(e) => Failure(e)
      case Success(acc) => (match ParseStepLine(l) case Failure(e) => Failure(e) case Success(s) => Success(acc + [s]))
  {
    assert (lines + [l])[..|lines|] == lines;
  }

  /** The parse of the first `j + 1` lines, from that of the first `j`. */
  lemma ParseStepsTake(lines: seq<string>, j: nat)
    requires j < |lines|
    ensures ParseSteps(lines[..j + 1]) ==
      match ParseSteps(lines[..j])
      case Failure(e) => Failure(e)
      case Success(acc) => (match ParseStepLine(lines[j]) case Failure(e) => Failure(e) case Success(s) => Success(acc + [s]))
  {
    assert lines[..j + 1] == lines[..j] + [lines[j]];
    ParseStepsSnoc(lines[..j], lines[j]);
  }

  /** Parsing the lines written for validated steps gives the steps back. */
  lemma {:induction false} StepsRoundTrip(ss: seq<Step>)
    requires forall i :: 0 <= i < |ss| ==> StepOk(ss[i])
    ensures ParseSteps(FormatSteps(ss)) == Success(ss)
  {
    if ss != [] {
      var init, last := ss[..|ss| - 1], ss[|ss| - 1];
      assert ss == init + [last];
      assert FormatSteps(ss) == FormatSteps(init) + [FormatStep(last)];
      StepsRoundTrip(init);
      StepRoundTrip(last);
      ParseStepsSnoc(FormatSteps(init), FormatStep(last));
    }
  }

  /** An action line is its first word and, after one space, its key. */
  lemma ActionLineSplit(w: string, rest: string)
    requires ' ' !in w && Trimmed(Spaces, rest)
    ensures ParseActionLine(w + [' '] + rest) == ParseActionParts(w, rest)
  {
    SplitAt(w, rest);
    StripLead(rest);
  }

  /** `int(str(k)) == k`, as the conversion the parsers call. */
  lemma IntOfText(k: int)
    ensures IntOf(IntText(k)) == Success(k)
  {
    IntRoundTrip(k);
  }

  lemma ActionParts(b: Behavior, k: int)
    ensures ParseActionParts(Symbol(b), IntText(k)) == Success(Action(b, k, []))
  {
    IntOfText(k);
    SymbolParses(b);
  }

  /** `Action.parse_from_desc` takes each behaviour's symbol back to it. */
  lemma SymbolParses(b: Behavior)
    ensures ParseActionDesc(Symbol(b)) == Success(b)
  {
    match b
    case SearchKey => assert Symbol(b) == "/";
    case InsertKey => assert Symbol(b) == "+";
    case DeleteKey => assert Symbol(b) == "-";
  }

  /** Parsing the line written for an action gives its behaviour and key back. */
  lemma ActionRoundTrip(b: Behavior, k: int)
    ensures ParseActionLine(Symbol(b) + [' '] + IntText(k)) == Success(Action(b, k, []))
  {
    IntTextNoSpace(k);
    ActionLineSplit(Symbol(b), IntText(k));
    ActionParts(b, k);
  }

  /** Parsing the item written for an action with validated steps gives the action back. */
  lemma BehaviorRoundTrip(a: Action)
    requires forall j :: 0 <= j < |a.steps| ==> StepOk(a.steps[j])
    ensures ParseBehavior(FormatAction(a)) == Success(a)
  {
    ActionRoundTrip(a.behavior, a.key);
    StepsRoundTrip(a.steps);
  }

  /** One more item parsed at the end. */
  lemma ParseBehaviorsSnoc(items: seq<(string, seq<string>)>, item: (string, seq<string>))
    ensures ParseBehaviors(items + [item]) ==
      match ParseBehaviors(items)
      case Failure(e) => Failure(e)
      case Success(acc) => (match ParseBehavior(item) case Failure(e) => Failure(e) case Success(a) => Success(acc + [a]))
  {
    assert (items + [item])[..|items|] == items;
  }

  /** The parse of the first `i + 1` items, from that of the first `i`. */
  lemma ParseBehaviorsTake(items: seq<(string, seq<string>)>, i: nat)
    requires i < |items|
    ensures ParseBehaviors(items[..i + 1]) ==
      match ParseBehaviors(items[..i])
      case Failure(e) => Failure(e)
      case Success(acc) => (match ParseBehavior(items[i]) case Failure(e) => Failure(e) case Success(a) => Success(acc + [a]))
  {
    assert items[..i + 1] == items[..i] + [items[i]];
    ParseBehaviorsSnoc(items[..i], items[i]);
  }

  /** Parsing the items written for actions with validated steps gives the actions back. */
  lemma {:induction false} BehaviorsRoundTrip(as_: seq<Action>)
    requires forall i, j :: 0 <= i < |as_| && 0 <= j < |as_[i].steps| ==> StepOk(as_[i].steps[j])
    ensures ParseBehaviors(FormatBehaviors(as_)) == Success(as_)
  {
    if as_ != [] {
      var init, last := as_[..|as_| - 1], as_[|as_| - 1];
      assert as_ == init + [last];
      assert FormatBehaviors(as_) == FormatBehaviors(init) + [FormatAction(last)];
      BehaviorsRoundTrip(init);
      BehaviorRoundTrip(last);
      ParseBehaviorsSnoc(FormatBehaviors(init), FormatAction(last));
    }
  }

  function FormatBehaviors(as_: seq<Action>): (r: seq<(string, seq<string>)>)
    ensures |r| == |as_| && forall i :: 0 <= i < |as_| ==> r[i] == FormatAction(as_[i])
  {
    if as_ == [] then [] else FormatBehaviors(as_[..|as_| - 1]) + [FormatAction(as_[|as_| - 1])]
  }

  // ---------------------------------------------------------------------
  // Matching a recorded tuple

  /** The tuple a step stands for: what a recorded step must begin with. */
  function Expected(s: Step): StepTuple
  {
    match s
    case SetAs(t) => [Str("set_as"), Str(t)]
    case Search(k, d) => [Str("search"), Int(k), Str(DirectionName(d))]
    case MatchKey(k) => [Str("match"), Int(k)]
    case Unmatch => [Str("unmatch")]
    case FixupRoot => [Str("fixup"), Str("red-root")]
    case FixupUncle(u, d) => [Str("fixup"), Str(u), Str(d)]
  }

  /** A failed comparison (`AssertionError`) or a tuple too short to read (`IndexError`). */
  datatype MatchError = WrongStep | ShortTuple

  /**
   * `Step.match(actual_step)`: the tag first, then the fields of the step's
   * kind, each read from the tuple before it is compared.
   */
  function MatchStep(s: Step, t: StepTuple): Result<(), MatchError>
  {
    if |t| < 1 then Failure(ShortTuple)
    else if t[0] != Str(Name(s)) then Failure(WrongStep)
    else match s
      case SetAs(n) =>
        if |t| < 2 then Failure(ShortTuple) else if t[1] == Str(n) then Success(()) else Failure(WrongStep)
      case Search(k, d) =>
        if |t| < 3 then Failure(ShortTuple)
        else if t[1] == Int(k) && t[2] == Str(DirectionName(d)) then Success(()) else Failure(WrongStep)
      case MatchKey(k) =>
        if |t| < 2 then Failure(ShortTuple) else if t[1] == Int(k) then Success(()) else Failure(WrongStep)
      case Unmatch => Success(())
      case FixupRoot =>
        if |t| < 2 then Failure(ShortTuple) else if t[1] == Str("red-root") then Success(()) else Failure(WrongStep)
      case FixupUncle(u, d) =>
        if |t| < 3 then Failure(ShortTuple)
        else if t[1] == Str(u) && t[2] == Str(d) then Success(()) else Failure(WrongStep)
  }

  predicate IsPrefix(a: StepTuple, t: StepTuple) { |a| <= |t| && t[..|a|] == a }

  /** A step matches exactly the tuples that begin with the tuple it stands for. */
  lemma MatchIsPrefix(s: Step, t: StepTuple)
    ensures MatchStep(s, t).Success? <==> IsPrefix(Expected(s), t)
  {
    var e := Expected(s);
    if IsPrefix(e, t) {
      assert forall i :: 0 <= i < |e| ==> t[..|e|][i] == t[i];
    }
  }

  /** Two validated steps whose tuples extend one another are the same step. */
  lemma ExpectedExact(s: Step, s': Step)
    requires StepOk(s) && StepOk(s') && IsPrefix(Expected(s), Expected(s'))
    ensures s == s'
  {
    var e, e' := Expected(s), Expected(s');
    assert e'[..|e|][0] == e[0];
    if |e| >= 2 { assert e'[..|e|][1] == e[1]; }
    if |e| >= 3 { assert e'[..|e|][2] == e[2]; }
  }

  // ---------------------------------------------------------------------
  // The steps that describe engine calls

  /** The steps a fixture writes for one engine call. */
  function Describe(e: Event): seq<Step>
  {
    match e
    case InitTree => [SetAs("root")]
    case SearchNode(k, d, finished) => [Search(k, d)] + (if finished then [SetAs("leaf")] else [])
    case MatchNode(k) => [MatchKey(k)]
    case UnmatchNode => [Unmatch]
    case FixupTree(pf, mf, c) => [FixupUncle(UncleKind(c), [DirectionLetter(pf), DirectionLetter(mf)])]
    case BlackenRootNode => [FixupRoot]
  }

  function DescribeAll(es: seq<Event>): seq<Step>
  {
    if es == [] then [] else Describe(es[0]) + DescribeAll(es[1..])
  }

  /** The recorder writes, for each call, exactly the tuples its description stands for, all validated. */
  lemma DescribeRecord(e: Event)
    ensures var ss := Describe(e);
      |ss| == |Record(e)| && forall i :: 0 <= i < |ss| ==> StepOk(ss[i]) && Expected(ss[i]) == Record(e)[i]
  {
  }

  lemma {:induction false} DescribeAllRecord(es: seq<Event>)
    ensures var ss := DescribeAll(es);
      |ss| == |RecordAll(es)| && forall i :: 0 <= i < |ss| ==> StepOk(ss[i]) && Expected(ss[i]) == RecordAll(es)[i]
  {
    if es != [] {
      DescribeRecord(es[0]);
      DescribeAllRecord(es[1..]);
      DescribesConcat(Describe(es[0]), Record(es[0]), DescribeAll(es[1..]), RecordAll(es[1..]));
    }
  }

  /** Steps that describe two runs of tuples, one after the other, describe the whole run. */
  lemma DescribesConcat(a: seq<Step>, x: seq<StepTuple>, b: seq<Step>, y: seq<StepTuple>)
    requires |a| == |x| && forall i :: 0 <= i < |a| ==> StepOk(a[i]) && Expected(a[i]) == x[i]
    requires |b| == |y| && forall i :: 0 <= i < |b| ==> StepOk(b[i]) && Expected(b[i]) == y[i]
    ensures |a + b| == |x + y| && forall i :: 0 <= i < |a + b| ==> StepOk((a + b)[i]) && Expected((a + b)[i]) == (x + y)[i]
  {
    assert forall i :: |a| <= i < |a| + |b| ==> (a + b)[i] == b[i - |a|] && (x + y)[i] == y[i - |a|];
  }
}
